/** The packet-bounds helpers of XDP programs. */
module Xdp {
  import opened Words

  const ETH_HLEN: int := 14
  const EINVAL: int := 22

  /** The bounds of a packet inside its buffer. */
  datatype Bounds = Bounds(data: u64, dataEnd: u64, bufferStart: u64, bufferEnd: u64)

  /** buffer_start <= data <= data_end <= buffer_end. */
  predicate Ordered(b: Bounds) { b.bufferStart <= b.data <= b.dataEnd <= b.bufferEnd }

  /** No offset and length together reach the top of the address range from the packet's start. */
  predicate AwayFromTop(b: Bounds) { b.data + 2 * (TWO32 - 1) < TWO64 }

  predicate HeadRefused(b: Bounds, offset: i32) {
    var data := ToU64(b.data + offset);
    data > ToU64(b.dataEnd - ETH_HLEN) || data > b.bufferEnd
  }

  function HeadMoved(b: Bounds, offset: i32): Bounds {
    var data := ToU64(b.data + offset);
    if HeadRefused(b, offset) then b
    else b.(data := if data < b.bufferStart then b.bufferStart else data)
  }

  type Mem = u64 -> u8

  /** len bytes moved from src to dst, as memmove does whether or not they overlap. */
  function Memmoved(mem: Mem, dst: u64, src: u64, len: u64): Mem {
    (x: u64) => if ToU64(x - dst) < len then mem(ToU64(src + ToU64(x - dst))) else mem(x)
  }

  /** The place asked for lies before the buffer. */
  predicate HeadClamped(b: Bounds, offset: i32) {
    !HeadRefused(b, offset) && ToU64(b.data + offset) < b.bufferStart
  }

  /** Memory after the head was moved: a clamped head moves the packet. */
  function HeadMem(b: Bounds, offset: i32, mem: Mem): Mem {
    if !HeadClamped(b, offset) then mem
    else Memmoved(mem, ToU64(b.bufferStart + (b.bufferStart - ToU64(b.data + offset))), b.data,
                  ToU64(b.dataEnd - b.data))
  }

  predicate TailRefused(b: Bounds, delta: i32) {
    var end := ToU64(b.dataEnd + delta);
    end < b.data || end < b.bufferStart || end > b.bufferEnd
  }

  function TailMoved(b: Bounds, delta: i32): Bounds {
    if TailRefused(b, delta) then b else b.(dataEnd := ToU64(b.dataEnd + delta))
  }

  predicate LoadAccepted(b: Bounds, offset: u32, len: u32) {
    ToU64(ToU64(b.data + offset) + len) <= b.dataEnd
  }

  /** len bytes of the address space. */
  function Copied(mem: Mem, a: int, len: nat): (r: seq<u8>)
    ensures |r| == len
    ensures forall i :: 0 <= i < len ==> r[i] == mem(ToU64(a + i))
  {
    if len == 0 then [] else Copied(mem, a, len - 1) + [mem(ToU64(a + len - 1))]
  }

  class Packet {
    var data: u64
    var dataEnd: u64
    const bufferStart: u64
    const bufferEnd: u64
    /** The address space. */
    var mem: Mem

    constructor (b: Bounds, m: Mem)
      ensures Now() == b && mem == m
    {
      data, dataEnd, bufferStart, bufferEnd, mem := b.data, b.dataEnd, b.bufferStart, b.bufferEnd, m;
    }

    function Now(): Bounds
      reads this
    {
      Bounds(data, dataEnd, bufferStart, bufferEnd)
    }

    method AdjustHead(offset: i32) returns (r: int)
      modifies this
      ensures Now() == HeadMoved(old(Now()), offset) && mem == HeadMem(old(Now()), offset, old(mem))
      ensures r == if HeadRefused(old(Now()), offset) then -EINVAL else 0
    {
      var d := ToU64(data + offset);
      if d > ToU64(dataEnd - ETH_HLEN) || d > bufferEnd { return -EINVAL; }
      if d < bufferStart {
        mem := Memmoved(mem, ToU64(bufferStart + (bufferStart - d)), data, ToU64(dataEnd - data));
        d := bufferStart;
      }
      data := d;
      return 0;
    }

    method AdjustTail(delta: i32) returns (r: int)
      modifies this
      ensures Now() == TailMoved(old(Now()), delta) && mem == old(mem)
      ensures r == if TailRefused(old(Now()), delta) then -EINVAL else 0
    {
      var end := ToU64(dataEnd + delta);
      if end < data || end < bufferStart || end > bufferEnd { return -EINVAL; }
      dataEnd := end;
      return 0;
    }

    /** An accepted load copies len bytes from data + offset. */
    method LoadBytes(offset: u32, len: u32) returns (r: int, buf: seq<u8>)
      ensures r == if LoadAccepted(Now(), offset, len) then 0 else -EINVAL
      ensures r == 0 ==> |buf| == len && forall i :: 0 <= i < len ==> buf[i] == mem(ToU64(ToU64(data + offset) + i))
      ensures r == 0 && Ordered(Now()) && AwayFromTop(Now()) ==>
        bufferStart <= data + offset && data + offset + len <= bufferEnd
    {
      if Ordered(Now()) && AwayFromTop(Now()) { LoadInside(Now(), offset, len); }
      var d := ToU64(data + offset);
      if ToU64(d + len) > dataEnd { return -EINVAL, []; }
      return 0, Copied(mem, d, len);
    }
  }

  // ---- Bounds are kept ----

  lemma LoadInside(b: Bounds, offset: u32, len: u32)
    requires Ordered(b) && AwayFromTop(b)
    ensures LoadAccepted(b, offset, len) <==> b.data + offset + len <= b.dataEnd
    ensures ToU64(b.data + offset) == b.data + offset
  {
  }

  /** Every accepted load reads only inside the packet exactly when the packet starts far enough
      from the top of the address range. */
  lemma LoadsInsideIff(b: Bounds)
    requires Ordered(b)
    ensures (forall offset: u32, len: u32 :: LoadAccepted(b, offset, len) ==> b.data + offset + len <= b.dataEnd)
            <==> AwayFromTop(b)
  {
    if AwayFromTop(b) {
      forall offset: u32, len: u32 | LoadAccepted(b, offset, len) ensures b.data + offset + len <= b.dataEnd {
        LoadInside(b, offset, len);
      }
    } else {
      assert LoadAccepted(b, TWO32 - 1, TWO32 - 1);
    }
  }

  /** Moving the head keeps the bounds for every offset exactly when the Ethernet header length
      can be taken off data_end, or the packet already ends where its buffer ends. */
  lemma HeadKeepsIff(b: Bounds)
    requires Ordered(b)
    ensures (forall offset: i32 :: Ordered(HeadMoved(b, offset))) <==> b.dataEnd >= ETH_HLEN || b.dataEnd == b.bufferEnd
  {
    if b.dataEnd < ETH_HLEN && b.dataEnd < b.bufferEnd {
      var offset: i32 := b.dataEnd + 1 - b.data;
      assert HeadMoved(b, offset).data == b.dataEnd + 1;
    }
  }

  /** What making room promises: the packet's bytes, here byte i, follow the room. */
  predicate FollowsAt(b: Bounds, offset: i32, mem: Mem, i: nat) {
    HeadMem(b, offset, mem)(ToU64(HeadMoved(b, offset).data - offset + i)) == mem(ToU64(b.data + i))
  }

  ghost predicate PayloadFollows(b: Bounds, offset: i32, mem: Mem) {
    forall i: nat :: i < b.dataEnd - b.data ==> FollowsAt(b, offset, mem, i)
  }

  /** Making room keeps the packet, whatever its bytes, if and only if the buffer has the room, or the packet
      starts where its buffer does, or it is empty: a clamped head moves the packet by the missing bytes
      counted from the start of the buffer, not from the packet. */
  lemma PayloadFollowsIff(b: Bounds, offset: i32)
    requires Ordered(b) && offset <= 0 && !HeadRefused(b, offset)
    ensures (forall mem: Mem :: PayloadFollows(b, offset, mem))
            <==> !HeadClamped(b, offset) || b.data == b.bufferStart || b.data == b.dataEnd
  {
    hide HeadRefused, FollowsAt, HeadClamped;
    if !HeadClamped(b, offset) {
      forall mem: Mem, i: nat ensures FollowsAt(b, offset, mem, i) { RoomThere(b, offset, mem, i); }
    } else if b.data == b.bufferStart {
      forall mem: Mem, i: nat | i < b.dataEnd - b.data ensures FollowsAt(b, offset, mem, i) {
        ClampedIs(b, offset, mem, i);
      }
    } else if b.data < b.dataEnd {
      var mem: Mem := (x: u64) => if x == b.data then 1 else 0;
      ClampedIs(b, offset, mem, 0);
      ClampedExact(b, offset);
      Elsewhere(b.bufferStart, b.data, offset);
      assert !FollowsAt(b, offset, mem, 0);
      assert !PayloadFollows(b, offset, mem);
    }
  }

  /** One byte more than there is room for: the call is accepted and the packet misplaced. */
  lemma OneByteTooMuch(b: Bounds) returns (offset: i32, mem: Mem)
    requires Ordered(b) && 1 <= b.bufferStart < b.data < b.dataEnd && b.data - b.bufferStart < TWO31
    requires b.bufferStart + ETH_HLEN <= b.dataEnd
    ensures offset == b.bufferStart - b.data - 1 && !HeadRefused(b, offset) && !PayloadFollows(b, offset, mem)
  {
    offset := b.bufferStart - b.data - 1;
    assert !HeadRefused(b, offset) && HeadClamped(b, offset);
    PayloadFollowsIff(b, offset);
    mem :| !PayloadFollows(b, offset, mem);
  }

  lemma Elsewhere(start: u64, data: u64, offset: i32)
    requires start < data && offset <= 0 && data + offset < start
    ensures ToU64(data + (data - start)) != data && ToU64(start - offset) != data
  {
  }

  lemma AddWord(x: int, y: int)
    ensures ToU64(ToU64(x) + y) == ToU64(x + y)
  {
  }

  lemma RoomThere(b: Bounds, offset: i32, mem: Mem, i: nat)
    requires !HeadRefused(b, offset) && !HeadClamped(b, offset)
    ensures FollowsAt(b, offset, mem, i)
  {
    hide ToU64;
    AddWord(b.data + offset, i - offset);
  }

  /** A clamped head has not wrapped around. */
  lemma ClampedExact(b: Bounds, offset: i32)
    requires Ordered(b) && offset <= 0 && HeadClamped(b, offset)
    ensures ToU64(b.data + offset) == b.data + offset < b.bufferStart
  {
    hide HeadRefused;
  }

  lemma Distance(start: u64, data: u64, offset: i32, i: nat)
    requires start <= data && data - start + i < TWO64
    ensures ToU64(ToU64(start - offset + i) - ToU64(start + (start - (data + offset)))) == data - start + i
  {
    hide ToU64;
    SubtractWords(start - offset + i, start + (start - (data + offset)));
    SmallWord(data - start + i);
  }

  lemma SubtractWords(x: int, y: int)
    ensures ToU64(ToU64(x) - ToU64(y)) == ToU64(x - y)
  {
  }

  lemma SmallWord(x: int)
    requires 0 <= x < TWO64
    ensures ToU64(x) == x
  {
  }

  /** Where a byte behind the room comes from when the head was clamped. */
  lemma ClampedIs(b: Bounds, offset: i32, mem: Mem, i: nat)
    requires Ordered(b) && offset <= 0 && HeadClamped(b, offset) && i < b.dataEnd - b.data
    ensures var gap := b.data - b.bufferStart;
            FollowsAt(b, offset, mem, i) <==>
            mem(if gap + i < b.dataEnd - b.data then ToU64(b.data + gap + i) else ToU64(b.bufferStart - offset + i))
            == mem(b.data + i)
  {
    hide ToU64, HeadRefused;
    ClampedExact(b, offset);
    Distance(b.bufferStart, b.data, offset, i);
    SmallWord(b.dataEnd - b.data);
    SmallWord(b.data + i);
  }

  /** Where no wrap-around occurs, the helpers do what exact arithmetic says: the head goes to the
      asked place or the start of the buffer, unless less than a header would be left; the tail goes
      anywhere between the head and the end of the buffer. */
  lemma ExactAdjustments(b: Bounds, k: i32)
    requires Ordered(b) && b.dataEnd >= ETH_HLEN
    ensures 0 <= b.data + k < TWO64 ==>
      && (HeadRefused(b, k) <==> b.data + k > b.dataEnd - ETH_HLEN)
      && (!HeadRefused(b, k) ==>
            HeadMoved(b, k) == b.(data := if b.data + k < b.bufferStart then b.bufferStart else b.data + k))
    ensures 0 <= b.dataEnd + k < TWO64 ==>
      && (TailRefused(b, k) <==> !(b.data <= b.dataEnd + k <= b.bufferEnd))
      && (!TailRefused(b, k) ==> TailMoved(b, k) == b.(dataEnd := b.dataEnd + k))
  {
    hide ToU64;
    SmallWord(b.dataEnd - ETH_HLEN);
    if 0 <= b.data + k < TWO64 { SmallWord(b.data + k); }
    if 0 <= b.dataEnd + k < TWO64 { SmallWord(b.dataEnd + k); }
  }

  datatype Adjust = Head(offset: i32) | Tail(delta: i32)

  function Adjusted(b: Bounds, a: Adjust): Bounds {
    match a case Head(offset) => HeadMoved(b, offset) case Tail(delta) => TailMoved(b, delta)
  }

  function AllAdjusted(b: Bounds, calls: seq<Adjust>): Bounds
    decreases |calls|
  {
    if calls == [] then b else AllAdjusted(Adjusted(b, calls[0]), calls[1..])
  }

  lemma {:induction false} AllAdjustedConcat(b: Bounds, xs: seq<Adjust>, ys: seq<Adjust>)
    ensures AllAdjusted(b, xs + ys) == AllAdjusted(AllAdjusted(b, xs), ys)
    decreases |xs|
  {
    if xs == [] {
      assert xs + ys == ys;
    } else {
      assert (xs + ys)[1..] == xs[1..] + ys;
      AllAdjustedConcat(Adjusted(b, xs[0]), xs[1..], ys);
    }
  }

  lemma OneCall(b: Bounds, a: Adjust)
    ensures AllAdjusted(b, [a]) == Adjusted(b, a)
  {
    assert [a][1..] == [];
  }

  /** A buffer above the first 14 bytes keeps the bounds, and an empty one cannot change. */
  lemma {:induction false} BoundsKept(b: Bounds, calls: seq<Adjust>)
    requires Ordered(b) && (b.bufferStart >= ETH_HLEN || b.bufferStart == b.bufferEnd)
    ensures var r := AllAdjusted(b, calls);
            Ordered(r) && r.bufferStart == b.bufferStart && r.bufferEnd == b.bufferEnd
    decreases |calls|
  {
    if calls != [] {
      HeadKeepsIff(b);
      assert Ordered(Adjusted(b, calls[0]));
      BoundsKept(Adjusted(b, calls[0]), calls[1..]);
    }
  }

  /** From any place the head can be brought to the start of a buffer below 14. */
  lemma {:induction false} HeadDown(b: Bounds) returns (calls: seq<Adjust>)
    requires Ordered(b) && b.bufferStart < ETH_HLEN
    ensures AllAdjusted(b, calls) == b.(data := b.bufferStart)
    decreases b.data
  {
    var at: int := b.data;
    var k: i32 := if at <= TWO31 then -at else -TWO31;
    var next := HeadMoved(b, k);
    assert next == b.(data := if b.data + k < b.bufferStart then b.bufferStart else b.data + k);
    OneCall(b, Head(k));
    calls := [Head(k)];
    if b.data > TWO31 && next.data > b.bufferStart {
      var rest := HeadDown(next);
      AllAdjustedConcat(b, calls, rest);
      calls := calls + rest;
    }
  }

  /** From any place the tail can be brought down to the head. */
  lemma {:induction false} TailDown(b: Bounds) returns (calls: seq<Adjust>)
    requires Ordered(b)
    ensures AllAdjusted(b, calls) == b.(dataEnd := b.data)
    decreases b.dataEnd - b.data
  {
    var gap := b.dataEnd - b.data;
    var k: i32 := if gap <= TWO31 then -gap else -TWO31;
    OneCall(b, Tail(k));
    calls := [Tail(k)];
    if gap > TWO31 {
      var rest := TailDown(TailMoved(b, k));
      AllAdjustedConcat(b, calls, rest);
      calls := calls + rest;
    }
  }

  /** In a low buffer that is not empty some calls put the head behind the tail. */
  lemma LowBufferBreaks(b: Bounds) returns (calls: seq<Adjust>)
    requires Ordered(b) && b.bufferStart < ETH_HLEN && b.bufferStart < b.bufferEnd
    ensures !Ordered(AllAdjusted(b, calls))
  {
    var down := HeadDown(b);
    var b1 := b.(data := b.bufferStart);
    var up := TailDown(b1);
    var b2 := b1.(dataEnd := b1.data);
    AllAdjustedConcat(b, down, up);
    OneCall(b2, Head(1));
    AllAdjustedConcat(b, down + up, [Head(1)]);
    calls := down + up + [Head(1)];
    assert HeadMoved(b2, 1).data == b.bufferStart + 1;
  }

  /** Every sequence of calls with any offsets keeps buffer_start <= data <= data_end <= buffer_end, if
      and only if the buffer does not start in the first 14 bytes of the address space or is empty. */
  lemma BoundsKeptIff(b: Bounds)
    requires Ordered(b)
    ensures (forall calls :: Ordered(AllAdjusted(b, calls)))
            <==> b.bufferStart >= ETH_HLEN || b.bufferStart == b.bufferEnd
  {
    hide Ordered, AllAdjusted;
    if b.bufferStart >= ETH_HLEN || b.bufferStart == b.bufferEnd {
      forall calls ensures Ordered(AllAdjusted(b, calls)) { BoundsKept(b, calls); }
    } else {
      assert b.bufferStart < b.bufferEnd by { OrderedEnds(b); }
      var calls := LowBufferBreaks(b);
    }
  }

  lemma OrderedEnds(b: Bounds)
    requires Ordered(b)
    ensures b.bufferStart <= b.bufferEnd
  {
  }
}
