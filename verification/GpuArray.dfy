/** The per-thread GPU array map: every thread owns one cell for every key. */
module GpuArray {
  import opened Words
  import opened ByteCopy
  import opened ThreadId

  /** The map's row of the device-side information table. */
  datatype Info = Info(base: u64, valueSize: i32, entries: nat, threads: u64) {
    function CellSize(): nat { Length(valueSize) }
    function RowSize(): nat { threads * CellSize() }
    function Size(): nat { entries * threads * CellSize() }
  }

  /** Thread and key are ones the map was created for. */
  predicate Owned(m: Info, t: int, k: int) { 0 <= t < m.threads && 0 <= k < m.entries }

  /** The region is addressable. */
  predicate Placed(m: Info) { m.Size() <= TWO63 && m.base + m.Size() <= TWO64 }

  function Index(m: Info, t: nat, k: nat): nat { k * m.threads + t }
  function Slot(m: Info, t: nat, k: nat): nat { m.base + Index(m, t, k) * m.CellSize() }

  /** The address arithmetic of both helpers, each 64-bit step truncated. */
  function MachineSlot(m: Info, t: i64, k: u32): u64 {
    var row := ToI64(m.threads * k);
    var index := ToI64(t + row);
    ToU64(ToI64(index * m.valueSize) + m.base)
  }

  lemma IndexInRange(m: Info, t: nat, k: nat)
    requires Owned(m, t, k)
    ensures Index(m, t, k) < m.entries * m.threads
  {
    DigitPair(k, t, m.entries, m.threads);
  }

  lemma IndexInjective(m: Info, t: nat, k: nat, t': nat, k': nat)
    requires Owned(m, t, k) && Owned(m, t', k')
    requires Index(m, t, k) == Index(m, t', k')
    ensures t == t' && k == k'
  {
    Recover(k, t, m.threads);
    Recover(k', t', m.threads);
  }

  lemma SlotInRegion(m: Info, t: nat, k: nat)
    requires Owned(m, t, k)
    ensures m.base <= Slot(m, t, k)
    ensures Slot(m, t, k) + m.CellSize() <= m.base + m.Size()
  {
    IndexInRange(m, t, k);
    NonNegative(Index(m, t, k), m.CellSize());
    MulMono(Index(m, t, k) + 1, m.entries * m.threads, m.CellSize());
  }

  lemma SlotsApart(m: Info, i: nat, j: nat)
    requires i < j
    ensures m.base + i * m.CellSize() + m.CellSize() <= m.base + j * m.CellSize()
  {
    MulMono(i + 1, j, m.CellSize());
  }

  /** Cells of different (thread, key) pairs share no byte. */
  lemma SlotsDisjoint(m: Info, t: nat, k: nat, t': nat, k': nat)
    requires Owned(m, t, k) && Owned(m, t', k') && (t, k) != (t', k')
    ensures Slot(m, t, k) + m.CellSize() <= Slot(m, t', k') || Slot(m, t', k') + m.CellSize() <= Slot(m, t, k)
  {
    var i, j := Index(m, t, k), Index(m, t', k');
    if i == j {
      IndexInjective(m, t, k, t', k');
    } else if i < j {
      SlotsApart(m, i, j);
    } else {
      SlotsApart(m, j, i);
    }
  }

  /** Within the map's limits the helpers' truncated arithmetic gives the cell's address. */
  lemma MachineSlotExact(m: Info, t: i64, k: u32)
    requires Owned(m, t, k) && Placed(m) && m.valueSize >= 1
    ensures MachineSlot(m, t, k) == Slot(m, t, k)
  {
    SlotInRegion(m, t, k);
    IndexInRange(m, t, k);
    var i := Index(m, t, k);
    assert m.threads * k == k * m.threads;
    NonNegative(k, m.threads);
    NonNegative(i, m.valueSize);
    assert i <= i * m.valueSize by { MulMono(1, m.valueSize, i); }
    SmallSums(m.base, t, k * m.threads, i * m.valueSize);
  }

  lemma SmallSums(base: u64, t: nat, row: nat, bytes: nat)
    requires t + row <= bytes < TWO63 && base + bytes < TWO64
    ensures ToI64(row) == row && ToI64(t + row) == t + row
    ensures ToI64(bytes) == bytes && ToU64(bytes + base) == base + bytes
  {
  }

  predicate InMemory(m: Info, mem: seq<u8>) { m.base + m.Size() <= |mem| }

  function Cell(m: Info, mem: seq<u8>, t: nat, k: nat): (c: seq<u8>)
    requires Owned(m, t, k) && InMemory(m, mem)
    ensures |c| == m.CellSize()
  {
    SlotInRegion(m, t, k);
    mem[Slot(m, t, k)..Slot(m, t, k) + m.CellSize()]
  }

  /** The abstract map a memory holds. */
  ghost function View(m: Info, mem: seq<u8>): map<(nat, nat), seq<u8>>
    requires InMemory(m, mem)
  {
    map t: nat, k: nat | t < m.threads && k < m.entries :: (t, k) := Cell(m, mem, t, k)
  }

  /** A write of one cell is a write of one entry of the abstract map. */
  lemma WriteCell(m: Info, mem: seq<u8>, mem': seq<u8>, t: nat, k: nat, value: seq<u8>)
    requires Owned(m, t, k) && InMemory(m, mem) && |value| == m.CellSize()
    requires Slot(m, t, k) + m.CellSize() <= |mem|
    requires mem' == mem[..Slot(m, t, k)] + value + mem[Slot(m, t, k) + m.CellSize()..]
    ensures |mem'| == |mem| && View(m, mem') == View(m, mem)[(t, k) := value]
  {
    hide Slot;
    assert Cell(m, mem', t, k) == value;
    forall t': nat, k': nat | t' < m.threads && k' < m.entries && (t', k') != (t, k)
      ensures Cell(m, mem', t', k') == Cell(m, mem, t', k')
    {
      SlotInRegion(m, t', k');
      SlotsDisjoint(m, t, k, t', k');
      OutsideReplaced(mem, Slot(m, t, k), value, Slot(m, t', k'), m.CellSize());
    }
    assert View(m, mem') == View(m, mem)[(t, k) := value];
  }

  /** Helper 2 on this kind of map: copies the value into the caller's cell. */
  method Update(m: Info, mem: array<u8>, t: i64, k: u32, src: nat) returns (r: i64)
    requires Owned(m, t, k) && Placed(m) && InMemory(m, mem[..])
    requires src + m.CellSize() <= mem.Length
    requires Slot(m, t, k) <= src || src + m.CellSize() <= Slot(m, t, k)
    modifies mem
    ensures r == 0
    ensures View(m, mem[..]) == View(m, old(mem[..]))[(t, k) := old(mem[src..src + m.CellSize()])]
    ensures forall x :: 0 <= x < mem.Length && !(m.base <= x < m.base + m.Size()) ==> mem[x] == old(mem[x])
  {
    hide View, Slot, MachineSlot;
    ghost var was := mem[..];
    ghost var value := mem[src..src + m.CellSize()];
    SlotInRegion(m, t, k);
    if m.valueSize < 1 {
      WriteCell(m, was, was, t, k, value);
      return 0;
    }
    MachineSlotExact(m, t, k);
    var dst := MachineSlot(m, t, k);
    UnrolledCopy(mem, src, dst, m.valueSize);
    CopiedSlice(was, src, dst, m.CellSize());
    WriteCell(m, was, mem[..], t, k, value);
    return 0;
  }

  /** Helper 1: the address returned holds the value the abstract map has for the caller. */
  lemma LookupReads(m: Info, mem: seq<u8>, t: i64, k: u32)
    requires Owned(m, t, k) && Placed(m) && InMemory(m, mem) && m.valueSize >= 1
    ensures MachineSlot(m, t, k) + m.valueSize <= |mem|
    ensures mem[MachineSlot(m, t, k)..MachineSlot(m, t, k) + m.valueSize] == View(m, mem)[(t, k)]
  {
    MachineSlotExact(m, t, k);
    SlotInRegion(m, t, k);
  }

  // ---- Interleaved byte stores of many threads ----

  datatype Write = Write(thread: nat, key: nat, at: nat, byte: u8)

  /** Every store stays inside a cell of the thread that makes it. */
  predicate OwnWrite(m: Info, w: Write) { Owned(m, w.thread, w.key) && w.at < m.CellSize() }

  function Address(m: Info, w: Write): nat { Slot(m, w.thread, w.key) + w.at }

  ghost predicate OwnWrites(m: Info, ws: seq<Write>) { forall i :: 0 <= i < |ws| ==> OwnWrite(m, ws[i]) }

  function Stored(m: Info, mem: seq<u8>, w: Write): (r: seq<u8>)
    requires OwnWrite(m, w) && InMemory(m, mem)
    ensures |r| == |mem|
  {
    AddressInRegion(m, w);
    mem[Address(m, w) := w.byte]
  }

  lemma AddressInRegion(m: Info, w: Write)
    requires OwnWrite(m, w)
    ensures Address(m, w) < m.base + m.Size()
  {
    SlotInRegion(m, w.thread, w.key);
  }

  function Applied(m: Info, mem: seq<u8>, ws: seq<Write>): (r: seq<u8>)
    requires OwnWrites(m, ws) && InMemory(m, mem)
    ensures |r| == |mem|
    decreases |ws|
  {
    if ws == [] then mem else Applied(m, Stored(m, mem, ws[0]), ws[1..])
  }

  function Only(ws: seq<Write>, t: nat): seq<Write> {
    if ws == [] then [] else (if ws[0].thread == t then [ws[0]] else []) + Only(ws[1..], t)
  }

  lemma {:induction false} OnlyOwn(m: Info, ws: seq<Write>, t: nat)
    requires OwnWrites(m, ws)
    ensures OwnWrites(m, Only(ws, t))
  {
    if ws != [] { OnlyOwn(m, ws[1..], t); }
  }

  /** Two memories that agree on every cell of thread t. */
  ghost predicate Agree(m: Info, a: seq<u8>, b: seq<u8>, t: nat)
    requires InMemory(m, a) && InMemory(m, b) && t < m.threads
  {
    forall k: nat :: k < m.entries ==> Cell(m, a, t, k) == Cell(m, b, t, k)
  }

  lemma StoreByte(m: Info, mem: seq<u8>, w: Write, t: nat, k: nat)
    requires OwnWrite(m, w) && InMemory(m, mem) && Owned(m, t, k)
    ensures Cell(m, Stored(m, mem, w), t, k)
            == if (t, k) == (w.thread, w.key) then Cell(m, mem, t, k)[w.at := w.byte] else Cell(m, mem, t, k)
  {
    hide Slot;
    SlotInRegion(m, t, k);
    if (t, k) != (w.thread, w.key) { SlotsDisjoint(m, t, k, w.thread, w.key); }
  }

  lemma StoreAgrees(m: Info, mem: seq<u8>, alone: seq<u8>, w: Write, t: nat)
    requires OwnWrite(m, w) && InMemory(m, mem) && InMemory(m, alone) && t < m.threads
    requires Agree(m, mem, alone, t)
    ensures Agree(m, Stored(m, mem, w), if w.thread == t then Stored(m, alone, w) else alone, t)
  {
    hide Cell, Stored;
    forall k: nat | k < m.entries
      ensures Cell(m, Stored(m, mem, w), t, k) == Cell(m, if w.thread == t then Stored(m, alone, w) else alone, t, k)
    {
      StoreByte(m, mem, w, t, k);
      StoreByte(m, alone, w, t, k);
    }
  }

  /** Whatever the interleaving, a thread's cells end as if it had run alone. */
  lemma {:induction false} Isolation(m: Info, mem: seq<u8>, alone: seq<u8>, ws: seq<Write>, t: nat)
    requires OwnWrites(m, ws) && InMemory(m, mem) && InMemory(m, alone) && t < m.threads
    requires Agree(m, mem, alone, t)
    ensures OwnWrites(m, Only(ws, t))
    ensures Agree(m, Applied(m, mem, ws), Applied(m, alone, Only(ws, t)), t)
    decreases |ws|
  {
    hide Agree, Stored;
    OnlyOwn(m, ws, t);
    if ws != [] {
      var w := ws[0];
      StoreAgrees(m, mem, alone, w, t);
      Isolation(m, Stored(m, mem, w), if w.thread == t then Stored(m, alone, w) else alone, ws[1..], t);
      if w.thread == t {
        assert Only(ws, t)[1..] == Only(ws[1..], t);
      } else {
        assert Only(ws, t) == Only(ws[1..], t);
      }
    }
  }

  /** Two threads of a launch that fits the map never share a cell. */
  lemma ThreadsApart(m: Info, l: Launch, s: Thread, t: Thread, k: u32, k': u32)
    requires Fits(l) && l.Total() <= m.threads && Placed(m) && m.valueSize >= 1
    requires InLaunch(l, s) && InLaunch(l, t) && s != t && k < m.entries && k' < m.entries
    ensures var a, b := MachineSlot(m, MachineNumber(l, s), k), MachineSlot(m, MachineNumber(l, t), k');
            a + m.valueSize <= b || b + m.valueSize <= a
  {
    hide MachineNumber, MachineSlot, Fits, InLaunch, Slot;
    MachineNumberBijective(l);
    var i, j := MachineNumber(l, s), MachineNumber(l, t);
    MachineSlotExact(m, i, k);
    MachineSlotExact(m, j, k');
    SlotsDisjoint(m, i, k, j, k');
  }

  // ---- The host's view ----

  /** The block the host copies for a key, by its own arithmetic. */
  function HostRow(m: Info, mem: seq<u8>, k: nat): (row: seq<u8>)
    requires k < m.entries && InMemory(m, mem)
    ensures |row| == m.RowSize()
  {
    RowInRegion(m, k);
    mem[m.base + k * m.RowSize()..m.base + k * m.RowSize() + m.RowSize()]
  }

  lemma RowInRegion(m: Info, k: nat)
    requires k < m.entries
    ensures 0 <= k * m.RowSize()
    ensures k * m.RowSize() + m.RowSize() <= m.Size()
  {
    NonNegative(k, m.RowSize());
    MulMono(k + 1, m.entries, m.RowSize());
    assert m.entries * m.RowSize() == m.Size();
  }

  lemma SlotInRow(m: Info, t: nat, k: nat)
    requires Owned(m, t, k)
    ensures Slot(m, t, k) == m.base + k * m.RowSize() + t * m.CellSize()
    ensures 0 <= t * m.CellSize()
    ensures t * m.CellSize() + m.CellSize() <= m.RowSize()
  {
    NonNegative(t, m.CellSize());
    MulMono(t + 1, m.threads, m.CellSize());
    assert k * (m.threads * m.CellSize()) == k * m.threads * m.CellSize();
    assert (k * m.threads + t) * m.CellSize() == k * m.threads * m.CellSize() + t * m.CellSize();
  }

  /** The host's block for a key is the threads' cells one after another. */
  lemma HostRowIsCells(m: Info, mem: seq<u8>, t: nat, k: nat)
    requires Owned(m, t, k) && InMemory(m, mem)
    ensures 0 <= t * m.CellSize() && t * m.CellSize() + m.CellSize() <= m.RowSize()
    ensures HostRow(m, mem, k)[t * m.CellSize()..t * m.CellSize() + m.CellSize()] == View(m, mem)[(t, k)]
  {
    RowInRegion(m, k);
    SlotInRow(m, t, k);
    SliceOfSlice(mem, m.base + k * m.RowSize(), m.RowSize(), t * m.CellSize(), m.CellSize());
  }

  lemma SliceOfSlice(s: seq<u8>, a: nat, n: nat, b: nat, c: nat)
    requires a + n <= |s| && b + c <= n
    ensures s[a..a + n][b..b + c] == s[a + b..a + b + c]
  {
    var l, r := s[a..a + n][b..b + c], s[a + b..a + b + c];
    assert |l| == |r| && forall i :: 0 <= i < |l| ==> l[i] == r[i];
  }

  /** The host's update of a key overwrites its whole row. */
  function HostWritten(m: Info, mem: seq<u8>, k: nat, value: seq<u8>): (r: seq<u8>)
    requires k < m.entries && InMemory(m, mem) && |value| == m.RowSize()
    ensures |r| == |mem|
  {
    RowInRegion(m, k);
    mem[..m.base + k * m.RowSize()] + value + mem[m.base + k * m.RowSize() + m.RowSize()..]
  }

  lemma OtherRow(m: Info, t: nat, k: nat, k': nat)
    requires Owned(m, t, k) && Owned(m, t, k') && k != k'
    ensures Slot(m, t, k') + m.CellSize() <= m.base + k * m.RowSize()
            || m.base + k * m.RowSize() + m.RowSize() <= Slot(m, t, k')
  {
    SlotInRow(m, t, k');
    if k' < k { MulMono(k' + 1, k, m.RowSize()); } else { MulMono(k + 1, k', m.RowSize()); }
  }

  /** Every thread then finds its own piece of the value, and no other key changes. */
  lemma HostWriteSeen(m: Info, mem: seq<u8>, k: nat, value: seq<u8>, t: nat, k': nat)
    requires Owned(m, t, k) && Owned(m, t, k') && InMemory(m, mem) && |value| == m.RowSize()
    ensures 0 <= t * m.CellSize() && t * m.CellSize() + m.CellSize() <= |value|
    ensures Cell(m, HostWritten(m, mem, k, value), t, k')
            == if k' == k then value[t * m.CellSize()..t * m.CellSize() + m.CellSize()] else Cell(m, mem, t, k')
  {
    hide Slot;
    RowInRegion(m, k);
    SlotInRow(m, t, k);
    SlotInRegion(m, t, k');
    var at := m.base + k * m.RowSize();
    if k' == k {
      InsideReplaced(mem, at, value, t * m.CellSize(), m.CellSize());
    } else {
      OtherRow(m, t, k, k');
      OutsideReplaced(mem, at, value, Slot(m, t, k'), m.CellSize());
    }
  }

  lemma InsideReplaced(s: seq<u8>, a: nat, v: seq<u8>, b: nat, n: nat)
    requires a + |v| <= |s| && b + n <= |v|
    ensures (s[..a] + v + s[a + |v|..])[a + b..a + b + n] == v[b..b + n]
  {
  }

  lemma OutsideReplaced(s: seq<u8>, a: nat, v: seq<u8>, b: nat, n: nat)
    requires a + |v| <= |s| && b + n <= |s| && (b + n <= a || a + |v| <= b)
    ensures (s[..a] + v + s[a + |v|..])[b..b + n] == s[b..b + n]
  {
  }
}
