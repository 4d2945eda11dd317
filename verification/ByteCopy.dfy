/** The unrolled byte copies of the GPU helpers. */
module ByteCopy {
  import opened Words

  /** One byte after another, reading each byte when its turn comes. */
  function Copied(mem: seq<u8>, src: nat, dst: nat, n: nat): (r: seq<u8>)
    requires src + n <= |mem| && dst + n <= |mem|
    ensures |r| == |mem|
    decreases n
  {
    if n == 0 then mem else Copied(mem[dst := mem[src]], src + 1, dst + 1, n - 1)
  }

  /** The bytes a signed 32-bit length copies: none when it is below 1. */
  function Length(n: i32): nat { if n < 1 then 0 else n }

  lemma CopiedNone(mem: seq<u8>, src: nat, dst: nat)
    requires src <= |mem| && dst <= |mem|
    ensures Copied(mem, src, dst, 0) == mem
  {
  }

  lemma {:induction false} CopiedSnoc(mem: seq<u8>, src: nat, dst: nat, n: nat)
    requires src + n < |mem| && dst + n < |mem|
    ensures var r := Copied(mem, src, dst, n);
            Copied(mem, src, dst, n + 1) == r[dst + n := r[src + n]]
    decreases n
  {
    if n > 0 {
      CopiedSnoc(mem[dst := mem[src]], src + 1, dst + 1, n - 1);
    }
  }

  method CopyByte(mem: array<u8>, src: nat, dst: nat, ghost start: seq<u8>, k: nat)
    requires src + k < mem.Length && dst + k < mem.Length && |start| == mem.Length
    requires mem[..] == Copied(start, src, dst, k)
    modifies mem
    ensures mem[..] == Copied(start, src, dst, k + 1)
  {
    CopiedSnoc(start, src, dst, k);
    mem[dst + k] := mem[src + k];
  }

  /** Four bytes a turn, then the remainder: the same as byte by byte, for every overlap. */
  method UnrolledCopy(mem: array<u8>, src: nat, dst: nat, n: i32)
    requires src + Length(n) <= mem.Length && dst + Length(n) <= mem.Length
    modifies mem
    ensures mem[..] == Copied(old(mem[..]), src, dst, Length(n))
  {
    hide Copied;
    ghost var start := mem[..];
    assert mem[..] == Copied(start, src, dst, 0) by {
      CopiedNone(start, src, dst);
    }
    if n < 1 {
      return;
    }
    var rest := n % 4;
    var i: nat := 0;
    if n >= 4 {
      var limit := n - n % 4;
      while i != limit
        invariant 0 <= i <= limit && i % 4 == 0
        invariant mem[..] == Copied(start, src, dst, i)
        decreases limit - i
      {
        CopyByte(mem, src, dst, start, i);
        CopyByte(mem, src, dst, start, i + 1);
        CopyByte(mem, src, dst, start, i + 2);
        CopyByte(mem, src, dst, start, i + 3);
        i := i + 4;
      }
    }
    while rest != 0
      invariant 0 <= rest && i + rest == n
      invariant mem[..] == Copied(start, src, dst, i)
      decreases rest
    {
      CopyByte(mem, src, dst, start, i);
      i := i + 1;
      rest := rest - 1;
    }
  }

  /** Unless the destination starts inside the source, the copy moves exactly the n source
      bytes and touches nothing else. */
  lemma {:induction false} CopiedAt(mem: seq<u8>, src: nat, dst: nat, n: nat, x: nat)
    requires src + n <= |mem| && dst + n <= |mem| && x < |mem|
    requires dst <= src || src + n <= dst
    ensures Copied(mem, src, dst, n)[x] == if dst <= x < dst + n then mem[src + (x - dst)] else mem[x]
    decreases n
  {
    if n > 0 {
      CopiedAt(mem[dst := mem[src]], src + 1, dst + 1, n - 1, x);
    }
  }

  lemma CopiedSlice(mem: seq<u8>, src: nat, dst: nat, n: nat)
    requires src + n <= |mem| && dst + n <= |mem|
    requires dst <= src || src + n <= dst
    ensures Copied(mem, src, dst, n) == mem[..dst] + mem[src..src + n] + mem[dst + n..]
  {
    hide Copied;
    forall x | 0 <= x < |mem|
      ensures Copied(mem, src, dst, n)[x] == (mem[..dst] + mem[src..src + n] + mem[dst + n..])[x]
    {
      CopiedAt(mem, src, dst, n, x);
    }
  }
}
