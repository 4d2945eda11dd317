/** The incremental Internet checksum helper (RFC 1624, RFC 1071). */
module Checksum {
  import opened Words

  const EINVAL: int := 22

  datatype Buffer = Null | Pointer(bytes: seq<u8>)

  /** The 16-bit words of a byte string, low byte first. */
  function WordAt(b: seq<u8>, i: nat): u16
    requires 2 * i + 1 < |b|
  {
    var lo: int, hi: int := b[2 * i], b[2 * i + 1];
    lo + 256 * hi
  }

  function WordSum(b: seq<u8>, n: nat): (s: nat)
    requires 2 * n <= |b|
    ensures s <= 65535 * n
  {
    if n == 0 then 0 else WordSum(b, n - 1) + WordAt(b, n - 1)
  }

  function ComplementSum(b: seq<u8>, n: nat): nat
    requires 2 * n <= |b|
  {
    if n == 0 then 0 else ComplementSum(b, n - 1) + (65535 - WordAt(b, n - 1))
  }

  /** Number and sum of the words of a string of even length. */
  predicate Even(b: seq<u8>) { |b| % 2 == 0 }
  function Count(b: seq<u8>): (n: nat)
    ensures 2 * n <= |b|
  {
    |b| / 2
  }
  function Sum(b: seq<u8>): nat
    requires Even(b)
  {
    WordSum(b, Count(b))
  }

  /** The caller's buffer holds as many bytes as its size says. */
  predicate Covers(b: Buffer, size: i32) { b.Pointer? ==> size <= |b.bytes| }

  /** The bytes that take part. */
  function Part(b: Buffer, size: i32): (r: seq<u8>)
    requires Covers(b, size)
    ensures size % 4 == 0 ==> |r| % 4 == 0
  {
    if b.Null? || size <= 0 then [] else b.bytes[..size]
  }

  /** The sum without any wrap-around. */
  function Exact(from: seq<u8>, to: seq<u8>, seed: int): int {
    seed + WordSum(to, Count(to)) + ComplementSum(from, Count(from))
  }

  /** The helper's result on buffers of acceptable sizes. */
  function Diff(from: seq<u8>, to: seq<u8>, seed: i32): int {
    var x := ToI32(Exact(from, to, seed));
    if x < 0 then -EINVAL else x
  }

  lemma {:induction false} WordSumPrefix(b: seq<u8>, size: nat, n: nat)
    requires 2 * n <= size <= |b|
    ensures WordSum(b, n) == WordSum(b[..size], n) && ComplementSum(b, n) == ComplementSum(b[..size], n)
  {
    if n > 0 { WordSumPrefix(b, size, n - 1); }
  }

  lemma WrapStep(x: int, y: int)
    ensures ToI32(ToI32(x) + y) == ToI32(x + y)
  {
  }

  method AddWords(b: Buffer, size: i32, acc: i32, complement: bool) returns (r: i32)
    requires Covers(b, size) && size % 4 == 0
    ensures var p := Part(b, size);
            r == ToI32(acc + if complement then ComplementSum(p, Count(p)) else WordSum(p, Count(p)))
  {
    hide ToI32, WordAt;
    WrapStep(acc, 0);
    r := ToI32(acc);
    if b.Null? || size <= 0 { return; }
    for i := 0 to size / 2
      invariant r == ToI32(acc + if complement then ComplementSum(b.bytes, i) else WordSum(b.bytes, i))
    {
      var w := WordAt(b.bytes, i);
      var term := if complement then 65535 - w else w;
      WrapStep(acc + if complement then ComplementSum(b.bytes, i) else WordSum(b.bytes, i), term);
      r := ToI32(r + term);
    }
    WordSumPrefix(b.bytes, size, size / 2);
  }

  /** The helper. Sizes that are not multiples of 4 are refused; a null buffer or a size that is
      not positive adds nothing; a negative 32-bit sum is refused. */
  method CsumDiff(from: Buffer, fromSize: i32, to: Buffer, toSize: i32, seed: i32) returns (r: int)
    requires Covers(from, fromSize) && Covers(to, toSize)
    ensures fromSize % 4 != 0 || toSize % 4 != 0 ==> r == -EINVAL
    ensures fromSize % 4 == 0 && toSize % 4 == 0 ==> r == Diff(Part(from, fromSize), Part(to, toSize), seed)
  {
    if fromSize % 4 != 0 || toSize % 4 != 0 { return -EINVAL; }
    var sum := AddWords(to, toSize, seed, false);
    var p := Part(to, toSize);
    var q := Part(from, fromSize);
    WrapStep(seed + WordSum(p, Count(p)), ComplementSum(q, Count(q)));
    sum := AddWords(from, fromSize, sum, true);
    if sum < 0 { return -EINVAL; }
    return sum;
  }

  // ---- What the sum means ----

  lemma {:induction false} ComplementIs(b: seq<u8>, n: nat)
    requires 2 * n <= |b|
    ensures ComplementSum(b, n) == 65535 * n - WordSum(b, n)
  {
    if n > 0 { ComplementIs(b, n - 1); }
  }

  lemma {:induction false} WordSumConcat(a: seq<u8>, b: seq<u8>, n: nat)
    requires Even(a) && 2 * n <= |b|
    ensures WordSum(a + b, Count(a) + n) == WordSum(a, Count(a)) + WordSum(b, n)
  {
    if n > 0 {
      WordSumConcat(a, b, n - 1);
      var k := Count(a) + n - 1;
      assert (a + b)[2 * k] == b[2 * (n - 1)] && (a + b)[2 * k + 1] == b[2 * (n - 1) + 1];
    } else {
      WordSumPrefix(a + b, |a|, Count(a));
      assert (a + b)[..|a|] == a;
    }
  }

  lemma EvenConcat(a: seq<u8>, b: seq<u8>)
    requires Even(a) && Even(b)
    ensures Even(a + b) && Count(a + b) == Count(a) + Count(b)
  {
  }

  lemma SumConcat(a: seq<u8>, b: seq<u8>)
    requires Even(a) && Even(b)
    ensures Even(a + b) && Sum(a + b) == Sum(a) + Sum(b)
  {
    EvenConcat(a, b);
    WordSumConcat(a, b, Count(b));
  }

  /** One's complement subtracts, up to a multiple of 65535. */
  lemma ExactIs(from: seq<u8>, to: seq<u8>, seed: int)
    requires Even(from) && Even(to)
    ensures Exact(from, to, seed) == seed + Sum(to) + 65535 * (Count(from)) - Sum(from)
    ensures Sum(from) <= 65535 * (Count(from))
  {
    ComplementIs(from, Count(from));
  }

  /** Sums that do not reach 2^31: the result is exact, never negative, and congruent to the seed
      plus the new words less the old ones. */
  lemma DiffExact(from: seq<u8>, to: seq<u8>, seed: i32)
    requires Even(from) && Even(to) && seed >= 0
    requires Exact(from, to, seed) < TWO31
    ensures Diff(from, to, seed) == Exact(from, to, seed) >= 0
    ensures Diff(from, to, seed) % 65535 == (seed + Sum(to) - Sum(from)) % 65535
  {
    hide Exact, Sum;
    ExactIs(from, to, seed);
    MultipleVanishes(seed + Sum(to) - Sum(from), Count(from));
  }

  /** The result is the exact sum if and only if that stays below 2^31. The error that a larger sum
      calls for comes if and only if bit 31 of the sum is set: sums that wrap all the way round pass. */
  lemma ExactIff(from: seq<u8>, to: seq<u8>, seed: i32)
    requires Even(from) && Even(to) && seed >= 0
    ensures Diff(from, to, seed) == Exact(from, to, seed) <==> Exact(from, to, seed) < TWO31
    ensures Diff(from, to, seed) == -EINVAL <==> Exact(from, to, seed) % TWO32 >= TWO31
  {
    hide Exact;
    assert Exact(from, to, seed) >= 0 by { ExactIs(from, to, seed); }
    WordSign(Exact(from, to, seed));
  }

  lemma {:induction false} AllOnesSum(b: seq<u8>, n: nat)
    requires 2 * n <= |b| && forall i :: 0 <= i < |b| ==> b[i] == 255
    ensures WordSum(b, n) == 65535 * n
  {
    if n > 0 { AllOnesSum(b, n - 1); }
  }

  /** From 65538 words of ones on a sum wraps all the way round, and is returned without an error. */
  lemma WrapsRound(n: nat)
    requires 65538 <= n <= 98305
    ensures Diff([], seq(2 * n, _ => 255 as u8), 0) == 65535 * n - TWO32
    ensures Exact([], seq(2 * n, _ => 255 as u8), 0) == 65535 * n
  {
    AllOnesSum(seq(2 * n, _ => 255 as u8), n);
  }

  lemma WordSign(x: nat)
    ensures ToI32(x) == x <==> x < TWO31
    ensures ToI32(x) < 0 <==> x % TWO32 >= TWO31
  {
  }

  lemma MultipleVanishes(x: int, k: nat)
    ensures (x + 65535 * k) % 65535 == x % 65535
  {
    var q, r := x / 65535, x % 65535;
    assert x + 65535 * k == 65535 * (q + k) + r;
    QuotientUnique(x + 65535 * k, 65535, q + k, r);
  }

  /** A second call seeded with the first gives what one call on the joined buffers gives. */
  lemma Chaining(from: seq<u8>, to: seq<u8>, from2: seq<u8>, to2: seq<u8>, seed: i32)
    requires Even(from) && Even(to) && Even(from2) && Even(to2) && seed >= 0
    requires Exact(from + from2, to + to2, seed) < TWO31
    ensures 0 <= Diff(from, to, seed) < TWO31
    ensures Diff(from2, to2, Diff(from, to, seed)) == Diff(from + from2, to + to2, seed)
  {
    hide Exact, Sum, Diff, Even, Count;
    EvenConcat(from, from2);
    EvenConcat(to, to2);
    ExactConcat(from, to, from2, to2, seed);
    var first := Exact(from, to, seed);
    assert 0 <= first <= Exact(from2, to2, first) by {
      ExactIs(from, to, seed);
      ExactIs(from2, to2, first);
    }
    DiffExact(from, to, seed);
    DiffExact(from2, to2, first);
    DiffExact(from + from2, to + to2, seed);
  }

  lemma ExactConcat(from: seq<u8>, to: seq<u8>, from2: seq<u8>, to2: seq<u8>, seed: int)
    requires Even(from) && Even(to) && Even(from2) && Even(to2)
    ensures Exact(from + from2, to + to2, seed) == Exact(from2, to2, Exact(from, to, seed))
  {
    hide Exact, Sum, Even, Count;
    SumConcat(to, to2);
    SumConcat(from, from2);
    EvenConcat(from, from2);
    ExactIs(from, to, seed);
    ExactIs(from2, to2, Exact(from, to, seed));
    ExactIs(from + from2, to + to2, seed);
  }

  // ---- Replacing a field of a packet ----

  /** Carries folded back in until 16 bits remain. */
  function Fold(x: nat): nat
    decreases x
  {
    if x <= 65535 then x else Fold(x % 65536 + x / 65536)
  }

  /** Folding keeps the residue modulo 65535, and gives 0 only for 0. */
  lemma {:induction false} FoldIs(x: nat)
    ensures Fold(x) == if x == 0 then 0 else (x - 1) % 65535 + 1
    ensures Fold(x) <= 65535 && Fold(x) <= x
    decreases x
  {
    if x > 65535 {
      var lo, hi := x % 65536, x / 65536;
      FoldIs(lo + hi);
      MultipleVanishes(lo + hi - 1, hi);
      assert x - 1 == lo + hi - 1 + 65535 * hi;
    }
  }

  lemma FoldCongruent(x: nat, y: nat)
    requires x > 0 && y > 0 && x % 65535 == y % 65535
    ensures Fold(x) == Fold(y) > 0
  {
    FoldIs(x);
    FoldIs(y);
    PredecessorMod(x);
    PredecessorMod(y);
  }

  lemma PredecessorMod(x: nat)
    requires x > 0
    ensures (x - 1) % 65535 == if x % 65535 == 0 then 65534 else x % 65535 - 1
  {
  }

  /** The Internet checksum of a packet, its checksum field counted as zero. */
  function InternetChecksum(p: seq<u8>): int
    requires Even(p)
  {
    65535 - Fold(Sum(p))
  }

  /** The update a program makes with the helper: complement, difference, fold, complement. */
  function Updated(checksum: int, from: seq<u8>, to: seq<u8>): int
    requires 0 <= checksum <= 65535 && Diff(from, to, 65535 - checksum) >= 0
  {
    65535 - Fold(Diff(from, to, 65535 - checksum))
  }

  lemma SumOfPacket(pre: seq<u8>, field: seq<u8>, post: seq<u8>)
    requires Even(pre) && Even(field) && Even(post)
    ensures Even(pre + field + post) && Sum(pre + field + post) == Sum(pre) + Sum(field) + Sum(post)
  {
    SumConcat(pre, field);
    SumConcat(pre + field, post);
  }

  lemma ChecksumRange(p: seq<u8>)
    requires Even(p)
    ensures 0 <= InternetChecksum(p) <= 65535
  {
    hide Sum;
    FoldIs(Sum(p));
  }

  /** The sum a field update folds is congruent to the new packet's, and zero only when nothing
      is taken out and the new packet is all zero. */
  lemma UpdateSum(pre: seq<u8>, from: seq<u8>, to: seq<u8>, post: seq<u8>)
    requires Even(pre) && Even(post) && Even(from) && Even(to)
    ensures var x := Exact(from, to, Fold(Sum(pre + from + post))); var y := Sum(pre + to + post);
            && x >= 0 && x % 65535 == y % 65535
            && (x == 0 <==> from == [] && y == 0)
  {
    hide Exact, Sum, Fold, Even, Count;
    SumOfPacket(pre, from, post);
    SumOfPacket(pre, to, post);
    var before := Sum(pre + from + post);
    ExactIs(from, to, Fold(before));
    FoldIs(before);
    FoldResidue(before);
    CountZero(from);
    UpdateArithmetic(Fold(before), Sum(pre) + Sum(post), Sum(from), Sum(to), Count(from));
  }

  lemma CountZero(b: seq<u8>)
    requires Even(b)
    ensures Count(b) == 0 <==> b == []
  {
  }

  lemma FoldResidue(x: nat)
    ensures Fold(x) % 65535 == x % 65535
  {
    FoldIs(x);
    if x > 0 { PredecessorMod(x); }
  }

  lemma UpdateArithmetic(f: nat, rest: nat, from: nat, to: nat, n: nat)
    requires from <= 65535 * n && f % 65535 == (rest + from) % 65535 && (f == 0 <==> rest + from == 0)
    ensures var x := f + to + 65535 * n - from;
            x >= 0 && x % 65535 == (rest + to) % 65535 && (x == 0 <==> n == 0 && rest + to == 0)
  {
    var x := f + to + 65535 * n - from;
    var p, q := f / 65535, (rest + from) / 65535;
    assert x + 65535 * q == rest + to + 65535 * (n + p);
    MultipleVanishes(x, q);
    MultipleVanishes(rest + to, n + p);
  }

  /** Replacing a field: the incremental checksum is that of full recomputation, except exactly
      when something was replaced and the new packet is all zero. */
  lemma IncrementalChecksum(pre: seq<u8>, from: seq<u8>, to: seq<u8>, post: seq<u8>)
    requires Even(pre) && Even(post) && Even(from) && Even(to)
    requires Exact(from, to, Fold(Sum(pre + from + post))) < TWO31
    ensures 0 <= InternetChecksum(pre + from + post) <= 65535
    ensures Diff(from, to, 65535 - InternetChecksum(pre + from + post)) >= 0
    ensures Updated(InternetChecksum(pre + from + post), from, to) == InternetChecksum(pre + to + post)
            <==> from == [] || Sum(pre + to + post) != 0
  {
    hide Exact, Sum, Fold, Diff, Even, Count;
    SumOfPacket(pre, from, post);
    SumOfPacket(pre, to, post);
    ChecksumRange(pre + from + post);
    var seed := Fold(Sum(pre + from + post));
    DiffExact(from, to, seed);
    UpdateSum(pre, from, to, post);
    var x, y := Exact(from, to, seed), Sum(pre + to + post);
    if x > 0 && y > 0 {
      FoldCongruent(x, y);
    } else {
      FoldIs(x);
      FoldIs(y);
    }
  }
}
