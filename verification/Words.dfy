/** Machine words as bounded integers, and their little-endian byte forms. */
module Words {
  const TWO31: int := 0x8000_0000
  const TWO32: int := 0x1_0000_0000
  const TWO63: int := 0x8000_0000_0000_0000
  const TWO64: int := 0x1_0000_0000_0000_0000

  type u8 = x: int | 0 <= x < 256
  type u16 = x: int | 0 <= x < 0x1_0000
  type u32 = x: int | 0 <= x < 0x1_0000_0000
  type i32 = x: int | -0x8000_0000 <= x < 0x8000_0000
  type u64 = x: int | 0 <= x < 0x1_0000_0000_0000_0000
  type i64 = x: int | -0x8000_0000_0000_0000 <= x < 0x8000_0000_0000_0000

  /** Truncation of an exact integer to an unsigned word. */
  function ToU32(x: int): u32 { x % TWO32 }
  function ToU64(x: int): u64 { x % TWO64 }

  /** Truncation of an exact integer to a two's-complement word. */
  function ToI32(x: int): i32 { (x + TWO31) % TWO32 - TWO31 }
  function ToI64(x: int): i64 { (x + TWO63) % TWO64 - TWO63 }

  /** 256 to the power n. */
  function Pow256(n: nat): (p: int)
    ensures p >= 1
  {
    if n == 0 then 1 else 256 * Pow256(n - 1)
  }

  /** The n low bytes of v, least significant first. */
  function Bytes(v: nat, n: nat): (b: seq<u8>)
    ensures |b| == n
    decreases n
  {
    if n == 0 then [] else [v % 256] + Bytes(v / 256, n - 1)
  }

  /** The value of a little-endian byte string. */
  function Value(b: seq<u8>): (v: nat)
    ensures v < Pow256(|b|)
  {
    if b == [] then 0 else b[0] + 256 * Value(b[1..])
  }

  lemma {:induction false} ValueOfBytes(v: nat, n: nat)
    requires v < Pow256(n)
    ensures Value(Bytes(v, n)) == v
    decreases n
  {
    if n > 0 {
      ValueOfBytes(v / 256, n - 1);
      assert Bytes(v, n)[1..] == Bytes(v / 256, n - 1);
    }
  }

  /** Byte k of the little-endian form is v shifted right by 8k, masked to 8 bits. */
  lemma {:induction false} ByteAt(v: nat, n: nat, k: nat)
    requires k < n
    ensures Bytes(v, n)[k] == (v / Pow256(k)) % 256
    decreases n
  {
    if k > 0 {
      ByteAt(v / 256, n - 1, k - 1);
      DivDiv(v, 256, Pow256(k - 1));
    }
  }

  lemma DivDiv(v: nat, a: int, b: int)
    requires a > 0 && b > 0
    ensures a * b > 0
    ensures (v / a) / b == v / (a * b)
  {
    var q, r := v / a, v % a;
    var q', r' := q / b, q % b;
    Regroup(a, b, q', r');
    NonNegative(a, r');
    NonNegative(a, b - 1 - r');
    Distribute(a, r', b - 1 - r', 1);
    assert v == (a * b) * q' + (a * r' + r);
    assert a * r' + r < a * b;
    QuotientUnique(v, a * b, q', a * r' + r);
  }

  lemma Regroup(a: int, b: int, q: int, r: int)
    ensures a * (b * q + r) == (a * b) * q + a * r
  {
  }

  lemma QuotientUnique(v: int, d: int, q: int, r: int)
    requires d > 0 && 0 <= r < d && v == d * q + r
    ensures v / d == q && v % d == r
  {
    var q2, r2 := v / d, v % d;
    assert v == d * q2 + r2;
    if q > q2 {
      LargerQuotient(d, q, r, q2, r2);
    } else if q2 > q {
      LargerQuotient(d, q2, r2, q, r);
    }
  }

  lemma LargerQuotient(d: int, q: int, r: int, q2: int, r2: int)
    requires 0 <= r < d && 0 <= r2 < d
    requires q > q2
    ensures d * q + r > d * q2 + r2
  {
    var k := q - q2 - 1;
    Distribute(d, q2, k, 1);
    NonNegative(d, k);
  }

  lemma Distribute(d: int, a: int, b: int, c: int)
    ensures d * (a + b + c) == d * a + d * b + d * c
  {
  }

  lemma NonNegative(a: int, b: int)
    requires a >= 0 && b >= 0
    ensures a * b >= 0
  {
  }
}
