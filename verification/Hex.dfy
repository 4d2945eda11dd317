/** Text forms of byte buffers and table indices. */
module Hex {
  import opened Words

  function Digit(v: nat): char
    requires v < 16
  {
    "0123456789abcdef"[v]
  }

  /** The value of a hexadecimal digit in either case, or -1. */
  function DigitValue(c: char): (v: int)
    ensures -1 <= v < 16
  {
    if '0' <= c <= '9' then c as int - '0' as int
    else if 'a' <= c <= 'f' then c as int - 'a' as int + 10
    else if 'A' <= c <= 'F' then c as int - 'A' as int + 10
    else -1
  }

  lemma DigitInverse(v: nat)
    requires v < 16
    ensures DigitValue(Digit(v)) == v
  {
  }

  /** The text of a buffer: two digits a byte, high digit first. */
  function HexOf(b: seq<u8>): (s: string)
    ensures |s| == 2 * |b|
    ensures forall i :: 0 <= i < |b| ==> s[2 * i] == Digit(b[i] / 16) && s[2 * i + 1] == Digit(b[i] % 16)
  {
    if b == [] then ""
    else
      var n := |b| - 1;
      var h := HexOf(b[..n]);
      assert forall i :: 0 <= i < n ==> b[..n][i] == b[i];
      h + [Digit(b[n] / 16), Digit(b[n] % 16)]
  }

  method BufferToHex(buffer: seq<u8>) returns (s: string)
    ensures s == HexOf(buffer)
  {
    s := "";
    for i := 0 to |buffer|
      invariant s == HexOf(buffer[..i])
    {
      assert buffer[..i + 1][..i] == buffer[..i];
      s := s + [Digit(buffer[i] / 16), Digit(buffer[i] % 16)];
    }
    assert buffer[..|buffer|] == buffer;
  }

  datatype Parsed = Ok(bytes: seq<u8>) | BadLength | Threw

  predicate Blank(c: char) { c == ' ' || ('\t' <= c <= '\r') }

  /** What std::stoi in base 16 makes of two characters, cast to a byte; -1 when it throws. */
  function PairValue(a: char, b: char): (v: int)
    ensures -1 <= v < 256
  {
    var x, y := DigitValue(a), DigitValue(b);
    if x >= 0 && y >= 0 then 16 * x + y
    else if x >= 0 then x
    else if (Blank(a) || a == '+') && y >= 0 then y
    else if a == '-' && y >= 0 then (256 - y) % 256
    else -1
  }

  predicate PairsOk(s: string, n: nat)
    requires 2 * n <= |s|
  {
    forall i :: 0 <= i < n ==> PairValue(s[2 * i], s[2 * i + 1]) >= 0
  }

  function PairBytes(s: string, n: nat): (b: seq<u8>)
    requires 2 * n <= |s| && PairsOk(s, n)
    ensures |b| == n
    ensures forall i :: 0 <= i < n ==> b[i] == PairValue(s[2 * i], s[2 * i + 1])
  {
    if n == 0 then [] else PairBytes(s, n - 1) + [PairValue(s[2 * (n - 1)], s[2 * (n - 1) + 1])]
  }

  /** What the parser makes of a text for a buffer of the given size. */
  function Unhex(s: string, size: nat): Parsed {
    if |s| != 2 * size then BadLength
    else if PairsOk(s, size) then Ok(PairBytes(s, size))
    else Threw
  }

  method HexToBuffer(s: string, buffer: array<u8>) returns (r: Parsed)
    modifies buffer
    ensures r == Unhex(s, buffer.Length)
    ensures r.Ok? ==> buffer[..] == r.bytes
    ensures r.BadLength? ==> buffer[..] == old(buffer[..])
  {
    if |s| != buffer.Length * 2 { return BadLength; }
    for i := 0 to buffer.Length
      invariant PairsOk(s, i) && buffer[..i] == PairBytes(s, i)
      invariant i == 0 ==> buffer[..] == old(buffer[..])
    {
      var v := PairValue(s[2 * i], s[2 * i + 1]);
      if v < 0 { return Threw; }
      buffer[i] := v;
      assert buffer[..i + 1] == buffer[..i] + [v];
    }
    assert buffer[..buffer.Length] == buffer[..];
    return Ok(buffer[..]);
  }

  /** Every buffer survives the trip through its text. */
  lemma HexRoundTrip(b: seq<u8>)
    ensures Unhex(HexOf(b), |b|) == Ok(b)
  {
    hide Digit, DigitValue;
    var s := HexOf(b);
    forall i | 0 <= i < |b| ensures PairValue(s[2 * i], s[2 * i + 1]) == b[i] {
      DigitInverse(b[i] / 16);
      DigitInverse(b[i] % 16);
    }
    assert PairsOk(s, |b|);
    assert PairBytes(s, |b|) == b;
  }

  // ---- Decimal keys ----

  function Decimal(n: nat): (s: string)
    ensures |s| > 0
  {
    if n < 10 then [Digit(n)] else Decimal(n / 10) + [Digit(n % 10)]
  }

  predicate IsDecimal(s: string) { |s| > 0 && forall i :: 0 <= i < |s| ==> '0' <= s[i] <= '9' }

  function DecimalValue(s: string): nat
    requires IsDecimal(s)
    decreases |s|
  {
    var last := s[|s| - 1] as int - '0' as int;
    if |s| == 1 then last else 10 * DecimalValue(s[..|s| - 1]) + last
  }

  lemma {:induction false} DecimalRoundTrip(n: nat)
    ensures IsDecimal(Decimal(n)) && DecimalValue(Decimal(n)) == n
  {
    if n >= 10 {
      DecimalRoundTrip(n / 10);
      var s := Decimal(n);
      assert s[..|s| - 1] == Decimal(n / 10);
    }
  }

  /** The order in which a JSON object visits its keys. */
  predicate Before(a: string, b: string)
    decreases |a|
  {
    if b == "" then false
    else if a == "" then true
    else if a[0] != b[0] then a[0] < b[0]
    else Before(a[1..], b[1..])
  }

  lemma {:induction false} BeforeAsymmetric(a: string, b: string)
    requires Before(a, b)
    ensures !Before(b, a)
    decreases |a|
  {
    if a != "" && a[0] == b[0] { BeforeAsymmetric(a[1..], b[1..]); }
  }

  lemma {:induction false} NotBeforeItself(a: string)
    ensures !Before(a, a)
    decreases |a|
  {
    if a != "" { NotBeforeItself(a[1..]); }
  }
}
