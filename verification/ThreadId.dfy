/** The global thread number of a GPU thread. */
module ThreadId {
  import opened Words

  /** A triple of sizes or positions, as in a launch's dim3 values. */
  datatype Dim = Dim(x: nat, y: nat, z: nat)

  /** A launch has `grid` blocks of `block` threads each. */
  datatype Launch = Launch(grid: Dim, block: Dim) {
    function Width(): nat { grid.x * block.x }
    function Height(): nat { grid.y * block.y }
    function Depth(): nat { grid.z * block.z }
    function Total(): nat { Width() * Height() * Depth() }
  }

  /** A thread is named by its block and its position in the block. */
  datatype Thread = Thread(block: Dim, pos: Dim)

  predicate InLaunch(l: Launch, t: Thread) {
    && t.block.x < l.grid.x && t.block.y < l.grid.y && t.block.z < l.grid.z
    && t.pos.x < l.block.x && t.pos.y < l.block.y && t.pos.z < l.block.z
  }

  /** Exact position along each axis of the whole grid. */
  function X(l: Launch, t: Thread): nat { t.block.x * l.block.x + t.pos.x }
  function Y(l: Launch, t: Thread): nat { t.block.y * l.block.y + t.pos.y }
  function Z(l: Launch, t: Thread): nat { t.block.z * l.block.z + t.pos.z }

  /** The row-major number those positions make. */
  function Number(l: Launch, t: Thread): nat {
    X(l, t) + l.Width() * Y(l, t) + l.Width() * l.Height() * Z(l, t)
  }

  /** The trampoline's arithmetic: 32-bit products truncated and read as signed, one widening
      product of the two plane extents, 64-bit truncation of the rest. */
  function MachineNumber(l: Launch, t: Thread): i64 {
    NumberOf(ToI32(t.block.x * l.block.x + t.pos.x), ToI32(t.block.y * l.block.y + t.pos.y),
             ToI32(t.block.z * l.block.z + t.pos.z), ToI32(l.grid.x * l.block.x), ToI32(l.grid.y * l.block.y))
  }

  function NumberOf(r4: i32, r8: i32, r12: i32, r14: i32, r16: i32): i64 {
    var rd3 := ToI64(r16 * r14 * r12);
    var r17 := ToI32(r8 * r14);
    ToI64(ToI64(r17 + r4) + rd3)
  }

  /** Each extent fits 31 bits and the total 63 bits. */
  predicate Bounded(l: Launch) {
    l.Width() < TWO31 && l.Height() < TWO31 && l.Depth() < TWO31 && l.Total() <= TWO63
  }

  /** The last row of a layer starts below 2^31. */
  predicate RowsFit(l: Launch) { l.Width() * (l.Height() - 1) < TWO31 }

  predicate Fits(l: Launch) { Bounded(l) && RowsFit(l) }

  lemma MulMono(a: nat, b: nat, c: nat)
    requires a <= b
    ensures a * c <= b * c
  {
    NonNegative(b - a, c);
    assert b * c == a * c + (b - a) * c;
  }

  /** A high and a low digit stay below the product of their radices. */
  lemma DigitPair(hi: nat, lo: nat, n: nat, radix: nat)
    requires hi < n && lo < radix
    ensures hi * radix + lo < n * radix
  {
    MulMono(hi + 1, n, radix);
  }

  lemma AxesInRange(l: Launch, t: Thread)
    requires InLaunch(l, t)
    ensures X(l, t) < l.Width() && Y(l, t) < l.Height() && Z(l, t) < l.Depth()
  {
    DigitPair(t.block.x, t.pos.x, l.grid.x, l.block.x);
    DigitPair(t.block.y, t.pos.y, l.grid.y, l.block.y);
    DigitPair(t.block.z, t.pos.z, l.grid.z, l.block.z);
  }

  lemma LayersInRange(x: nat, y: nat, z: nat, w: nat, h: nat, d: nat)
    requires x < w && y < h && z < d
    ensures x + w * y < w * h
    ensures x + w * y + w * h * z < w * h * d
  {
    DigitPair(y, x, h, w);
    DigitPair(z, x + w * y, d, w * h);
  }

  lemma NumberInRange(l: Launch, t: Thread)
    requires InLaunch(l, t)
    ensures Number(l, t) < l.Total()
  {
    AxesInRange(l, t);
    LayersInRange(X(l, t), Y(l, t), Z(l, t), l.Width(), l.Height(), l.Depth());
  }

  /** Within the limits the machine computes the exact number. */
  lemma MachineNumberExact(l: Launch, t: Thread)
    requires InLaunch(l, t) && Fits(l)
    ensures MachineNumber(l, t) == Number(l, t)
  {
    hide ToI32, NumberOf;
    var w, h := l.Width(), l.Height();
    var x, y, z := X(l, t), Y(l, t), Z(l, t);
    AxesInRange(l, t);
    LayersInRange(x, y, z, w, h, l.Depth());
    MulMono(y, h - 1, w);
    NumberOfSmall(x, y, z, w, h);
  }

  lemma NumberOfSmall(x: nat, y: nat, z: nat, w: nat, h: nat)
    requires x < TWO31 && y < TWO31 && z < TWO31 && w < TWO31 && h < TWO31
    requires w * y < TWO31 && x + w * y + w * h * z < TWO63
    ensures NumberOf(ToI32(x), ToI32(y), ToI32(z), ToI32(w), ToI32(h)) == x + w * y + w * h * z
  {
    hide ToI32, ToI64;
    NonNegative(w, y);
    NonNegative(w * h, z);
    Truncations(x, y, z, w, h, w * y, w * h * z);
    assert h * w * z == w * h * z && y * w == w * y;
  }

  lemma Truncations(x: nat, y: nat, z: nat, w: nat, h: nat, a: nat, b: nat)
    requires x < TWO31 && y < TWO31 && z < TWO31 && w < TWO31 && h < TWO31
    requires a < TWO31 && a + x < TWO63 && a + x + b < TWO63
    ensures ToI32(x) == x && ToI32(y) == y && ToI32(z) == z && ToI32(w) == w && ToI32(h) == h
    ensures ToI32(a) == a && ToI64(b) == b
    ensures ToI64(ToI64(a + x) + b) == x + a + b
  {
  }

  function Quot(v: nat, d: nat): nat requires d > 0 { v / d }
  function Rem(v: nat, d: nat): nat requires d > 0 { v % d }

  /** The thread at a given position of the grid. */
  function At(l: Launch, x: nat, y: nat, z: nat): Thread
    requires l.block.x > 0 && l.block.y > 0 && l.block.z > 0
  {
    Thread(Dim(Quot(x, l.block.x), Quot(y, l.block.y), Quot(z, l.block.z)),
           Dim(Rem(x, l.block.x), Rem(y, l.block.y), Rem(z, l.block.z)))
  }

  /** The thread with a given number. */
  function Locate(l: Launch, i: nat): Thread
    requires i < l.Total()
  {
    TotalPositive(l, i);
    var row := Quot(i, l.Width());
    At(l, Rem(i, l.Width()), Rem(row, l.Height()), Quot(row, l.Height()))
  }

  lemma TotalPositive(l: Launch, i: nat)
    requires i < l.Total()
    ensures l.Width() > 0 && l.Height() > 0
    ensures l.block.x > 0 && l.block.y > 0 && l.block.z > 0
  {
  }

  lemma Quotient(v: nat, d: nat, n: nat)
    requires d > 0 && v < n * d
    ensures 0 <= v / d < n
    ensures v / d * d + v % d == v
  {
    if v / d >= n { MulMono(n, v / d, d); }
  }

  /** Every number below the total is the number of exactly one thread of the launch. */
  lemma LocateInverse(l: Launch, i: nat)
    requires i < l.Total()
    ensures InLaunch(l, Locate(l, i))
    ensures Number(l, Locate(l, i)) == i
  {
    hide At, X, Y, Z;
    TotalPositive(l, i);
    var w, h, d := l.Width(), l.Height(), l.Depth();
    var j := Quot(i, w);
    Associate(w, d, h);
    Quotient(i, w, h * d);
    Quotient(j, h, d);
    AtInLaunch(l, Rem(i, w), Rem(j, h), Quot(j, h));
    Horner(Rem(i, w), Rem(j, h), Quot(j, h), w, h);
  }

  lemma Recover(q: nat, r: nat, d: nat)
    requires r < d
    ensures (q * d + r) / d == q && (q * d + r) % d == r
  {
    QuotientUnique(q * d + r, d, q, r);
  }

  lemma NumberInverse(l: Launch, t: Thread)
    requires InLaunch(l, t)
    ensures Number(l, t) < l.Total()
    ensures Locate(l, Number(l, t)) == t
  {
    hide At, X, Y, Z, Quot, Rem;
    NumberInRange(l, t);
    AxesInRange(l, t);
    Digits(X(l, t), Y(l, t), Z(l, t), l.Width(), l.Height(), Number(l, t));
    AtInverse(l, t);
  }

  /** A number in mixed radix gives back its digits. */
  lemma Digits(x: nat, y: nat, z: nat, w: nat, h: nat, i: nat)
    requires x < w && y < h && i == x + w * y + w * h * z
    ensures Rem(i, w) == x && Rem(Quot(i, w), h) == y && Quot(Quot(i, w), h) == z
  {
    Horner(x, y, z, w, h);
    Recover(z * h + y, x, w);
    Recover(z, y, h);
  }

  lemma Horner(x: nat, y: nat, z: nat, w: nat, h: nat)
    ensures x + w * y + w * h * z == (z * h + y) * w + x
  {
    Associate(w, h, z);
    Distribute(w, z * h, y, 0);
  }

  lemma Associate(w: nat, h: nat, z: nat)
    ensures w * h * z == w * (z * h)
  {
  }

  lemma AtInverse(l: Launch, t: Thread)
    requires InLaunch(l, t)
    ensures At(l, X(l, t), Y(l, t), Z(l, t)) == t
  {
    Recover(t.block.x, t.pos.x, l.block.x);
    Recover(t.block.y, t.pos.y, l.block.y);
    Recover(t.block.z, t.pos.z, l.block.z);
  }

  /** The trampoline numbers the threads of a launch that fits one to one onto [0, total). */
  lemma MachineNumberBijective(l: Launch)
    requires Fits(l)
    ensures forall t :: InLaunch(l, t) ==> 0 <= MachineNumber(l, t) < l.Total()
    ensures forall s, t :: InLaunch(l, s) && InLaunch(l, t) && MachineNumber(l, s) == MachineNumber(l, t) ==> s == t
    ensures forall i: nat :: i < l.Total() ==> InLaunch(l, Locate(l, i)) && MachineNumber(l, Locate(l, i)) == i
  {
    hide MachineNumber, Locate, InLaunch, Fits;
    forall t | InLaunch(l, t)
      ensures 0 <= MachineNumber(l, t) < l.Total() && Locate(l, MachineNumber(l, t)) == t
    {
      MachineNumberExact(l, t);
      NumberInverse(l, t);
    }
    forall i: nat | i < l.Total()
      ensures InLaunch(l, Locate(l, i)) && MachineNumber(l, Locate(l, i)) == i
    {
      LocateInverse(l, i);
      MachineNumberExact(l, Locate(l, i));
    }
  }

  // ---- The limit on rows is exact ----

  /** The first row that starts at or above 2^31 is numbered from a negative number on. */
  lemma HighRow(l: Launch) returns (t: Thread)
    requires Bounded(l) && l.Total() > 0 && !RowsFit(l)
    ensures InLaunch(l, t) && MachineNumber(l, t) < 0
  {
    hide ToI32, ToI64;
    TotalPositive(l, 0);
    var w := l.Width();
    var y := FirstHigh(w, l.Height());
    t := At(l, 0, y, 0);
    AtInLaunch(l, 0, y, 0);
    FirstColumn(y, w, l.Height());
  }

  lemma FirstHigh(w: nat, h: nat) returns (y: nat)
    requires 0 < w < TWO31 && h > 0 && w * (h - 1) >= TWO31
    ensures y < h && TWO31 <= y * w < TWO32
  {
    y := (TWO31 + w - 1) / w;
    assert y * w + (TWO31 + w - 1) % w == TWO31 + w - 1;
    if y >= h { MulMono(h, y, w); }
  }

  lemma AtInLaunch(l: Launch, x: nat, y: nat, z: nat)
    requires x < l.Width() && y < l.Height() && z < l.Depth()
    ensures l.block.x > 0 && l.block.y > 0 && l.block.z > 0
    ensures InLaunch(l, At(l, x, y, z))
    ensures X(l, At(l, x, y, z)) == x && Y(l, At(l, x, y, z)) == y && Z(l, At(l, x, y, z)) == z
  {
    Quotient(x, l.block.x, l.grid.x);
    Quotient(y, l.block.y, l.grid.y);
    Quotient(z, l.block.z, l.grid.z);
  }

  /** In column 0 of the first layer the number is the truncated product of row and width. */
  lemma FirstColumn(y: nat, w: nat, h: nat)
    requires y < TWO31 && w < TWO31 && h < TWO31 && TWO31 <= y * w < TWO32
    ensures NumberOf(ToI32(0), ToI32(y), ToI32(0), ToI32(w), ToI32(h)) < 0
  {
    Small(0);
    Small(y);
    Small(w);
    Small(h);
    assert h * w * 0 == 0;
    NegativeWord(y * w);
  }

  lemma Small(v: nat)
    requires v < TWO31
    ensures ToI32(v) == v
  {
  }

  lemma NegativeWord(a: int)
    requires TWO31 <= a < TWO32
    ensures ToI32(a) == a - TWO32 && ToI64(ToI64(ToI32(a) + 0) + ToI64(0)) == a - TWO32
  {
  }

  /** For a launch that is not empty and has bounded extents: every thread gets its exact number, and
      likewise all numbers lie in [0, total), if and only if the last row of a layer starts below 2^31. */
  lemma ExactIffRowsFit(l: Launch)
    requires Bounded(l) && l.Total() > 0
    ensures (forall t :: InLaunch(l, t) ==> MachineNumber(l, t) == Number(l, t)) <==> RowsFit(l)
    ensures (forall t :: InLaunch(l, t) ==> 0 <= MachineNumber(l, t) < l.Total()) <==> RowsFit(l)
  {
    hide MachineNumber, InLaunch, RowsFit, Number;
    if RowsFit(l) {
      forall t | InLaunch(l, t) ensures 0 <= MachineNumber(l, t) == Number(l, t) < l.Total() {
        MachineNumberExact(l, t);
        NumberInRange(l, t);
      }
    } else {
      var t := HighRow(l);
    }
  }
}
