/** The per-thread GPU ring buffer: one producing GPU thread, one draining host. */
module RingBuffer {
  import opened Words
  import opened ThreadId

  // ---- Layout of the shared region ----

  const HEADER: nat := 24

  /** Page size, one thread's share, and the address of byte j of a page. */
  datatype Layout = Layout(base: nat, valueSize: nat, entries: nat, threads: nat) {
    function PageSize(): nat { valueSize + 8 }
    function Share(): nat { PageSize() * entries + HEADER }
    function Header(t: nat): nat { base + t * Share() }
    function Byte(t: nat, slot: nat, j: nat): nat { Header(t) + HEADER + slot * PageSize() + j }
  }

  lemma ByteInShare(l: Layout, t: nat, slot: nat, j: nat)
    requires slot < l.entries && j < l.PageSize()
    ensures l.Header(t) + HEADER <= l.Byte(t, slot, j) < l.Header(t) + l.Share()
  {
    DigitPair(slot, j, l.entries, l.PageSize());
  }

  lemma SharesApart(l: Layout, t: nat, t': nat)
    requires t < t'
    ensures l.Header(t) + l.Share() <= l.Header(t')
  {
    MulMono(t + 1, t', l.Share());
  }

  /** Different page bytes of any threads have different addresses, none of them in any header,
      all of them in the buffer the host allocated. */
  lemma LayoutDisjoint(l: Layout, t: nat, slot: nat, j: nat, t': nat, slot': nat, j': nat)
    requires t < l.threads && slot < l.entries && j < l.PageSize()
    requires t' < l.threads && slot' < l.entries && j' < l.PageSize()
    ensures l.Byte(t, slot, j) == l.Byte(t', slot', j') ==> t == t' && slot == slot' && j == j'
    ensures !(l.Header(t') <= l.Byte(t, slot, j) < l.Header(t') + HEADER)
    ensures l.base <= l.Byte(t, slot, j) < l.base + l.Share() * l.threads
  {
    hide Layout.Share;
    ByteInShare(l, t, slot, j);
    ByteInShare(l, t', slot', j');
    SharesApart(l, t, l.threads);
    NonNegative(t, l.Share());
    if t < t' {
      SharesApart(l, t, t');
    } else if t' < t {
      SharesApart(l, t', t);
    } else if l.Byte(t, slot, j) == l.Byte(t', slot', j') {
      Recover(slot, j, l.PageSize());
      Recover(slot', j', l.PageSize());
    }
  }

  /** The slot of an index: a 32-bit remainder when both operands fit 32 bits. */
  function MachineRem(index: u64, n: i32): u64
    requires n >= 1
  {
    if index >= TWO32 then index % n else ToU32(index) % ToU32(n)
  }

  lemma MachineRemExact(index: u64, n: i32)
    requires n >= 1
    ensures MachineRem(index, n) == index % n
  {
  }

  // ---- One thread's ring ----

  datatype Config = Config(n: nat, valueSize: nat)

  type Page = seq<u8>

  /** What a reader of a page gets: as many data bytes as its size word says. */
  function Entry(p: Page): seq<u8>
    requires |p| >= 8
  {
    var size := Value(p[..8]);
    if 8 + size <= |p| then p[8..8 + size] else p[8..]
  }

  function SizeWritten(p: Page, size: nat): (r: Page)
    requires |p| >= 8
    ensures |r| == |p|
  {
    Bytes(size, 8) + p[8..]
  }

  function ByteWritten(p: Page, at: nat, b: u8): (r: Page)
    requires at < |p|
    ensures |r| == |p|
  {
    p[at := b]
  }

  datatype Producer =
    | Idle(last: u64)
    | SawTail(data: seq<u8>, seen: nat)
    | Passed(data: seq<u8>)
    | Marked(data: seq<u8>)
    | Reserved(data: seq<u8>, index: nat)
    | Copying(data: seq<u8>, index: nat, done: nat)

  /** The drain between its tests, having claimed an index, or having read the size word and some of the
      bytes.  History: whether the page was settled at every read so far, and whether every read could
      give what was output, by `SizeRight` and `ByteRight`. */
  datatype Consumer =
    | Watching
    | Clean
    | Claimed(index: nat)
    | Reading(index: nat, size: nat, data: seq<u8>, undisturbed: bool, right: bool)

  datatype Delivery = Delivery(index: nat, data: seq<u8>, undisturbed: bool, right: bool)

  datatype State = State(
    head: nat, tail: nat, dirty: bool, pages: seq<Page>,
    producer: Producer, consumer: Consumer,
    sent: seq<seq<u8>>, got: seq<Delivery>)

  datatype Action = Output(data: seq<u8>) | ProducerStep | ConsumerStep

  function Zero(c: Config): (p: Page)
    ensures |p| == c.valueSize + 8
    ensures forall k :: 0 <= k < |p| ==> p[k] == 0
  {
    seq(c.valueSize + 8, _ => 0)
  }

  function Init(c: Config): (s: State)
    ensures c.n >= 1 && c.valueSize < TWO31 ==> Inv(c, s)
  {
    State(0, 0, false, seq(c.n, _ => Zero(c)), Idle(0), Watching, [], [])
  }

  predicate Fitting(c: Config, sent: seq<seq<u8>>) { forall j :: 0 <= j < |sent| ==> |sent[j]| <= c.valueSize }

  predicate Shape(c: Config, s: State) {
    && c.n >= 1 && c.valueSize < TWO31
    && |s.pages| == c.n && (forall k :: 0 <= k < c.n ==> |s.pages[k]| == c.valueSize + 8)
    && |s.sent| == s.tail && s.head <= s.tail <= s.head + c.n && Fitting(c, s.sent)
    && (s.producer.Idle? || |s.producer.data| <= c.valueSize)
  }

  /** Payloads fit a page; a helper call starts only when the previous one returned. */
  predicate Legal(c: Config, s: State, a: Action) {
    a.Output? ==> s.producer.Idle? && |a.data| <= c.valueSize
  }

  function PageOf(c: Config, s: State, i: nat): Page
    requires Shape(c, s)
  {
    s.pages[i % c.n]
  }

  function Produce(c: Config, s: State): State
    requires Shape(c, s)
  {
    match s.producer
    case Idle(_) => s
    case SawTail(d, t) =>
      if t - s.head == c.n then s.(producer := Idle(2)) else s.(producer := Passed(d))
    case Passed(d) => s.(dirty := true, producer := Marked(d))
    case Marked(d) => s.(tail := s.tail + 1, sent := s.sent + [d], producer := Reserved(d, s.tail))
    case Reserved(d, i) =>
      s.(pages := s.pages[i % c.n := SizeWritten(PageOf(c, s, i), |d|)], producer := Copying(d, i, 0))
    case Copying(d, i, k) =>
      if k < |d| then
        s.(pages := s.pages[i % c.n := ByteWritten(PageOf(c, s, i), 8 + k, d[k])], producer := Copying(d, i, k + 1))
      else s.(dirty := false, producer := Idle(0))
  }

  predicate InProgress(p: Producer, i: int) { (p.Reserved? || p.Copying?) && p.index == i }

  /** The page of index i is neither under construction nor handed on to index i + n. */
  predicate Settled(c: Config, s: State, i: nat) { s.tail <= i + c.n && !InProgress(s.producer, i) }

  function Consume(c: Config, s: State): State
    requires Shape(c, s)
  {
    match s.consumer
    case Watching => if s.dirty then s else s.(consumer := Clean)
    case Clean =>
      if s.head == s.tail then s.(consumer := Watching)
      else s.(head := s.head + 1, consumer := Claimed(s.head))
    case Claimed(i) =>
      s.(consumer := Reading(i, Value(PageOf(c, s, i)[..8]), [], Settled(c, s, i), SizeRight(c, s, i)))
    case Reading(i, n, data, u, r) =>
      var k := |data|;
      if k < n && 8 + k < |PageOf(c, s, i)| then
        s.(consumer := Reading(i, n, data + [PageOf(c, s, i)[8 + k]],
                               u && Settled(c, s, i), r && ByteRight(c, s, i, k)))
      else s.(consumer := Watching, got := s.got + [Delivery(i, data, u, r)])
  }

  function Apply(c: Config, s: State, a: Action): State
    requires Shape(c, s)
  {
    match a
    case Output(d) => s.(producer := SawTail(d, s.tail))
    case ProducerStep => Produce(c, s)
    case ConsumerStep => Consume(c, s)
  }

  // ---- What the pages hold ----

  /** A page after the size word and the first k bytes of payload d were written over p. */
  function Overlay(p: Page, d: seq<u8>, k: nat): (r: Page)
    requires k <= |d| && 8 + |d| <= |p|
    ensures |r| == |p|
  {
    Bytes(|d|, 8) + d[..k] + p[8 + k..]
  }

  /** The page of index j once its output is finished: every payload that ever had the page lies on
      top of the one n outputs before. */
  function Content(c: Config, sent: seq<seq<u8>>, j: int): (p: Page)
    requires c.n >= 1 && j < |sent| && Fitting(c, sent)
    ensures |p| == c.valueSize + 8
    decreases if j < 0 then 0 else j + 1
  {
    if j < 0 then Zero(c) else Overlay(Content(c, sent, j - c.n), sent[j], |sent[j]|)
  }

  /** The page of index j as the producer has left it so far. */
  function Tenant(c: Config, sent: seq<seq<u8>>, p: Producer, j: int): Page
    requires c.n >= 1 && j < |sent| && Fitting(c, sent)
  {
    if p.Reserved? && p.index == j then Content(c, sent, j - c.n)
    else if p.Copying? && p.index == j && p.done <= |p.data| <= c.valueSize then
      Overlay(Content(c, sent, j - c.n), p.data, p.done)
    else Content(c, sent, j)
  }

  // ---- When a single read is right ----

  /** What the page of index i held before its output. */
  function Predecessor(c: Config, sent: seq<seq<u8>>, i: nat): seq<u8>
    requires c.n >= 1 && i < |sent|
  {
    if i < c.n then [] else sent[i - c.n]
  }

  /** The size word on the page of index i is that of output i, in terms of the outputs and of how far the
      producer is: the page not yet written held an equally long payload before, or one reusing the page
      is equally long. */
  predicate SizeRight(c: Config, s: State, i: nat)
    requires Shape(c, s)
  {
    var p, next := s.producer, i + c.n;
    && i < s.tail
    && if p.Reserved? && p.index == i then |Predecessor(c, s.sent, i)| == |s.sent[i]|
       else if InProgress(p, i) || s.tail <= next || (p.Reserved? && p.index == next) then true
       else |s.sent[next]| == |s.sent[i]|
  }

  /** Byte k of the payload on the page of index i is that of output i: copied already or equal before, and
      not overwritten by another byte since. */
  predicate ByteRight(c: Config, s: State, i: nat, k: nat)
    requires Shape(c, s)
  {
    var p, next := s.producer, i + c.n;
    && i < s.tail && k < |s.sent[i]|
    && if InProgress(p, i) then (p.Copying? && k < p.done) || Content(c, s.sent, i - c.n)[8 + k] == s.sent[i][k]
       else if s.tail <= next || (p.Reserved? && p.index == next) then true
       else if p.Copying? && p.index == next then k < p.done && k < |p.data| ==> p.data[k] == s.sent[i][k]
       else k < |s.sent[next]| ==> s.sent[next][k] == s.sent[i][k]
  }

  lemma {:induction false} ContentStable(c: Config, sent: seq<seq<u8>>, d: seq<u8>, j: int)
    requires c.n >= 1 && j < |sent| && Fitting(c, sent) && |d| <= c.valueSize
    ensures Fitting(c, sent + [d]) && Content(c, sent + [d], j) == Content(c, sent, j)
    decreases if j < 0 then 0 else j + 1
  {
    if j >= 0 { ContentStable(c, sent, d, j - c.n); }
  }

  lemma OverlayEntry(p: Page, d: seq<u8>, k: nat)
    requires k <= |d| && 8 + |d| <= |p| && |d| < TWO31
    ensures Entry(Overlay(p, d, k)) == d[..k] + p[8 + k..8 + |d|]
  {
    hide Entry, Value, Bytes;
    var r := Overlay(p, d, k);
    assert Pow256(8) == TWO64;
    ValueOfBytes(|d|, 8);
    assert r[..8] == Bytes(|d|, 8);
    EntryIs(r, |d|);
    OverlayData(p, d, k);
  }

  lemma EntryIs(p: Page, n: nat)
    requires |p| >= 8 + n && Value(p[..8]) == n
    ensures Entry(p) == p[8..8 + n]
  {
  }

  lemma OverlayData(p: Page, d: seq<u8>, k: nat)
    requires k <= |d| && 8 + |d| <= |p|
    ensures Overlay(p, d, k)[8..8 + |d|] == d[..k] + p[8 + k..8 + |d|]
  {
    hide Bytes;
  }

  lemma ContentEntry(c: Config, sent: seq<seq<u8>>, j: nat)
    requires c.n >= 1 && c.valueSize < TWO31 && j < |sent| && Fitting(c, sent)
    ensures Entry(Content(c, sent, j)) == sent[j]
  {
    hide Entry, Overlay;
    var d := sent[j];
    OverlayEntry(Content(c, sent, j - c.n), d, |d|);
  }

  lemma OverlaySize(p: Page, d: seq<u8>, k: nat)
    requires k <= |d| && 8 + |d| <= |p| && |d| < TWO31
    ensures Value(Overlay(p, d, k)[..8]) == |d|
  {
    hide Value, Bytes;
    assert Pow256(8) == TWO64;
    ValueOfBytes(|d|, 8);
    assert Overlay(p, d, k)[..8] == Bytes(|d|, 8);
  }

  lemma OverlayByte(p: Page, d: seq<u8>, k: nat, b: nat)
    requires k <= |d| && 8 + |d| <= |p| && 8 + b < |p|
    ensures Overlay(p, d, k)[8 + b] == if b < k then d[b] else p[8 + b]
  {
    hide Bytes;
  }

  /** The size word of a finished page, or of one never used. */
  lemma ContentSize(c: Config, sent: seq<seq<u8>>, j: int)
    requires c.n >= 1 && c.valueSize < TWO31 && j < |sent| && Fitting(c, sent)
    ensures Value(Content(c, sent, j)[..8]) == if j < 0 then 0 else |sent[j]|
  {
    hide Overlay, Value;
    if j < 0 { Zeros(Zero(c)[..8]); } else { OverlaySize(Content(c, sent, j - c.n), sent[j], |sent[j]|); }
  }

  lemma ContentByte(c: Config, sent: seq<seq<u8>>, j: nat, k: nat)
    requires c.n >= 1 && j < |sent| && Fitting(c, sent) && k < c.valueSize
    ensures Content(c, sent, j)[8 + k] == if k < |sent[j]| then sent[j][k] else Content(c, sent, j - c.n)[8 + k]
  {
    hide Overlay;
    OverlayByte(Content(c, sent, j - c.n), sent[j], |sent[j]|, k);
  }

  lemma {:induction false} Zeros(z: seq<u8>)
    requires forall i :: 0 <= i < |z| ==> z[i] == 0
    ensures Value(z) == 0
  {
    if z != [] { Zeros(z[1..]); }
  }

  lemma SizeStep(p: Page, d: seq<u8>)
    requires 8 + |d| <= |p|
    ensures SizeWritten(p, |d|) == Overlay(p, d, 0)
  {
  }

  lemma ByteStep(p: Page, d: seq<u8>, k: nat)
    requires k < |d| && 8 + |d| <= |p|
    ensures ByteWritten(Overlay(p, d, k), 8 + k, d[k]) == Overlay(p, d, k + 1)
  {
  }

  // ---- The invariant ----

  predicate ProducerOk(c: Config, s: State)
    requires Shape(c, s)
  {
    match s.producer
    case Idle(_) => !s.dirty
    case SawTail(d, t) => !s.dirty && t == s.tail
    case Passed(d) => !s.dirty && s.tail < s.head + c.n
    case Marked(d) => s.dirty && s.tail < s.head + c.n
    case Reserved(d, i) => s.dirty && i + 1 == s.tail && s.sent[i] == d
    case Copying(d, i, k) => s.dirty && i + 1 == s.tail && s.sent[i] == d && k <= |d|
  }

  /** The last n indices, from before the first output on, name every page once. */
  ghost predicate PagesOk(c: Config, s: State)
    requires Shape(c, s)
  {
    forall j: int :: s.tail - c.n <= j < s.tail ==> s.pages[j % c.n] == Tenant(c, s.sent, s.producer, j)
  }

  /** An index is claimed and not yet delivered. */
  predicate Busy(d: Consumer) { d.Claimed? || d.Reading? }

  predicate ConsumerOk(c: Config, s: State)
    requires Shape(c, s)
  {
    && (if Busy(s.consumer) then |s.got| == s.consumer.index && s.consumer.index + 1 == s.head else |s.got| == s.head)
    && (s.consumer.Reading? ==> ReadSoFar(c, s.consumer, s.sent[s.consumer.index]))
  }

  /** What was read is a part of output `d` exactly if every read was right, as it is on a settled page. */
  predicate ReadSoFar(c: Config, r: Consumer, d: seq<u8>)
    requires r.Reading?
  {
    && |r.data| <= r.size <= c.valueSize && (r.undisturbed ==> r.right)
    && (r.right <==> r.size == |d| && r.data <= d)
  }

  ghost predicate Delivered(c: Config, s: State) {
    && |s.got| <= |s.sent|
    && forall j :: 0 <= j < |s.got| ==>
         && s.got[j].index == j && |s.got[j].data| <= c.valueSize
         && (s.got[j].undisturbed ==> s.got[j].right)
         && (s.got[j].right <==> s.got[j].data == s.sent[j])
  }

  ghost predicate Inv(c: Config, s: State) {
    Shape(c, s) && ProducerOk(c, s) && PagesOk(c, s) && ConsumerOk(c, s) && Delivered(c, s)
  }

  // ---- Steps keep it ----

  /** Two indices less than n apart use different slots. */
  lemma SlotsDiffer(i: int, j: int, n: nat)
    requires i < j < i + n
    ensures i % n != j % n
  {
    if i % n == j % n {
      assert i == n * (i / n) + i % n && j == n * (j / n) + j % n;
      Distribute(n, i / n, j / n - i / n, 0);
      Apart(n, j / n - i / n, j - i);
    }
  }

  lemma Apart(n: nat, k: int, d: nat)
    requires 0 < d < n
    ensures n * k != d
  {
    if k >= 1 {
      NonNegative(n, k - 1);
      Distribute(n, k - 1, 1, 0);
    } else {
      NonNegative(n, -k);
    }
  }

  lemma SameSlot(i: int, n: nat)
    requires n >= 1
    ensures (i - n) % n == i % n && (i + n) % n == i % n
  {
    var q, r := i / n, i % n;
    Distribute(n, q, -1, 0);
    Distribute(n, q, 1, 0);
    QuotientUnique(i - n, n, q - 1, r);
    QuotientUnique(i + n, n, q + 1, r);
  }

  /** A page that is an index's own tenant. */
  lemma TenantAt(c: Config, s: State, j: int)
    requires Inv(c, s) && s.tail - c.n <= j < s.tail
    ensures s.pages[j % c.n] == Tenant(c, s.sent, s.producer, j)
  {
  }

  /** Writing the newest index's page leaves the others as they are. */
  lemma WriteKeeps(c: Config, s: State, i: nat, page: Page, producer: Producer)
    requires Inv(c, s) && InProgress(s.producer, i) && producer.Copying? && producer.index == i
    requires producer.data == s.producer.data && producer.done <= |producer.data|
    requires |page| == c.valueSize + 8 && page == Tenant(c, s.sent, producer, i)
    ensures Inv(c, s.(pages := s.pages[i % c.n := page], producer := producer))
  {
    hide Content, Overlay;
    var s' := s.(pages := s.pages[i % c.n := page], producer := producer);
    forall j: int | s.tail - c.n <= j < s.tail
      ensures s'.pages[j % c.n] == Tenant(c, s.sent, producer, j)
    {
      if j != i {
        TenantAt(c, s, j);
        SlotsDiffer(j, i, c.n);
      }
    }
  }

  lemma ConstructionKeeps(c: Config, s: State)
    requires Inv(c, s)
    requires s.producer.Reserved? || (s.producer.Copying? && s.producer.done < |s.producer.data|)
    ensures Inv(c, Produce(c, s))
  {
    hide Content, Overlay, SizeWritten, ByteWritten, PagesOk, Delivered;
    var d, i := s.producer.data, s.producer.index;
    var before := Content(c, s.sent, i - c.n);
    TenantAt(c, s, i);
    if s.producer.Reserved? {
      SizeStep(before, d);
      WriteKeeps(c, s, i, SizeWritten(before, |d|), Copying(d, i, 0));
    } else {
      var k := s.producer.done;
      ByteStep(before, d, k);
      WriteKeeps(c, s, i, Overlay(before, d, k + 1), Copying(d, i, k + 1));
    }
  }

  lemma ReserveKeeps(c: Config, s: State)
    requires Inv(c, s) && s.producer.Marked?
    ensures Inv(c, Produce(c, s))
  {
    hide Content;
    var s' := Produce(c, s);
    var d := s.producer.data;
    forall j: int | s'.tail - c.n <= j < s'.tail
      ensures s'.pages[j % c.n] == Tenant(c, s'.sent, s'.producer, j)
    {
      var k := if j == s.tail then j - c.n else j;
      SameSlot(j, c.n);
      TenantAt(c, s, k);
      ContentStable(c, s.sent, d, k);
    }
  }

  lemma FinishKeeps(c: Config, s: State)
    requires Inv(c, s) && s.producer.Copying? && s.producer.done >= |s.producer.data|
    ensures Inv(c, Produce(c, s))
  {
    hide Overlay;
    var s' := Produce(c, s);
    forall j: int | s.tail - c.n <= j < s.tail
      ensures s'.pages[j % c.n] == Tenant(c, s'.sent, s'.producer, j)
    {
      TenantAt(c, s, j);
    }
  }

  lemma CheckKeeps(c: Config, s: State)
    requires Inv(c, s)
    requires s.producer.Idle? || s.producer.SawTail? || s.producer.Passed?
    ensures Inv(c, Produce(c, s))
  {
    hide Content;
    var s' := Produce(c, s);
    forall j: int | s.tail - c.n <= j < s.tail
      ensures s'.pages[j % c.n] == Tenant(c, s'.sent, s'.producer, j)
    {
      TenantAt(c, s, j);
    }
  }

  lemma ProducerKeeps(c: Config, s: State)
    requires Inv(c, s)
    ensures Inv(c, Produce(c, s))
  {
    hide Inv, Produce;
    match s.producer
    case Marked(_) => ReserveKeeps(c, s);
    case Reserved(_, _) => ConstructionKeeps(c, s);
    case Copying(d, _, k) => if k < |d| { ConstructionKeeps(c, s); } else { FinishKeeps(c, s); }
    case _ => CheckKeeps(c, s);
  }

  /** A settled page holds what was output under its index. */
  lemma SettledEntry(c: Config, s: State, i: nat)
    requires Inv(c, s) && i < s.tail && Settled(c, s, i)
    ensures Entry(PageOf(c, s, i)) == s.sent[i]
  {
    hide Entry, Content;
    TenantAt(c, s, i);
    ContentEntry(c, s.sent, i);
  }

  /** The page of a claimed index is that of the index itself or of the one n later. */
  lemma ClaimedPage(c: Config, s: State, i: nat)
    requires Inv(c, s) && i + 1 == s.head
    ensures i < s.tail <= i + 1 + c.n
    ensures PageOf(c, s, i) == Tenant(c, s.sent, s.producer, if s.tail <= i + c.n then i else i + c.n)
  {
    hide Content, Overlay, Delivered;
    SameSlot(i, c.n);
    TenantAt(c, s, if s.tail <= i + c.n then i else i + c.n);
  }

  /** The size word read for a claimed index is that of its output if and only if `SizeRight`, and never
      leads out of the page. */
  lemma SizeReadIff(c: Config, s: State, i: nat)
    requires Inv(c, s) && i + 1 == s.head
    ensures i < s.tail && (Value(PageOf(c, s, i)[..8]) == |s.sent[i]| <==> SizeRight(c, s, i))
    ensures Value(PageOf(c, s, i)[..8]) <= c.valueSize
  {
    hide Value, Overlay, PagesOk, Delivered, ConsumerOk, Content;
    ClaimedPage(c, s, i);
    var p, j := s.producer, if s.tail <= i + c.n then i else i + c.n;
    if p.Reserved? && p.index == j {
      ContentSize(c, s.sent, j - c.n);
    } else if p.Copying? && p.index == j {
      OverlaySize(Content(c, s.sent, j - c.n), p.data, p.done);
    } else {
      ContentSize(c, s.sent, j);
    }
  }

  /** A byte read for a claimed index is that of its output if and only if `ByteRight`. */
  lemma ByteReadIff(c: Config, s: State, i: nat, k: nat)
    requires Inv(c, s) && i + 1 == s.head && i < s.tail && k < |s.sent[i]|
    ensures PageOf(c, s, i)[8 + k] == s.sent[i][k] <==> ByteRight(c, s, i, k)
  {
    hide Overlay, PagesOk, Delivered, ConsumerOk, Content;
    ClaimedPage(c, s, i);
    var p, j := s.producer, if s.tail <= i + c.n then i else i + c.n;
    ContentByte(c, s.sent, i, k);
    if p.Copying? && p.index == j {
      OverlayByte(Content(c, s.sent, j - c.n), p.data, p.done, k);
    } else if !(p.Reserved? && p.index == j) {
      ContentByte(c, s.sent, j, k);
    }
  }

  lemma PrefixGrows(data: seq<u8>, b: u8, d: seq<u8>)
    ensures data + [b] <= d <==> data <= d && |data| < |d| && b == d[|data|]
  {
    if data + [b] <= d { assert (data + [b])[|data|] == d[|data|]; }
  }

  lemma SettledRight(c: Config, s: State, i: nat, k: nat)
    requires Shape(c, s) && i < s.tail && Settled(c, s, i)
    ensures SizeRight(c, s, i) && (k < |s.sent[i]| ==> ByteRight(c, s, i, k))
  {
  }

  /** One more read keeps the account of what was read. */
  lemma ReadKeeps(c: Config, s: State)
    requires Inv(c, s) && Busy(s.consumer)
    ensures s.consumer.index < s.tail
    ensures Consume(c, s).consumer.Reading? ==> ReadSoFar(c, Consume(c, s).consumer, s.sent[s.consumer.index])
  {
    hide Value, Tenant, Settled, SizeRight, ByteRight, PagesOk, Delivered;
    var i := s.consumer.index;
    SizeReadIff(c, s, i);
    if s.consumer.Claimed? {
      if Settled(c, s, i) { SettledRight(c, s, i, 0); }
    } else {
      var k := |s.consumer.data|;
      if k < s.consumer.size {
        PrefixGrows(s.consumer.data, PageOf(c, s, i)[8 + k], s.sent[i]);
        if k < |s.sent[i]| { ByteReadIff(c, s, i, k); }
        if Settled(c, s, i) { SettledRight(c, s, i, k); }
      }
    }
  }

  /** A delivery is right exactly if all its reads were. */
  lemma DeliveryKeeps(c: Config, s: State)
    requires Inv(c, s)
    ensures Delivered(c, Consume(c, s))
  {
    hide Value, Tenant, Settled, SizeRight, ByteRight, PagesOk;
    if s.consumer.Reading? { SizeReadIff(c, s, s.consumer.index); }
  }

  lemma ConsumerKeeps(c: Config, s: State)
    requires Inv(c, s)
    ensures Inv(c, Consume(c, s))
  {
    hide Value, Tenant, Settled, SizeRight, ByteRight, Delivered, ReadSoFar;
    DeliveryKeeps(c, s);
    if Busy(s.consumer) { ReadKeeps(c, s); }
  }

  lemma OutputKeeps(c: Config, s: State, d: seq<u8>)
    requires Inv(c, s) && Legal(c, s, Output(d))
    ensures Inv(c, Apply(c, s, Output(d)))
  {
    hide Content;
    var s' := Apply(c, s, Output(d));
    forall j: int | s.tail - c.n <= j < s.tail
      ensures s'.pages[j % c.n] == Tenant(c, s'.sent, s'.producer, j)
    {
      TenantAt(c, s, j);
    }
  }

  lemma StepKeeps(c: Config, s: State, a: Action)
    requires Inv(c, s) && Legal(c, s, a)
    ensures Inv(c, Apply(c, s, a))
  {
    hide ProducerOk, PagesOk, ConsumerOk, Delivered;
    match a
    case Output(d) => OutputKeeps(c, s, d);
    case ProducerStep => ProducerKeeps(c, s);
    case ConsumerStep => ConsumerKeeps(c, s);
  }

  // ---- Runs ----

  ghost predicate LegalRun(c: Config, s: State, acts: seq<Action>)
    requires Inv(c, s)
    decreases |acts|
  {
    || acts == []
    || (Legal(c, s, acts[0]) && (StepKeeps(c, s, acts[0]); LegalRun(c, Apply(c, s, acts[0]), acts[1..])))
  }

  ghost function Run(c: Config, s: State, acts: seq<Action>): (r: State)
    requires Inv(c, s) && LegalRun(c, s, acts)
    ensures Inv(c, r)
    decreases |acts|
  {
    if acts == [] then s
    else
      StepKeeps(c, s, acts[0]);
      Run(c, Apply(c, s, acts[0]), acts[1..])
  }

  /** The entries a reader finds between head and tail, oldest first. */
  function Unread(c: Config, s: State): (q: seq<seq<u8>>)
    requires Shape(c, s)
    ensures |q| == s.tail - s.head
  {
    seq(s.tail - s.head, i requires 0 <= i => Entry(PageOf(c, s, s.head + i)))
  }

  lemma UnreadAt(c: Config, s: State, k: nat)
    requires Shape(c, s) && k < s.tail - s.head
    ensures Unread(c, s)[k] == Entry(PageOf(c, s, s.head + k))
  {
    hide Entry, PageOf;
  }

  lemma CleanUnread(c: Config, s: State)
    requires Inv(c, s) && !s.dirty
    ensures Unread(c, s) == s.sent[s.head..s.tail]
  {
    hide Entry, Unread, PagesOk, Delivered;
    forall k: nat | k < s.tail - s.head ensures Unread(c, s)[k] == s.sent[s.head..s.tail][k] {
      UnreadAt(c, s, k);
      SettledEntry(c, s, s.head + k);
      assert s.sent[s.head..s.tail][k] == s.sent[s.head + k];
    }
  }

  /** Every run: occupancy stays within the capacity; a page that is not under construction holds its
      output until index i + n takes it; when the dirty word is clear the whole queue is there, in
      order of output; deliveries are outputs 0, 1, 2, ... and those whose page was settled at every
      read carry what was output. */
  lemma RingSafety(c: Config, acts: seq<Action>)
    requires c.n >= 1 && c.valueSize < TWO31
    requires LegalRun(c, Init(c), acts)
    ensures var s := Run(c, Init(c), acts);
            && s.head <= s.tail <= s.head + c.n && s.tail == |s.sent|
            && (forall i: nat :: i < s.tail && Settled(c, s, i) ==> Entry(PageOf(c, s, i)) == s.sent[i])
            && (!s.dirty ==> Unread(c, s) == s.sent[s.head..s.tail])
            && |s.got| == (if Busy(s.consumer) then s.head - 1 else s.head)
            && (forall j :: 0 <= j < |s.got| ==>
                  s.got[j].index == j && (s.got[j].undisturbed ==> s.got[j].data == s.sent[j]))
  {
    hide Entry, Run, LegalRun, PagesOk, Settled;
    var s := Run(c, Init(c), acts);
    if !s.dirty { CleanUnread(c, s); }
    forall i: nat | i < s.tail && Settled(c, s, i) ensures Entry(PageOf(c, s, i)) == s.sent[i] {
      SettledEntry(c, s, i);
    }
  }

  /** What was output and what was delivered is never rewritten. */
  lemma {:induction false} HistoryKept(c: Config, s: State, acts: seq<Action>)
    requires Inv(c, s) && LegalRun(c, s, acts)
    ensures s.sent <= Run(c, s, acts).sent && s.got <= Run(c, s, acts).got
    decreases |acts|
  {
    hide ProducerOk, PagesOk, ConsumerOk, Delivered, Apply;
    if acts != [] {
      StepKeeps(c, s, acts[0]);
      StepHistory(c, s, acts[0]);
      HistoryKept(c, Apply(c, s, acts[0]), acts[1..]);
    }
  }

  lemma StepHistory(c: Config, s: State, a: Action)
    requires Shape(c, s)
    ensures s.sent <= Apply(c, s, a).sent && s.got <= Apply(c, s, a).got
  {
    hide Entry;
  }

  // ---- When exactly a delivery is right ----

  /** In every run a delivery carries what was output if and only if each of its reads, of the size word and
      of every byte, was right when it was made. */
  lemma DeliveryIff(c: Config, acts: seq<Action>, j: nat)
    requires c.n >= 1 && c.valueSize < TWO31 && LegalRun(c, Init(c), acts) && j < |Run(c, Init(c), acts).got|
    ensures var s := Run(c, Init(c), acts);
            && j < |s.sent| && (s.got[j].data == s.sent[j] <==> s.got[j].right)
            && (s.got[j].undisturbed ==> s.got[j].right)
  {
    hide Run, LegalRun, PagesOk;
  }

  // ---- Whole calls ----

  ghost function Steps(c: Config, s: State, k: nat): (r: State)
    requires Inv(c, s)
    ensures Inv(c, r)
    decreases k
  {
    if k == 0 then s
    else
      ProducerKeeps(c, s);
      Steps(c, Produce(c, s), k - 1)
  }

  lemma {:induction false} CopyRest(c: Config, s: State) returns (k: nat)
    requires Inv(c, s) && s.producer.Copying?
    ensures Steps(c, s, k) == s.(dirty := false, producer := Idle(0), pages := Steps(c, s, k).pages)
    decreases |s.producer.data| - s.producer.done
  {
    hide ProducerOk, PagesOk, ConsumerOk, Delivered;
    ProducerKeeps(c, s);
    if s.producer.done < |s.producer.data| {
      var j := CopyRest(c, Produce(c, s));
      k := j + 1;
    } else {
      k := 1;
      assert Steps(c, Produce(c, s), 0) == Produce(c, s);
    }
  }

  /** An output call that is not interrupted: a full ring is refused with 2 and left as it was;
      otherwise the payload becomes the newest entry. */
  lemma OutputCall(c: Config, s: State, d: seq<u8>) returns (k: nat)
    requires Inv(c, s) && Legal(c, s, Output(d))
    ensures Inv(c, Apply(c, s, Output(d)))
    ensures var s' := Steps(c, Apply(c, s, Output(d)), k);
            if s.tail - s.head == c.n then s' == s.(producer := Idle(2))
            else
              && s'.producer == Idle(0) && s'.head == s.head
              && Unread(c, s') == Unread(c, s) + [d]
  {
    hide ProducerOk, PagesOk, ConsumerOk, Delivered, Unread;
    StepKeeps(c, s, Output(d));
    var s1 := Apply(c, s, Output(d));
    if s.tail - s.head == c.n {
      k := 1;
      var s2 := Next(c, s1);
      assert Steps(c, s2, 0) == s2;
    } else {
      hide Produce;
      var s5 := StartCopy(c, s1);
      var j := CopyRest(c, s5);
      k := j + 4;
      var s' := Steps(c, s5, j);
      IdleIsClean(c, s);
      CleanUnread(c, s);
      CleanUnread(c, s');
      assert s'.sent[s.head..s.tail + 1] == s.sent[s.head..s.tail] + [d];
    }
  }

  /** Past the check for room: marked, reserved, size written. */
  lemma StartCopy(c: Config, s: State) returns (s': State)
    requires Inv(c, s) && s.producer.SawTail? && s.tail - s.head != c.n
    ensures Inv(c, s') && forall k: nat :: Steps(c, s, k + 4) == Steps(c, s', k)
    ensures s' == s.(dirty := true, tail := s.tail + 1, sent := s.sent + [s.producer.data],
                     pages := s'.pages, producer := Copying(s.producer.data, s.tail, 0))
  {
    hide PagesOk, ConsumerOk, Delivered, Steps;
    var s2 := Next(c, s);
    var s3 := Next(c, s2);
    var s4 := Next(c, s3);
    s' := Next(c, s4);
    forall k: nat ensures Steps(c, s, k + 4) == Steps(c, s', k) {
      assert Steps(c, s, k + 3 + 1) == Steps(c, s2, k + 2 + 1) == Steps(c, s3, k + 1 + 1) == Steps(c, s4, k + 1);
    }
  }

  lemma IdleIsClean(c: Config, s: State)
    requires Inv(c, s) && s.producer.Idle?
    ensures !s.dirty && s.tail == |s.sent| && s.head <= s.tail
  {
  }

  lemma Next(c: Config, s: State) returns (s': State)
    requires Inv(c, s)
    ensures s' == Produce(c, s) && Inv(c, s')
    ensures forall k: nat :: Steps(c, s, k + 1) == Steps(c, s', k)
  {
    ProducerKeeps(c, s);
    s' := Produce(c, s);
  }

  ghost function DrainSteps(c: Config, s: State, k: nat): (r: State)
    requires Inv(c, s)
    ensures Inv(c, r)
    decreases k
  {
    if k == 0 then s
    else
      ConsumerKeeps(c, s);
      DrainSteps(c, Consume(c, s), k - 1)
  }

  /** The rest of a drain that has read some of a page which nobody touches. */
  lemma {:induction false} ReadRest(c: Config, s: State) returns (k: nat)
    requires Inv(c, s) && s.consumer.Reading? && s.consumer.undisturbed && Settled(c, s, s.consumer.index)
    ensures var i := s.consumer.index;
            && i < s.tail
            && DrainSteps(c, s, k) == s.(consumer := Watching, got := s.got + [Delivery(i, s.sent[i], true, true)])
    decreases s.consumer.size - |s.consumer.data|
  {
    hide PagesOk, Delivered, Value, SizeRight, ByteRight, ProducerOk;
    var i, r := s.consumer.index, s.consumer;
    ConsumerKeeps(c, s);
    SettledRight(c, s, i, |r.data|);
    if |r.data| < r.size {
      var j := ReadRest(c, Consume(c, s));
      k := j + 1;
    } else {
      k := 1;
      assert r.data == s.sent[i];
      assert DrainSteps(c, Consume(c, s), 0) == Consume(c, s);
    }
  }

  /** The ring after a drain that is not interrupted. */
  function Drained(s: State): State {
    if s.dirty || s.head >= |s.sent| then s
    else s.(head := s.head + 1, got := s.got + [Delivery(s.head, s.sent[s.head], true, true)])
  }

  /** A drain that is not interrupted: nothing on a dirty or empty ring, otherwise the oldest
      entry is delivered and removed. */
  lemma DrainCall(c: Config, s: State) returns (k: nat)
    requires Inv(c, s) && s.consumer.Watching?
    ensures DrainSteps(c, s, k) == Drained(s) && Inv(c, Drained(s))
    ensures !s.dirty && s.head != s.tail ==>
            Unread(c, Drained(s)) == Unread(c, s)[1..] && Unread(c, s)[0] == s.sent[s.head]
  {
    hide PagesOk, ConsumerOk, Delivered, Entry, Unread, Value, SizeRight, ByteRight, DrainSteps;
    var s1 := NextDrain(c, s);
    var s2 := NextDrain(c, s1);
    if s.dirty || s.head == s.tail {
      k := if s.dirty then 0 else 2;
      NoDrain(c, s);
      NoDrain(c, s2);
      assert !s.dirty ==> DrainSteps(c, s, 1 + 1) == DrainSteps(c, s1, 0 + 1);
    } else {
      var s3 := NextDrain(c, s2);
      assert s3.consumer.Reading? && s3.consumer.index == s.head && s3.consumer.undisturbed;
      var j := ReadRest(c, s3);
      k := j + 3;
      assert DrainSteps(c, s, j + 2 + 1) == DrainSteps(c, s1, j + 1 + 1) == DrainSteps(c, s2, j + 1);
      UnreadTail(c, s, Drained(s));
      CleanUnread(c, s);
    }
  }

  lemma NoDrain(c: Config, s: State)
    requires Inv(c, s)
    ensures DrainSteps(c, s, 0) == s
  {
  }

  lemma NextDrain(c: Config, s: State) returns (s': State)
    requires Inv(c, s)
    ensures s' == Consume(c, s) && Inv(c, s')
    ensures forall k: nat :: DrainSteps(c, s, k + 1) == DrainSteps(c, s', k)
  {
    ConsumerKeeps(c, s);
    s' := Consume(c, s);
  }

  /** The first dirty ring from k on, or the number of rings. */
  function FirstDirty(rings: seq<State>, k: nat): (r: nat)
    requires k <= |rings|
    ensures k <= r <= |rings| && (r < |rings| ==> rings[r].dirty)
    ensures forall i :: k <= i < r ==> !rings[i].dirty
    decreases |rings| - k
  {
    if k == |rings| || rings[k].dirty then k else FirstDirty(rings, k + 1)
  }

  /** The oldest entries of the first k rings that have one. */
  function Oldest(rings: seq<State>, k: nat): seq<seq<u8>>
    requires k <= |rings|
  {
    if k == 0 then []
    else
      var s := rings[k - 1];
      Oldest(rings, k - 1) + if s.head < |s.sent| then [s.sent[s.head]] else []
  }

  /** The host's walk over the rings of all threads, not interrupted: every ring before the first dirty one
      hands out its oldest output, in the order of the threads; the others are not looked at. */
  method DrainData(c: Config, rings: seq<State>) returns (after: seq<State>, seen: seq<seq<u8>>)
    requires forall i :: 0 <= i < |rings| ==> Inv(c, rings[i]) && rings[i].consumer.Watching?
    ensures |after| == |rings| && var stop := FirstDirty(rings, 0);
            && (forall i :: 0 <= i < |rings| ==> after[i] == if i < stop then Drained(rings[i]) else rings[i])
            && seen == Oldest(rings, stop)
  {
    hide ProducerOk, PagesOk, ConsumerOk, Delivered, Entry;
    after, seen := rings, [];
    for i := 0 to |rings|
      invariant |after| == |rings| && FirstDirty(rings, i) == FirstDirty(rings, 0)
      invariant forall j :: 0 <= j < |rings| ==> after[j] == if j < i then Drained(rings[j]) else rings[j]
      invariant seen == Oldest(rings, i)
    {
      var s := rings[i];
      assert Inv(c, s);
      if s.dirty { return; }
      if s.head != s.tail {
        var data := Entry(PageOf(c, s, s.head));
        OldestEntry(c, s);
        seen := seen + [data];
        after := after[i := s.(head := s.head + 1, got := s.got + [Delivery(s.head, data, true, true)])];
      }
    }
  }

  lemma OldestEntry(c: Config, s: State)
    requires Inv(c, s) && !s.dirty && s.head != s.tail
    ensures Entry(PageOf(c, s, s.head)) == s.sent[s.head]
  {
    hide Entry;
    SettledEntry(c, s, s.head);
  }

  lemma UnreadTail(c: Config, s: State, s': State)
    requires Shape(c, s) && Shape(c, s')
    requires s'.pages == s.pages && s'.tail == s.tail && s'.head == s.head + 1
    ensures Unread(c, s') == Unread(c, s)[1..] && Unread(c, s)[0] == Entry(PageOf(c, s, s.head))
  {
    hide Entry, Unread;
    UnreadAt(c, s, 0);
    forall k: nat | k < s'.tail - s'.head ensures Unread(c, s')[k] == Unread(c, s)[1..][k] {
      UnreadAt(c, s', k);
      UnreadAt(c, s, k + 1);
    }
  }

  // ---- What an interrupted drain can deliver ----

  lemma {:induction false} RunSnoc(c: Config, s: State, acts: seq<Action>, a: Action)
    requires Inv(c, s) && LegalRun(c, s, acts) && Legal(c, Run(c, s, acts), a)
    ensures LegalRun(c, s, acts + [a])
    ensures Run(c, s, acts + [a]) == Apply(c, Run(c, s, acts), a)
    decreases |acts|
  {
    hide ProducerOk, PagesOk, ConsumerOk, Delivered, Apply, Legal;
    if acts == [] {
      assert (acts + [a])[1..] == [];
      StepKeeps(c, s, a);
    } else {
      assert (acts + [a])[1..] == acts[1..] + [a];
      StepKeeps(c, s, acts[0]);
      RunSnoc(c, Apply(c, s, acts[0]), acts[1..], a);
    }
  }

  /** Some run from the beginning ends in s. */
  ghost predicate Reached(c: Config, acts: seq<Action>, s: State) {
    c.n >= 1 && c.valueSize < TWO31 && LegalRun(c, Init(c), acts) && s == Run(c, Init(c), acts)
  }

  lemma Extend(c: Config, acts: seq<Action>, s: State, a: Action) returns (acts': seq<Action>, s': State)
    requires Reached(c, acts, s) && Legal(c, s, a)
    ensures Inv(c, s) && Reached(c, acts', s') && s' == Apply(c, s, a)
  {
    RunSnoc(c, Init(c), acts, a);
    acts', s' := acts + [a], Apply(c, s, a);
  }

  lemma Begin(c: Config)
    requires c.n >= 1 && c.valueSize < TWO31
    ensures Reached(c, [], Init(c))
  {
  }

  lemma ReachedInv(c: Config, acts: seq<Action>, s: State)
    requires Reached(c, acts, s)
    ensures Inv(c, s)
  {
  }

  /** The dirty word is tested while the ring is empty, then the producer reserves a page. */
  lemma ReservedUnseen(c: Config) returns (acts: seq<Action>, s: State)
    requires c.n >= 1 && 1 <= c.valueSize < TWO31
    ensures Reached(c, acts, s)
    ensures s == Init(c).(tail := 1, dirty := true, sent := [[7]], producer := Reserved([7], 0), consumer := Clean)
  {
    hide Reached, Entry, PagesOk, ConsumerOk, Delivered, Zero;
    Begin(c);
    acts, s := Extend(c, [], Init(c), Output([7]));
    acts, s := Extend(c, acts, s, ProducerStep);
    assert s.producer == Passed([7]);
    acts, s := Extend(c, acts, s, ConsumerStep);
    acts, s := Extend(c, acts, s, ProducerStep);
    acts, s := Extend(c, acts, s, ProducerStep);
  }

  /** On any ring with room for a byte, the drain can hand out a reserved page before it is written. */
  lemma ReadsTooEarly(c: Config) returns (acts: seq<Action>, s: State)
    requires c.n >= 1 && 1 <= c.valueSize < TWO31
    ensures Reached(c, acts, s) && s.sent == [[7]] && s.got == [Delivery(0, [], false, false)]
  {
    hide Reached, Entry, PagesOk, ConsumerOk, Delivered, Zero;
    acts, s := ReservedUnseen(c);
    acts, s := Extend(c, acts, s, ConsumerStep);
    Zeros(Zero(c)[..8]);
    acts, s := Extend(c, acts, s, ConsumerStep);
    acts, s := Extend(c, acts, s, ConsumerStep);
  }

  /** The rest of an output whose size word is written. */
  lemma {:induction false} CopyOut(c: Config, acts: seq<Action>, s: State) returns (acts': seq<Action>, s': State)
    requires Reached(c, acts, s) && s.producer.Copying? && Inv(c, s)
    ensures Reached(c, acts', s') && s' == s.(dirty := false, producer := Idle(0), pages := s'.pages)
    decreases |s.producer.data| - s.producer.done
  {
    hide Reached, Entry, PagesOk, ConsumerOk, Delivered, ByteWritten;
    acts', s' := Extend(c, acts, s, ProducerStep);
    if s.producer.done < |s.producer.data| {
      ReachedInv(c, acts', s');
      acts', s' := CopyOut(c, acts', s');
    }
  }

  /** The producer steps of an output on a ring with room. */
  lemma Put(c: Config, acts: seq<Action>, s: State, d: seq<u8>) returns (acts': seq<Action>, s': State)
    requires Reached(c, acts, s) && |d| <= c.valueSize
    requires s.producer.Idle? && s.tail - s.head < c.n
    ensures Reached(c, acts', s') && s'.producer == Idle(0) && s'.tail == s.tail + 1 && s'.sent == s.sent + [d]
    ensures s'.head == s.head && s'.consumer == s.consumer && s'.got == s.got
  {
    hide Reached, Entry, PagesOk, ConsumerOk, Delivered, SizeWritten, ByteWritten;
    acts', s' := Extend(c, acts, s, Output(d));
    acts', s' := Extend(c, acts', s', ProducerStep);
    acts', s' := Extend(c, acts', s', ProducerStep);
    acts', s' := Extend(c, acts', s', ProducerStep);
    assert s'.producer == Reserved(d, s.tail);
    acts', s' := Extend(c, acts', s', ProducerStep);
    ReachedInv(c, acts', s');
    acts', s' := CopyOut(c, acts', s');
  }

  lemma {:induction false} PutMany(c: Config, acts: seq<Action>, s: State, d: seq<u8>, k: nat)
    returns (acts': seq<Action>, s': State)
    requires Reached(c, acts, s) && |d| <= c.valueSize
    requires s.producer.Idle? && s.tail - s.head + k <= c.n && |s.sent| == s.tail
    ensures Reached(c, acts', s') && s'.producer.Idle? && s'.tail == s.tail + k && |s'.sent| == s'.tail
    ensures s.sent <= s'.sent && (k > 0 ==> s'.sent[s'.tail - 1] == d)
    ensures s'.head == s.head && s'.consumer == s.consumer && s'.got == s.got
    decreases k
  {
    hide Reached;
    if k == 0 {
      acts', s' := acts, s;
    } else {
      acts', s' := PutMany(c, acts, s, d, k - 1);
      acts', s' := Put(c, acts', s', d);
    }
  }

  /** The drain has claimed output 0 of a ring that is otherwise empty. */
  lemma ClaimFirst(c: Config, d: seq<u8>) returns (acts: seq<Action>, s: State)
    requires c.n >= 1 && |d| <= c.valueSize < TWO31
    ensures Reached(c, acts, s) && Inv(c, s) && s.consumer == Claimed(0) && s.got == []
    ensures s.producer.Idle? && s.head == s.tail == 1 && s.sent == [d]
  {
    hide Reached, Entry, PagesOk, Delivered, Content;
    Begin(c);
    acts, s := Put(c, [], Init(c), d);
    ReachedInv(c, acts, s);
    acts, s := Extend(c, acts, s, ConsumerStep);
    acts, s := Extend(c, acts, s, ConsumerStep);
    ReachedInv(c, acts, s);
  }

  /** The producer goes round once and reuses the page of output 0. */
  lemma GoRound(c: Config, acts: seq<Action>, s: State, d: seq<u8>) returns (acts': seq<Action>, s': State)
    requires Reached(c, acts, s) && Inv(c, s) && |d| <= c.valueSize
    requires s.producer.Idle? && s.head == s.tail == 1 && Busy(s.consumer)
    ensures Reached(c, acts', s') && Inv(c, s') && s'.producer.Idle? && s'.tail == |s'.sent| == c.n + 1
    ensures s'.sent[0] == s.sent[0] && s'.sent[c.n] == d
    ensures s'.head == s.head && s'.consumer == s.consumer && s'.got == s.got
    ensures PageOf(c, s', 0) == Content(c, s'.sent, c.n)
  {
    hide Reached, Entry, PagesOk, ConsumerOk, Delivered, Content;
    acts', s' := PutMany(c, acts, s, d, c.n);
    ReachedInv(c, acts', s');
    ClaimedPage(c, s', 0);
  }

  /** On any ring with room for a byte: the drain advances head before it reads, so the producer may reuse
      the page first, and a later output is handed out instead. */
  lemma ReadsTooLate(c: Config) returns (acts: seq<Action>, s: State)
    requires c.n >= 1 && 1 <= c.valueSize < TWO31
    ensures Reached(c, acts, s) && s.got == [Delivery(0, [8], false, false)]
    ensures |s.sent| == c.n + 1 && s.sent[0] == [7] && s.sent[c.n] == [8]
  {
    hide Reached, Entry, PagesOk, ConsumerOk, Delivered, Content, Value;
    acts, s := ClaimFirst(c, [7]);
    acts, s := GoRound(c, acts, s, [8]);
    ContentSize(c, s.sent, c.n);
    ContentByte(c, s.sent, c.n, 0);
    acts, s := Extend(c, acts, s, ConsumerStep);
    assert s.consumer == Reading(0, 1, [], false, true);
    acts, s := Extend(c, acts, s, ConsumerStep);
    assert s.consumer == Reading(0, 1, [8], false, false);
    acts, s := Extend(c, acts, s, ConsumerStep);
  }

  /** With room for two bytes, a page reused between two reads is handed out torn: no output was that. */
  lemma ReadsTorn(c: Config) returns (acts: seq<Action>, s: State)
    requires c.n >= 1 && 2 <= c.valueSize < TWO31
    ensures Reached(c, acts, s) && s.got == [Delivery(0, [7, 8], false, false)]
    ensures |s.sent| == c.n + 1 && s.sent[0] == [7, 7] && s.sent[c.n] == [8, 8]
  {
    hide Reached, Entry, PagesOk, ConsumerOk, Delivered, Content, Value;
    acts, s := ReadHalf(c);
    acts, s := GoRound(c, acts, s, [8, 8]);
    ContentByte(c, s.sent, c.n, 1);
    acts, s := Extend(c, acts, s, ConsumerStep);
    assert s.consumer == Reading(0, 2, [7, 8], false, false);
    acts, s := Extend(c, acts, s, ConsumerStep);
  }

  lemma ReadHalf(c: Config) returns (acts: seq<Action>, s: State)
    requires c.n >= 1 && 2 <= c.valueSize < TWO31
    ensures Reached(c, acts, s) && Inv(c, s) && s.consumer == Reading(0, 2, [7], true, true) && s.got == []
    ensures s.producer.Idle? && s.head == s.tail == 1 && s.sent == [[7, 7]]
  {
    hide Reached, Entry, PagesOk, ConsumerOk, Delivered, Content, Value;
    acts, s := ClaimFirst(c, [7, 7]);
    SettledRight(c, s, 0, 0);
    SizeReadIff(c, s, 0);
    ByteReadIff(c, s, 0, 0);
    acts, s := Extend(c, acts, s, ConsumerStep);
    acts, s := Extend(c, acts, s, ConsumerStep);
    ReachedInv(c, acts, s);
  }

  ghost predicate DeliversOutputs(s: State) {
    forall j :: 0 <= j < |s.got| ==> j < |s.sent| && s.got[j].data == s.sent[j]
  }

  /** Every run delivers only what was output if and only if there is nothing to deliver. */
  lemma DeliversOutputsIff(c: Config)
    requires c.n >= 1 && c.valueSize < TWO31
    ensures (forall acts, s :: Reached(c, acts, s) ==> DeliversOutputs(s)) <==> c.valueSize == 0
  {
    hide Reached;
    if c.valueSize == 0 {
      forall acts, s | Reached(c, acts, s) ensures DeliversOutputs(s) {
        ReachedInv(c, acts, s);
      }
    } else {
      var acts, s := ReadsTooEarly(c);
      assert s.got[0].data != s.sent[0];
    }
  }
}
