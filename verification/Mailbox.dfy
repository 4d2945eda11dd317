/**
 The mailbox between GPU threads and the host watcher.

 Each GPU thread runs the helper-call sequence of the trampoline; the host runs
 the watcher loop.  One action is one memory access of one party, so every
 interleaving of the two programs is a sequence of actions.  Whether a thread
 takes the critical section in a given round is left open here; Warp.dfy fixes it.
 */
module Mailbox {
  import opened Words

  // ---- The shared block and the two programs' local state ----

  /** CommSharedMem.  The flags only ever hold 0 and 1. */
  datatype Mail = Mail(flag1: bool, flag2: bool, occupied: bool,
                       request: int, mapId: int, key: int, response: u64)

  /** Position of a GPU thread in the helper-call sequence. */
  datatype Pc =
    | StoreKey      // copy the key into the block, before taking the lock
    | Header        // head of the 32-round loop
    | Spin          // compare-and-swap on occupy_flag
    | StoreRequest  // request_id
    | StoreMap      // map_id
    | Raise         // flag1 := 1
    | Await         // spin until flag2 != 0
    | Consume       // flag2 := 0
    | Fetch         // read the response
    | Release       // occupy_flag := 0
    | Barrier       // bar.warp.sync; after the last round the call returns and the next one begins
    | Done          // no more calls

  /** A helper call as the program makes it. */
  datatype Call = Call(req: int, mapId: int, key: int)

  /** The call a thread is in and those it has yet to make.  History: `ticket`, the index of the
      request of this call, or -1, and `past`, the tickets of the calls that returned. */
  datatype Lane = Lane(pc: Pc, round: nat, req: int, mapId: int, key: int, rest: seq<Call>,
                       result: u64, ticket: int, past: seq<int>)

  datatype HostPc = Poll | Acknowledge | TakeRequest | TakeMap | Reply | Signal

  datatype Host = Host(pc: HostPc, req: int, mapId: int)

  /** History of raised requests and of the host's answers, in order. */
  datatype Request = Request(lane: nat, call: int, req: int, mapId: int, key: int)
  datatype Answer = Answer(req: int, mapId: int, key: int, outcome: u64, value: u64)

  /** `holder` is a history variable: the thread whose compare-and-swap succeeded last and has
      not released since, or -1. */
  datatype State = State(lanes: seq<Lane>, host: Host, mail: Mail, holder: int,
                         raised: seq<Request>, served: seq<Answer>)

  // ---- What the watcher writes and what the helpers read back ----

  /** Request ids whose answer fills the whole 8-byte response. */
  predicate Wide(req: int) { req == 1 || req == 14 }

  /** Request ids whose answer is a C int: the low four bytes of the response. */
  predicate Narrow(req: int) { req == 2 || req == 3 || req == 6 || req == 501 }

  /** The response block after the watcher handled `req`; an unknown id writes nothing. */
  function Stored(old_: u64, req: int, outcome: u64): u64 {
    if Wide(req) then outcome
    else if Narrow(req) then old_ - old_ % TWO32 + outcome % TWO32
    else old_
  }

  /** What a helper hands to the eBPF program: all 8 bytes, or the sign-extended low half. */
  function Delivered(req: int, response: u64): i64 {
    if Narrow(req) then ToI32(response) else ToI64(response)
  }

  /** The value the host computed, as that helper's result type. */
  function Computed(req: int, outcome: u64): i64 {
    if Narrow(req) then ToI32(outcome) else ToI64(outcome)
  }

  /** A helper delivers what the host computed for it, whatever was in the block before,
      exactly for the request ids the watcher knows. */
  lemma DeliveredIffKnown(req: int)
    ensures (forall before: u64, outcome: u64 ::
               Delivered(req, Stored(before, req, outcome)) == Computed(req, outcome))
            <==> Wide(req) || Narrow(req)
  {
    if Narrow(req) {
      forall before: u64, outcome: u64
        ensures Delivered(req, Stored(before, req, outcome)) == Computed(req, outcome)
      {
        LowHalf(before, outcome);
      }
    } else if !Wide(req) {
      assert Delivered(req, Stored(0, req, 1)) != Computed(req, 1);
    }
  }

  lemma LowHalf(before: u64, outcome: u64)
    ensures ToI32(before - before % TWO32 + outcome % TWO32) == ToI32(outcome)
  {
    var h := before / TWO32;
    assert before - before % TWO32 == TWO32 * h;
    var q := outcome / TWO32;
    assert outcome == TWO32 * q + outcome % TWO32;
    var t := (outcome % TWO32 + TWO31) / TWO32;
    var m := (outcome % TWO32 + TWO31) % TWO32;
    QuotientUnique(outcome + TWO31, TWO32, q + t, m);
    QuotientUnique(TWO32 * h + outcome % TWO32 + TWO31, TWO32, h + t, m);
  }

  // ---- Actions ----

  /** `Gpu(i, go)`: thread i makes its next access; `go` is used only at the loop head (take
      the critical section this round) and at the barrier (start another round).
      `HostStep(outcome)`: the watcher makes its next access; `outcome` is used only at Reply. */
  datatype Action = Gpu(i: nat, go: bool) | HostStep(outcome: u64)

  predicate Legal(s: State, a: Action) { a.Gpu? ==> a.i < |s.lanes| }

  /** A compare-and-swap on a taken lock and a poll of a clear flag change nothing. */
  predicate Stuck(l: Lane, m: Mail) {
    l.pc.Done? || (l.pc.Spin? && m.occupied) || (l.pc.Await? && !m.flag2)
  }

  function NextPc(l: Lane, go: bool): Pc {
    match l.pc
    case StoreKey => Header
    case Header => if go then Spin else Barrier
    case Spin => StoreRequest
    case StoreRequest => StoreMap
    case StoreMap => Raise
    case Raise => Await
    case Await => Consume
    case Consume => Fetch
    case Fetch => Release
    case Release => Barrier
    case Barrier => if go then Header else if l.rest != [] then StoreKey else Done
    case Done => Done
  }

  /** A call returns; the next one, if any, starts afresh. */
  function Returned(l: Lane): Lane {
    if l.rest == [] then l.(pc := Done, past := l.past + [l.ticket])
    else Lane(StoreKey, 0, l.rest[0].req, l.rest[0].mapId, l.rest[0].key, l.rest[1..],
              l.result, -1, l.past + [l.ticket])
  }

  function NextLane(l: Lane, m: Mail, ticket: nat, go: bool): Lane {
    if Stuck(l, m) then l
    else if l.pc.Barrier? && !go then Returned(l)
    else l.(pc := NextPc(l, go),
            round := if l.pc.Barrier? then l.round + 1 else l.round,
            result := if l.pc.Fetch? then m.response else l.result,
            ticket := if l.pc.Raise? then ticket else l.ticket)
  }

  function NextMail(l: Lane, m: Mail): Mail {
    Mail(m.flag1 || l.pc.Raise?,
         m.flag2 && !l.pc.Consume?,
         (m.occupied || l.pc.Spin?) && !l.pc.Release?,
         if l.pc.StoreRequest? then l.req else m.request,
         if l.pc.StoreMap? then l.mapId else m.mapId,
         if l.pc.StoreKey? then l.key else m.key,
         m.response)
  }

  /** Which of its calls a thread is in, or was in last. */
  function Number(l: Lane): int { if l.pc.Done? then |l.past| - 1 else |l.past| }

  /** The request a thread raises in that call. */
  function RequestOf(i: nat, l: Lane): Request { Request(i, Number(l), l.req, l.mapId, l.key) }

  function GpuStep(s: State, i: nat, go: bool): State
    requires i < |s.lanes|
  {
    var l := s.lanes[i];
    State(s.lanes[i := NextLane(l, s.mail, |s.raised|, go)],
          s.host,
          NextMail(l, s.mail),
          if l.pc.Spin? && !s.mail.occupied then i else if l.pc.Release? then -1 else s.holder,
          if l.pc.Raise? then s.raised + [RequestOf(i, l)] else s.raised,
          s.served)
  }

  function NextHost(h: Host, m: Mail): Host {
    match h.pc
    case Poll => if m.flag1 then Host(Acknowledge, h.req, h.mapId) else h
    case Acknowledge => Host(TakeRequest, h.req, h.mapId)
    case TakeRequest => Host(TakeMap, m.request, h.mapId)
    case TakeMap => Host(Reply, h.req, m.mapId)
    case Reply => Host(Signal, h.req, h.mapId)
    case Signal => Host(Poll, h.req, h.mapId)
  }

  function HostMove(s: State, outcome: u64): State {
    var h, m := s.host, s.mail;
    var v := if h.pc.Reply? then Stored(m.response, h.req, outcome) else m.response;
    State(s.lanes, NextHost(h, m),
          Mail(m.flag1 && !h.pc.Acknowledge?, m.flag2 || h.pc.Signal?, m.occupied,
               m.request, m.mapId, m.key, v),
          s.holder, s.raised,
          if h.pc.Reply? then s.served + [Answer(h.req, h.mapId, m.key, outcome, v)] else s.served)
  }

  function Apply(s: State, a: Action): State
    requires Legal(s, a)
  {
    match a
    case Gpu(i, go) => GpuStep(s, i, go)
    case HostStep(outcome) => HostMove(s, outcome)
  }

  /** All states of a run, one action after another. */
  predicate LegalRun(n: nat, acts: seq<Action>) {
    forall k :: 0 <= k < |acts| && acts[k].Gpu? ==> acts[k].i < n
  }

  function Run(s: State, acts: seq<Action>): (r: State)
    requires LegalRun(|s.lanes|, acts)
    ensures |r.lanes| == |s.lanes|
    decreases |acts|
  {
    if acts == [] then s else Run(Apply(s, acts[0]), acts[1..])
  }

  /** Every thread before its first access, the block zeroed, the watcher polling. */
  predicate Initial(s: State) {
    && (forall i :: 0 <= i < |s.lanes| ==>
          s.lanes[i].pc == StoreKey && s.lanes[i].round == 0 &&
          s.lanes[i].ticket == -1 && s.lanes[i].past == [])
    && s.host.pc == Poll
    && !s.mail.flag1 && !s.mail.flag2 && !s.mail.occupied && s.mail.response == 0
    && s.holder == -1 && s.raised == [] && s.served == []
  }

  // ---- The invariant ----

  /** The thread holds occupy_flag. */
  predicate Holding(pc: Pc) {
    pc.StoreRequest? || pc.StoreMap? || pc.Raise? || pc.Await? || pc.Consume? || pc.Fetch? || pc.Release?
  }

  /** The thread has raised a request and not yet read its answer. */
  predicate Waiting(pc: Pc) { pc.Await? || pc.Consume? || pc.Fetch? }

  /** The watcher has seen flag1 and has not yet answered. */
  predicate Serving(pc: HostPc) { pc.TakeRequest? || pc.TakeMap? || pc.Reply? }

  predicate LaneOk(s: State, i: nat)
    requires i < |s.lanes|
  {
    var l := s.lanes[i];
    && -1 <= l.ticket < |s.raised|
    && (l.ticket >= 0 ==> s.raised[l.ticket] == RequestOf(i, l))
    && (Holding(l.pc) <==> s.holder == i)
    && (!Waiting(l.pc) && l.ticket >= 0 ==> l.ticket < |s.served| && l.result == s.served[l.ticket].value)
    && (Waiting(l.pc) ==> 0 <= l.ticket == |s.raised| - 1)
    && (l.pc.StoreMap? || l.pc.Raise? ==> s.mail.request == l.req)
    && (l.pc.Raise? ==> s.mail.mapId == l.mapId)
    && (l.pc.Await? ==> s.mail.flag1 || s.mail.flag2 || !s.host.pc.Poll?)
    && (l.pc.Consume? ==> s.mail.flag2)
    && (l.pc.Fetch? ==> |s.served| == |s.raised|)
  }

  predicate LanesOk(s: State) {
    && -1 <= s.holder < |s.lanes|
    && (s.mail.occupied <==> s.holder >= 0)
    && (forall i :: 0 <= i < |s.lanes| ==> LaneOk(s, i))
  }

  predicate HostOk(s: State) {
    var open := s.mail.flag1 || Serving(s.host.pc);
    && |s.raised| == |s.served| + (if open then 1 else 0)
    && (s.mail.flag1 ==> s.host.pc.Poll? || s.host.pc.Acknowledge?)
    && (s.host.pc.Acknowledge? ==> s.mail.flag1)
    && (s.mail.flag2 ==> s.host.pc.Poll? && !s.mail.flag1)
    && (open ==> var r := s.raised[|s.raised| - 1];
                 s.mail.request == r.req && s.mail.mapId == r.mapId
                 && (s.host.pc.TakeMap? || s.host.pc.Reply? ==> s.host.req == r.req)
                 && (s.host.pc.Reply? ==> s.host.mapId == r.mapId))
    && (open || s.host.pc.Signal? || s.mail.flag2 ==>
          s.raised != []
          && var o := s.raised[|s.raised| - 1].lane;
          o < |s.lanes| && (s.lanes[o].pc.Await? || (s.lanes[o].pc.Consume? && s.mail.flag2)))
  }

  /** Answer k is for request k. */
  predicate LogOk(s: State) {
    && |s.served| <= |s.raised|
    && (forall k :: 0 <= k < |s.served| ==>
          s.served[k].req == s.raised[k].req && s.served[k].mapId == s.raised[k].mapId)
  }

  /** Each answer is what the watcher stored over the previous one. */
  predicate ChainOk(s: State) {
    && (forall k :: 0 <= k < |s.served| ==>
          s.served[k].value == Stored(Before(s.served, k), s.served[k].req, s.served[k].outcome))
    && s.mail.response == Before(s.served, |s.served|)
  }

  /** The response block just before answer k was written. */
  function Before(served: seq<Answer>, k: nat): u64
    requires k <= |served|
  {
    if k == 0 then 0 else served[k - 1].value
  }

  predicate Inv(s: State) { LanesOk(s) && HostOk(s) && LogOk(s) && ChainOk(s) }

  lemma InvLog(s: State)
    requires Inv(s)
    ensures LogOk(s)
  {
  }

  lemma InitialInv(s: State)
    requires Initial(s)
    ensures Inv(s)
  {
  }

  lemma GpuKeepsOwnLane(s: State, i: nat, go: bool)
    requires i < |s.lanes| && LaneOk(s, i) && HostOk(s)
    requires s.mail.response == Before(s.served, |s.served|)
    requires s.mail.occupied <==> s.holder >= 0
    ensures LaneOk(GpuStep(s, i, go), i)
  {
    var t := GpuStep(s, i, go);
    assert t.lanes[i] == NextLane(s.lanes[i], s.mail, |s.raised|, go);
  }

  lemma GpuKeepsOtherLane(s: State, i: nat, go: bool, j: nat)
    requires i < |s.lanes| && j < |s.lanes| && i != j
    requires LaneOk(s, i) && LaneOk(s, j) && HostOk(s)
    requires s.mail.occupied <==> s.holder >= 0
    ensures LaneOk(GpuStep(s, i, go), j)
  {
    var t := GpuStep(s, i, go);
    assert t.lanes[j] == s.lanes[j];
    if Holding(s.lanes[i].pc) {
      assert !Holding(s.lanes[j].pc);
    }
  }

  lemma GpuKeepsLanes(s: State, i: nat, go: bool)
    requires Inv(s) && i < |s.lanes|
    ensures LanesOk(GpuStep(s, i, go))
  {
    var t := GpuStep(s, i, go);
    assert LaneOk(s, i);
    GpuKeepsOwnLane(s, i, go);
    forall j | 0 <= j < |t.lanes| && j != i
      ensures LaneOk(t, j)
    {
      assert LaneOk(s, j);
      GpuKeepsOtherLane(s, i, go, j);
    }
  }

  /** The thread whose request is the latest one. */
  predicate LatestOk(s: State) {
    s.raised != [] ==>
      var o := s.raised[|s.raised| - 1].lane;
      o < |s.lanes| ==> LaneOk(s, o)
  }

  lemma GpuKeepsHost(s: State, i: nat, go: bool)
    requires i < |s.lanes| && HostOk(s) && LaneOk(s, i) && LatestOk(s)
    ensures HostOk(GpuStep(s, i, go))
  {
    var t := GpuStep(s, i, go);
    if Holding(s.lanes[i].pc) && s.raised != [] && s.raised[|s.raised| - 1].lane != i {
      assert !s.mail.flag1 && !s.mail.flag2 && s.host.pc.Poll?;
    }
  }

  lemma GpuKeepsLogs(s: State, i: nat, go: bool)
    requires LogOk(s) && ChainOk(s) && i < |s.lanes|
    ensures LogOk(GpuStep(s, i, go)) && ChainOk(GpuStep(s, i, go))
  {
    var t := GpuStep(s, i, go);
    assert t.served == s.served && t.mail.response == s.mail.response;
    assert s.raised <= t.raised;
  }

  lemma HostKeepsLanes(s: State, outcome: u64)
    requires Inv(s)
    ensures LanesOk(HostMove(s, outcome))
  {
    var t := HostMove(s, outcome);
    assert t.lanes == s.lanes;
    forall j | 0 <= j < |t.lanes|
      ensures LaneOk(t, j)
    {
      assert LaneOk(s, j);
    }
  }

  lemma HostKeepsHost(s: State, outcome: u64)
    requires HostOk(s) && LogOk(s)
    ensures HostOk(HostMove(s, outcome)) && LogOk(HostMove(s, outcome))
  {
  }

  lemma HostKeepsChain(s: State, outcome: u64)
    requires ChainOk(s)
    ensures ChainOk(HostMove(s, outcome))
  {
    var t := HostMove(s, outcome);
    forall k | 0 <= k < |t.served|
      ensures t.served[k].value == Stored(Before(t.served, k), t.served[k].req, t.served[k].outcome)
    {
      if k < |s.served| {
        assert Before(t.served, k) == Before(s.served, k);
      }
    }
  }

  lemma StepKeepsInv(s: State, a: Action)
    requires Inv(s) && Legal(s, a)
    ensures Inv(Apply(s, a))
  {
    match a
    case Gpu(i, go) =>
      assert LaneOk(s, i);
      if s.raised != [] && s.raised[|s.raised| - 1].lane < |s.lanes| {
        assert LaneOk(s, s.raised[|s.raised| - 1].lane);
      }
      GpuKeepsLanes(s, i, go);
      GpuKeepsHost(s, i, go);
      GpuKeepsLogs(s, i, go);
    case HostStep(outcome) =>
      HostKeepsLanes(s, outcome);
      HostKeepsHost(s, outcome);
      HostKeepsChain(s, outcome);
  }

  /** What every action keeps, every run keeps. */
  lemma {:induction false} RunKeeps(p: State -> bool, s: State, acts: seq<Action>)
    requires p(s) && LegalRun(|s.lanes|, acts)
    requires forall t, a :: p(t) && Legal(t, a) ==> p(Apply(t, a))
    ensures p(Run(s, acts))
    decreases |acts|
  {
    if acts != [] {
      assert Legal(s, acts[0]);
      RunKeeps(p, Apply(s, acts[0]), acts[1..]);
    }
  }

  lemma RunKeepsInv(s: State, acts: seq<Action>)
    requires Inv(s) && LegalRun(|s.lanes|, acts)
    ensures Inv(Run(s, acts))
  {
    forall t, a | Inv(t) && Legal(t, a)
      ensures Inv(Apply(t, a))
    {
      StepKeepsInv(t, a);
    }
    RunKeeps(Inv, s, acts);
  }

  // ---- Safety of every run ----

  /** At most one thread holds the mailbox. */
  predicate Exclusive(s: State) {
    forall i, j :: (0 <= i < |s.lanes| && 0 <= j < |s.lanes|
                    && Holding(s.lanes[i].pc) && Holding(s.lanes[j].pc)) ==> i == j
  }

  /** Request k is answered by answer k and by no other; at most the latest one is still open. */
  predicate ServedOnce(s: State) {
    && |s.served| <= |s.raised| <= |s.served| + 1
    && (forall k :: 0 <= k < |s.served| ==>
          s.served[k].req == s.raised[k].req && s.served[k].mapId == s.raised[k].mapId)
  }

  /** A thread that raised a request and is past reading its answer has, in its result, the
      answer to its own latest request, computed for the request id and map id it wrote. */
  predicate OwnAnswers(s: State) {
    forall i :: 0 <= i < |s.lanes| && s.lanes[i].ticket >= 0 && !Waiting(s.lanes[i].pc) ==>
      var l := s.lanes[i];
      && l.ticket < |s.raised| && l.ticket < |s.served|
      && s.raised[l.ticket] == RequestOf(i, l)
      && (Wide(l.req) || Narrow(l.req) ==>
            Delivered(l.req, l.result) == Computed(l.req, s.served[l.ticket].outcome))
  }

  lemma InvExclusive(s: State)
    requires Inv(s)
    ensures Exclusive(s)
  {
    forall i | 0 <= i < |s.lanes| && Holding(s.lanes[i].pc)
      ensures i == s.holder
    {
      assert LaneOk(s, i);
    }
  }

  lemma InvOwnAnswer(s: State, i: nat)
    requires Inv(s) && i < |s.lanes| && s.lanes[i].ticket >= 0 && !Waiting(s.lanes[i].pc)
    ensures var l := s.lanes[i];
            && l.ticket < |s.raised| && l.ticket < |s.served|
            && s.raised[l.ticket] == RequestOf(i, l)
            && (Wide(l.req) || Narrow(l.req) ==>
                  Delivered(l.req, l.result) == Computed(l.req, s.served[l.ticket].outcome))
  {
    assert LaneOk(s, i);
    var k := s.lanes[i].ticket;
    assert s.served[k].value == Stored(Before(s.served, k), s.served[k].req, s.served[k].outcome);
    DeliveredIffKnown(s.lanes[i].req);
  }

  /** For any number of threads, any interleaving with the host and any answers of the host. */
  lemma MailboxSafety(s0: State, acts: seq<Action>)
    requires Initial(s0) && LegalRun(|s0.lanes|, acts)
    ensures Exclusive(Run(s0, acts))
    ensures ServedOnce(Run(s0, acts))
    ensures OwnAnswers(Run(s0, acts))
  {
    InitialInv(s0);
    RunKeepsInv(s0, acts);
    var s := Run(s0, acts);
    InvExclusive(s);
    forall i | 0 <= i < |s.lanes| && s.lanes[i].ticket >= 0 && !Waiting(s.lanes[i].pc)
      ensures var l := s.lanes[i];
              && l.ticket < |s.raised| && l.ticket < |s.served|
              && s.raised[l.ticket] == RequestOf(i, l)
              && (Wide(l.req) || Narrow(l.req) ==>
                    Delivered(l.req, l.result) == Computed(l.req, s.served[l.ticket].outcome))
    {
      InvOwnAnswer(s, i);
    }
  }

  // ---- Keys are copied outside the lock ----

  /** Every answer was computed from the key of the thread that asked. */
  predicate KeysMatch(s: State) {
    forall k :: 0 <= k < |s.served| ==> k < |s.raised| && s.served[k].key == s.raised[k].key
  }

  /** The keys of the calls a thread is in or has yet to make. */
  function Keys(l: Lane): set<int> { {l.key} + set c | c in l.rest :: c.key }

  /** No two threads ever ask with different keys. */
  predicate SameKeys(s: State) {
    forall i, j :: 0 <= i < |s.lanes| && 0 <= j < |s.lanes| && i != j ==>
      forall a, b :: a in Keys(s.lanes[i]) && b in Keys(s.lanes[j]) ==> a == b
  }

  /** The host uses the asker's own key in every run exactly when no two threads ask with different
      keys: copying the key before taking the lock lets any other thread's key slip in. */
  lemma OwnKeyIffSameKeys(s0: State)
    requires Initial(s0)
    ensures (forall acts :: LegalRun(|s0.lanes|, acts) ==> KeysMatch(Run(s0, acts))) <==> SameKeys(s0)
  {
    if SameKeys(s0) {
      forall acts | LegalRun(|s0.lanes|, acts)
        ensures KeysMatch(Run(s0, acts))
      {
        SameKeysMatch(s0, acts);
      }
    } else {
      var i, j, a, b :| 0 <= i < |s0.lanes| && 0 <= j < |s0.lanes| && i != j
                        && a in Keys(s0.lanes[i]) && b in Keys(s0.lanes[j]) && a != b;
      var acts := KeySwapped(s0, i, j, a, b);
    }
  }

  /** A thread past copying its key finds it in the block. */
  predicate KeyInv(s: State) {
    && SameKeys(s) && KeysMatch(s)
    && (forall i :: 0 <= i < |s.lanes| && !s.lanes[i].pc.StoreKey? ==> s.mail.key == s.lanes[i].key)
  }

  lemma SameKeysMatch(s0: State, acts: seq<Action>)
    requires Initial(s0) && SameKeys(s0) && LegalRun(|s0.lanes|, acts)
    ensures KeysMatch(Run(s0, acts))
  {
    InitialInv(s0);
    forall t, a | (Inv(t) && KeyInv(t)) && Legal(t, a)
      ensures Inv(Apply(t, a)) && KeyInv(Apply(t, a))
    {
      StepKeepsKey(t, a);
      StepKeepsInv(t, a);
    }
    RunKeeps(t => Inv(t) && KeyInv(t), s0, acts);
  }

  /** A thread's keys only ever become fewer. */
  lemma KeysShrink(l: Lane, m: Mail, ticket: nat, go: bool)
    ensures Keys(NextLane(l, m, ticket, go)) <= Keys(l)
  {
  }

  lemma GpuKeepsSame(s: State, i: nat, go: bool)
    requires SameKeys(s) && i < |s.lanes|
    ensures SameKeys(GpuStep(s, i, go))
  {
    hide Keys, NextLane;
    KeysShrink(s.lanes[i], s.mail, |s.raised|, go);
  }

  lemma GpuKeepsKey(s: State, i: nat, go: bool)
    requires LogOk(s) && KeyInv(s) && i < |s.lanes|
    ensures KeyInv(GpuStep(s, i, go))
  {
    var t := GpuStep(s, i, go);
    GpuKeepsSame(s, i, go);
    forall j | 0 <= j < |t.lanes| && !t.lanes[j].pc.StoreKey? ensures t.mail.key == t.lanes[j].key {
      if j != i {
        assert s.lanes[i].key in Keys(s.lanes[i]) && s.lanes[j].key in Keys(s.lanes[j]);
      }
    }
  }

  lemma HostKeepsKey(s: State, outcome: u64)
    requires Inv(s) && KeyInv(s)
    ensures KeyInv(HostMove(s, outcome))
  {
    hide Keys, ChainOk;
    if s.host.pc.Reply? {
      var o := s.raised[|s.raised| - 1].lane;
      assert LaneOk(s, o) && s.lanes[o].pc.Await?;
    }
  }

  lemma StepKeepsKey(s: State, a: Action)
    requires Inv(s) && KeyInv(s) && Legal(s, a)
    ensures KeyInv(Apply(s, a))
  {
    hide Inv, KeyInv, GpuStep, HostMove;
    if a.Gpu? {
      assert LogOk(s) by { InvLog(s); }
      GpuKeepsKey(s, a.i, a.go);
    } else {
      HostKeepsKey(s, a.outcome);
    }
  }

  lemma {:induction false} RunSnoc(s: State, acts: seq<Action>, a: Action)
    requires LegalRun(|s.lanes|, acts) && Legal(s, a)
    ensures LegalRun(|s.lanes|, acts + [a])
    ensures Run(s, acts + [a]) == Apply(Run(s, acts), a)
    decreases |acts|
  {
    if acts != [] {
      RunSnoc(Apply(s, acts[0]), acts[1..], a);
      assert (acts + [a])[1..] == acts[1..] + [a];
    } else {
      assert [a][1..] == [];
    }
  }

  lemma Extend(s0: State, acts: seq<Action>, s: State, a: Action) returns (acts': seq<Action>, s': State)
    requires LegalRun(|s0.lanes|, acts) && s == Run(s0, acts) && Legal(s0, a)
    ensures LegalRun(|s0.lanes|, acts') && s' == Run(s0, acts') && Legal(s, a) && s' == Apply(s, a)
  {
    RunSnoc(s0, acts, a);
    acts', s' := acts + [a], Apply(s, a);
  }

  /** Nothing is under way in the block. */
  predicate Quiet(s: State) {
    !s.mail.flag1 && !s.mail.occupied && s.host.pc.Poll? && s.served == [] && s.raised == []
  }

  /** Thread i, about to start a call, comes to one with the given key, without taking the lock. */
  lemma {:induction false} AdvanceTo(s0: State, acts: seq<Action>, s: State, i: nat, key: int)
      returns (acts': seq<Action>, s': State)
    requires LegalRun(|s0.lanes|, acts) && s == Run(s0, acts) && |s.lanes| == |s0.lanes| && i < |s.lanes|
    requires Quiet(s) && s.lanes[i].pc.StoreKey? && key in Keys(s.lanes[i])
    ensures LegalRun(|s0.lanes|, acts') && s' == Run(s0, acts') && |s'.lanes| == |s.lanes|
    ensures Quiet(s') && s'.lanes[i].pc.StoreKey? && s'.lanes[i].key == key
    ensures forall j :: 0 <= j < |s.lanes| && j != i ==> s'.lanes[j] == s.lanes[j]
    decreases |s.lanes[i].rest|
  {
    hide Run, LegalRun;
    acts', s' := acts, s;
    if s.lanes[i].key != key {
      acts', s' := SkipCall(s0, acts, s, i);
      acts', s' := AdvanceTo(s0, acts', s', i, key);
    }
  }

  lemma SkipCall(s0: State, acts: seq<Action>, s: State, i: nat) returns (acts': seq<Action>, s': State)
    requires LegalRun(|s0.lanes|, acts) && s == Run(s0, acts) && |s.lanes| == |s0.lanes| && i < |s.lanes|
    requires Quiet(s) && s.lanes[i].pc.StoreKey?
    ensures LegalRun(|s0.lanes|, acts') && s' == Run(s0, acts')
    ensures Quiet(s') && s'.lanes == s.lanes[i := Returned(s.lanes[i].(pc := Barrier))]
  {
    hide Run, LegalRun;
    acts', s' := acts, s;
    acts', s' := Extend(s0, acts', s', Gpu(i, false));
    acts', s' := Extend(s0, acts', s', Gpu(i, false));
    acts', s' := Extend(s0, acts', s', Gpu(i, false));
  }

  /** Thread i copies its key, thread j overwrites it, and i takes the lock. */
  lemma LockOverOtherKey(s0: State, before: seq<Action>, s1: State, i: nat, j: nat)
      returns (acts: seq<Action>, s: State)
    requires LegalRun(|s0.lanes|, before) && s1 == Run(s0, before) && |s1.lanes| == |s0.lanes|
    requires i < |s1.lanes| && j < |s1.lanes| && i != j
    requires Quiet(s1) && s1.lanes[i].pc.StoreKey? && s1.lanes[j].pc.StoreKey?
    ensures LegalRun(|s0.lanes|, acts) && s == Run(s0, acts) && |s.lanes| == |s0.lanes|
    ensures !s.mail.flag1 && s.host.pc.Poll? && s.served == [] && s.raised == []
    ensures s.mail.key == s1.lanes[j].key
    ensures s.lanes[i].pc.StoreRequest? && s.lanes[i].key == s1.lanes[i].key
  {
    acts, s := before, s1;
    acts, s := Extend(s0, acts, s, Gpu(i, true));
    acts, s := Extend(s0, acts, s, Gpu(j, true));
    acts, s := Extend(s0, acts, s, Gpu(i, true));
    assert s.lanes[i].pc.Spin?;
    acts, s := Extend(s0, acts, s, Gpu(i, true));
  }

  lemma RaiseOverOtherKey(s0: State, before: seq<Action>, s1: State, i: nat, j: nat)
      returns (acts: seq<Action>, s: State)
    requires LegalRun(|s0.lanes|, before) && s1 == Run(s0, before) && |s1.lanes| == |s0.lanes|
    requires i < |s1.lanes| && j < |s1.lanes| && i != j
    requires Quiet(s1) && s1.lanes[i].pc.StoreKey? && s1.lanes[j].pc.StoreKey?
    ensures LegalRun(|s0.lanes|, acts) && s == Run(s0, acts) && |s.lanes| == |s0.lanes|
    ensures s.mail.flag1 && s.host.pc.Poll? && s.served == [] && s.mail.key == s1.lanes[j].key
    ensures |s.raised| == 1 && s.raised[0].key == s1.lanes[i].key
  {
    acts, s := LockOverOtherKey(s0, before, s1, i, j);
    acts, s := Extend(s0, acts, s, Gpu(i, true));
    acts, s := Extend(s0, acts, s, Gpu(i, true));
    assert s.lanes[i].pc.Raise?;
    acts, s := Extend(s0, acts, s, Gpu(i, true));
  }

  /** The host answers the request that was raised. */
  lemma ServeFirst(s0: State, before: seq<Action>, s1: State) returns (acts: seq<Action>, s: State)
    requires LegalRun(|s0.lanes|, before) && s1 == Run(s0, before) && |s1.lanes| == |s0.lanes|
    requires s1.mail.flag1 && s1.host.pc.Poll? && s1.served == []
    ensures LegalRun(|s0.lanes|, acts) && s == Run(s0, acts)
    ensures s.raised == s1.raised && |s.served| == 1 && s.served[0].key == s1.mail.key
  {
    acts, s := before, s1;
    acts, s := Extend(s0, acts, s, HostStep(0));
    acts, s := Extend(s0, acts, s, HostStep(0));
    acts, s := Extend(s0, acts, s, HostStep(0));
    acts, s := Extend(s0, acts, s, HostStep(0));
    acts, s := Extend(s0, acts, s, HostStep(0));
  }

  /** Whichever of their calls two threads make with different keys, one can be answered for the
      other's. */
  lemma KeySwapped(s0: State, i: nat, j: nat, a: int, b: int) returns (acts: seq<Action>)
    requires Initial(s0) && i < |s0.lanes| && j < |s0.lanes| && i != j
    requires a in Keys(s0.lanes[i]) && b in Keys(s0.lanes[j]) && a != b
    ensures LegalRun(|s0.lanes|, acts)
    ensures var s := Run(s0, acts); |s.raised| == |s.served| == 1 && s.raised[0].key == a && s.served[0].key == b
  {
    var s := s0;
    acts, s := AdvanceTo(s0, [], s, i, a);
    acts, s := AdvanceTo(s0, acts, s, j, b);
    acts, s := RaiseOverOtherKey(s0, acts, s, i, j);
    acts, s := ServeFirst(s0, acts, s);
  }
}
