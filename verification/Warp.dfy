/**
 The 32-round loop around the mailbox, for converged warps.

 In round r only the thread whose lane is r takes the critical section; every other active
 thread of its warp goes straight to the warp barrier, which opens when all of them arrived.
 Every converged run is a run of Mailbox.dfy, so MailboxSafety holds of it.
 */
module Warp {
  import opened Words
  import opened Mailbox

  const ROUNDS: nat := 32

  /** Warp and lane (tid.x & 31) of every active thread. */
  datatype Grid = Grid(warp: seq<nat>, lane: seq<nat>)

  /** The lane number is the hardware lane: no two threads of a warp share one. */
  predicate GridOk(g: Grid, n: nat) {
    && |g.warp| == n && |g.lane| == n
    && (forall i :: 0 <= i < n ==> g.lane[i] < ROUNDS)
    && (forall i, j :: 0 <= i < n && 0 <= j < n && g.warp[i] == g.warp[j] && g.lane[i] == g.lane[j] ==> i == j)
  }

  /** bar.warp.sync in thread i's round: all threads of its warp that still call helpers got there. */
  predicate Arrived(g: Grid, s: State, i: nat)
    requires |g.warp| == |s.lanes| && i < |s.lanes|
  {
    forall j :: 0 <= j < |s.lanes| && g.warp[j] == g.warp[i] ==> Past(s.lanes[j], Turn(s.lanes[i]))
  }

  /** Rounds are counted through all of a thread's calls. */
  function Turn(l: Lane): nat { ROUNDS * |l.past| + l.round }

  predicate Past(l: Lane, turn: nat) {
    l.pc.Done? || Turn(l) > turn || (Turn(l) == turn && l.pc.Barrier?)
  }

  /** The actions of a converged warp: the thread's own bit is always set in activemask. */
  predicate Converged(g: Grid, s: State, a: Action)
    requires GridOk(g, |s.lanes|)
  {
    && Legal(s, a)
    && (a.Gpu? && s.lanes[a.i].pc.Header? ==> (a.go <==> g.lane[a.i] == s.lanes[a.i].round))
    && (a.Gpu? && s.lanes[a.i].pc.Barrier? ==> Arrived(g, s, a.i) && (a.go <==> s.lanes[a.i].round + 1 < ROUNDS))
  }

  predicate ConvergedRun(g: Grid, s: State, acts: seq<Action>)
    requires GridOk(g, |s.lanes|)
    decreases |acts|
  {
    acts != [] ==>
      Converged(g, s, acts[0]) && ConvergedRun(g, Apply(s, acts[0]), acts[1..])
  }

  lemma {:induction false} ConvergedIsLegal(g: Grid, s: State, acts: seq<Action>)
    requires GridOk(g, |s.lanes|) && ConvergedRun(g, s, acts)
    ensures LegalRun(|s.lanes|, acts)
    decreases |acts|
  {
    if acts != [] {
      ConvergedIsLegal(g, Apply(s, acts[0]), acts[1..]);
      forall k | 0 <= k < |acts| && acts[k].Gpu?
        ensures acts[k].i < |s.lanes|
      {
        if k > 0 {
          assert acts[k] == acts[1..][k - 1];
        }
      }
    }
  }

  /** What every action of a converged warp keeps, every converged run keeps. */
  lemma {:induction false} ConvergedRunKeeps(g: Grid, p: State -> bool, s: State, acts: seq<Action>)
    requires GridOk(g, |s.lanes|) && ConvergedRun(g, s, acts) && LegalRun(|s.lanes|, acts) && p(s)
    requires forall t: State, a :: |t.lanes| == |s.lanes| && p(t) && Converged(g, t, a) ==> p(Apply(t, a))
    ensures p(Run(s, acts))
    decreases |acts|
  {
    if acts != [] {
      ConvergedRunKeeps(g, p, Apply(s, acts[0]), acts[1..]);
    }
  }

  // ---- Each call asks exactly once ----

  predicate TurnOk(lane: nat, l: Lane) {
    && l.round < ROUNDS && l.ticket >= -1 && (l.pc.Done? ==> l.past != [] && l.rest == [])
    && match l.pc
       case StoreKey => l.round == 0 && l.ticket == -1
       case Header => l.ticket >= 0 <==> l.round > lane
       case Spin | StoreRequest | StoreMap | Raise => l.round == lane && l.ticket == -1
       case Await | Consume | Fetch | Release => l.round == lane && l.ticket >= 0
       case Barrier => l.ticket >= 0 <==> l.round >= lane
       case Done => l.ticket >= 0 && l.past[|l.past| - 1] == l.ticket
  }

  /** The ticket of a thread's call c, or -1 if it has not asked. */
  function TicketOf(l: Lane, c: int): int {
    if 0 <= c < |l.past| then l.past[c] else if c == |l.past| && !l.pc.Done? then l.ticket else -1
  }

  /** Request k was made by its thread in its call, and a call that returned made one. */
  predicate AskedOk(s: State, k: nat)
    requires k < |s.raised|
  {
    && s.raised[k].lane < |s.lanes|
    && TicketOf(s.lanes[s.raised[k].lane], s.raised[k].call) == k
  }

  predicate PastOk(s: State, i: nat)
    requires i < |s.lanes|
  {
    forall c :: 0 <= c < |s.lanes[i].past| ==>
      0 <= s.lanes[i].past[c] < |s.served| && s.lanes[i].past[c] < |s.raised|
      && s.raised[s.lanes[i].past[c]].lane == i && s.raised[s.lanes[i].past[c]].call == c
  }

  predicate TurnsOk(g: Grid, s: State)
    requires |g.lane| == |s.lanes|
  {
    && (forall i :: 0 <= i < |s.lanes| ==> TurnOk(g.lane[i], s.lanes[i]) && PastOk(s, i))
    && (forall k :: 0 <= k < |s.raised| ==> AskedOk(s, k))
  }

  lemma OwnTurn(g: Grid, s: State, i: nat, go: bool)
    requires GridOk(g, |s.lanes|) && i < |s.lanes| && TurnOk(g.lane[i], s.lanes[i])
    requires Converged(g, s, Gpu(i, go))
    ensures TurnOk(g.lane[i], GpuStep(s, i, go).lanes[i])
  {
  }

  /** A thread's own step keeps the tickets of its calls, apart from the one it raises. */
  lemma OwnTickets(lane: nat, l: Lane, m: Mail, ticket: nat, go: bool, c: int)
    requires TurnOk(lane, l)
    ensures TicketOf(l, c) >= 0 ==> TicketOf(NextLane(l, m, ticket, go), c) == TicketOf(l, c)
    ensures l.pc.Raise? ==> TicketOf(NextLane(l, m, ticket, go), |l.past|) == ticket
  {
  }

  lemma OwnPast(g: Grid, s: State, i: nat, go: bool)
    requires GridOk(g, |s.lanes|) && i < |s.lanes| && TurnOk(g.lane[i], s.lanes[i])
    requires LaneOk(s, i) && PastOk(s, i) && Converged(g, s, Gpu(i, go))
    ensures PastOk(GpuStep(s, i, go), i)
  {
    var l, t := s.lanes[i], GpuStep(s, i, go);
    forall c | 0 <= c < |t.lanes[i].past|
      ensures 0 <= t.lanes[i].past[c] < |t.served| && t.lanes[i].past[c] < |t.raised|
              && t.raised[t.lanes[i].past[c]].lane == i && t.raised[t.lanes[i].past[c]].call == c
    {
      if c < |l.past| {
        assert t.lanes[i].past[c] == l.past[c];
      }
    }
  }

  lemma GpuKeepsAsked(g: Grid, s: State, i: nat, go: bool)
    requires GridOk(g, |s.lanes|) && TurnsOk(g, s) && i < |s.lanes|
    ensures forall k :: 0 <= k < |GpuStep(s, i, go).raised| ==> AskedOk(GpuStep(s, i, go), k)
  {
    hide NextLane, TurnOk, TicketOf, PastOk;
    var l, t := s.lanes[i], GpuStep(s, i, go);
    forall k | 0 <= k < |t.raised| ensures AskedOk(t, k) {
      OwnTickets(g.lane[i], l, s.mail, |s.raised|, go, t.raised[k].call);
      if k < |s.raised| { assert AskedOk(s, k); }
    }
  }

  lemma StepKeepsTurns(g: Grid, s: State, a: Action)
    requires GridOk(g, |s.lanes|) && LanesOk(s) && TurnsOk(g, s) && Converged(g, s, a)
    ensures TurnsOk(g, Apply(s, a))
  {
    hide NextLane, NextHost, NextMail, TurnOk, TicketOf, LaneOk;
    var t := Apply(s, a);
    if a.Gpu? {
      assert LaneOk(s, a.i);
      OwnTurn(g, s, a.i, a.go);
      OwnPast(g, s, a.i, a.go);
      GpuKeepsAsked(g, s, a.i, a.go);
    }
    forall j | 0 <= j < |t.lanes| ensures TurnOk(g.lane[j], t.lanes[j]) && PastOk(t, j) {
      assert TurnOk(g.lane[j], s.lanes[j]) && PastOk(s, j);
    }
    if a.HostStep? {
      forall k | 0 <= k < |t.raised| ensures AskedOk(t, k) { assert AskedOk(s, k); }
    }
  }

  predicate Good(g: Grid, s: State) {
    GridOk(g, |s.lanes|) && Inv(s) && TurnsOk(g, s)
  }

  lemma StepKeepsGood(g: Grid, s: State, a: Action)
    requires Good(g, s) && Converged(g, s, a)
    ensures Good(g, Apply(s, a))
  {
    StepKeepsInv(s, a);
    StepKeepsTurns(g, s, a);
  }

  lemma ReachableGood(g: Grid, s0: State, acts: seq<Action>)
    requires GridOk(g, |s0.lanes|) && Initial(s0) && ConvergedRun(g, s0, acts)
    ensures LegalRun(|s0.lanes|, acts)
    ensures Good(g, Run(s0, acts))
  {
    ConvergedIsLegal(g, s0, acts);
    InitialInv(s0);
    forall t: State, a | |t.lanes| == |s0.lanes| && Good(g, t) && Converged(g, t, a)
      ensures Good(g, Apply(t, a))
    {
      StepKeepsGood(g, t, a);
    }
    ConvergedRunKeeps(g, t => Good(g, t), s0, acts);
  }

  predicate AllDone(s: State) {
    forall i :: 0 <= i < |s.lanes| ==> s.lanes[i].pc.Done?
  }

  /** In every converged run, request k belongs to exactly one call of one thread: `past` holds, for
      every call that returned, the one request it made, which the host served.  No thread that holds
      the lock sits at the warp barrier. */
  lemma OneRequestPerCall(g: Grid, s0: State, acts: seq<Action>)
    requires GridOk(g, |s0.lanes|) && Initial(s0) && ConvergedRun(g, s0, acts)
    ensures LegalRun(|s0.lanes|, acts)
    ensures var s := Run(s0, acts);
            && (forall i, c, k :: 0 <= i < |s.lanes| && 0 <= c < |s.lanes[i].past| && 0 <= k < |s.raised| ==>
                  (s.raised[k].lane == i && s.raised[k].call == c <==> s.lanes[i].past[c] == k))
            && (forall i, c :: 0 <= i < |s.lanes| && 0 <= c < |s.lanes[i].past| ==>
                  0 <= s.lanes[i].past[c] < |s.served|)
            && (s.mail.occupied ==>
                  0 <= s.holder < |s.lanes| && !s.lanes[s.holder].pc.Barrier? && !s.lanes[s.holder].pc.Done?)
  {
    hide Run, LegalRun, ConvergedRun, TurnOk;
    ReachableGood(g, s0, acts);
    var s := Run(s0, acts);
    if s.mail.occupied { assert LaneOk(s, s.holder); }
    forall i, c | 0 <= i < |s.lanes| && 0 <= c < |s.lanes[i].past|
      ensures 0 <= s.lanes[i].past[c] < |s.served|
      ensures forall k :: 0 <= k < |s.raised| ==>
                (s.raised[k].lane == i && s.raised[k].call == c <==> s.lanes[i].past[c] == k)
    {
      assert PastOk(s, i);
      forall k | 0 <= k < |s.raised|
        ensures s.raised[k].lane == i && s.raised[k].call == c <==> s.lanes[i].past[c] == k
      {
        assert AskedOk(s, k);
      }
    }
  }

  // ---- Progress ----

  const PER_CALL: nat := 79

  /** What the thread's own round adds to two accesses a round: eight of its own and the host's six. */
  function Extra(l: Lane): nat {
    match l.pc
    case Spin => 14
    case StoreRequest => 13
    case StoreMap => 12
    case Raise => 11
    case Await => 4
    case Consume => 3
    case Fetch => 2
    case Release => 1
    case _ => 0
  }

  /** Accesses left in the call a thread is in, its own and those the host makes for it. */
  function LeftInCall(lane: nat, l: Lane): nat {
    if l.pc.Done? || l.round >= ROUNDS then 0
    else if l.pc.StoreKey? then PER_CALL
    else if l.pc.Header? then 2 * (ROUNDS - l.round) + (if l.round <= lane then 14 else 0)
    else 2 * (ROUNDS - 1 - l.round) + 1 + (if l.round < lane then 14 else Extra(l))
  }

  /** And in the calls it has yet to make. */
  function Left(lane: nat, l: Lane): nat { LeftInCall(lane, l) + PER_CALL * |l.rest| }

  function Sum(lane: seq<nat>, lanes: seq<Lane>): nat
    requires |lane| == |lanes|
  {
    if lanes == [] then 0 else Left(lane[0], lanes[0]) + Sum(lane[1..], lanes[1..])
  }

  function HostLeft(s: State): nat {
    match s.host.pc
    case Poll => if s.mail.flag1 then 6 else 0
    case Acknowledge => 5
    case TakeRequest => 4
    case TakeMap => 3
    case Reply => 2
    case Signal => 1
  }

  function Work(g: Grid, s: State): nat
    requires |g.lane| == |s.lanes|
  {
    Sum(g.lane, s.lanes) + HostLeft(s)
  }

  lemma {:induction false} SumUpdate(lane: seq<nat>, lanes: seq<Lane>, i: nat, l: Lane)
    requires |lane| == |lanes| && i < |lanes|
    ensures Sum(lane, lanes[i := l]) == Sum(lane, lanes) - Left(lane[i], lanes[i]) + Left(lane[i], l)
    decreases |lanes|
  {
    hide Left;
    if i == 0 {
      assert lanes[0 := l][1..] == lanes[1..];
    } else {
      assert lanes[i := l][1..] == lanes[1..][i - 1 := l];
      SumUpdate(lane[1..], lanes[1..], i - 1, l);
    }
  }

  /** A thread's access costs it exactly one, and raising a request pays for the host's six. */
  lemma LaneWorks(lane: nat, l: Lane, m: Mail, ticket: nat, go: bool)
    requires lane < ROUNDS && TurnOk(lane, l) && !Stuck(l, m)
    requires l.pc.Header? ==> (go <==> lane == l.round)
    requires l.pc.Barrier? ==> (go <==> l.round + 1 < ROUNDS)
    ensures Left(lane, NextLane(l, m, ticket, go)) + (if l.pc.Raise? then 6 else 0) + 1 == Left(lane, l)
  {
  }

  lemma GpuWorks(g: Grid, s: State, i: nat, go: bool)
    requires GridOk(g, |s.lanes|) && i < |s.lanes| && TurnOk(g.lane[i], s.lanes[i])
    requires LaneOk(s, i) && HostOk(s) && LatestOk(s) && Converged(g, s, Gpu(i, go))
    ensures GpuStep(s, i, go) == s || Work(g, GpuStep(s, i, go)) + 1 == Work(g, s)
  {
    hide Left, LaneOk, TurnOk, Arrived;
    var l, t := s.lanes[i], GpuStep(s, i, go);
    SumUpdate(g.lane, s.lanes, i, t.lanes[i]);
    if Stuck(l, s.mail) {
      assert t.lanes == s.lanes;
    } else {
      LaneWorks(g.lane[i], l, s.mail, |s.raised|, go);
      if l.pc.Raise? {
        RaiseIsFresh(s, i);
      }
    }
  }

  /** Nothing is in flight when a request is raised. */
  lemma RaiseIsFresh(s: State, i: nat)
    requires i < |s.lanes| && LaneOk(s, i) && HostOk(s) && LatestOk(s)
    requires s.lanes[i].pc.Raise?
    ensures HostLeft(s) == 0
  {
  }

  lemma HostWorks(s: State, outcome: u64)
    requires HostOk(s)
    ensures HostMove(s, outcome) == s || HostLeft(HostMove(s, outcome)) + 1 == HostLeft(s)
  {
  }

  /** Every action either is a failed poll, which changes nothing, or does exactly one unit of work. */
  lemma StepWorks(g: Grid, s: State, a: Action)
    requires Good(g, s) && Converged(g, s, a)
    ensures Apply(s, a) == s || Work(g, Apply(s, a)) + 1 == Work(g, s)
  {
    hide Left, TurnOk, LaneOk, GpuStep, Arrived;
    match a
    case Gpu(i, go) =>
      assert LaneOk(s, i) && TurnOk(g.lane[i], s.lanes[i]);
      GpuWorks(g, s, i, go);
    case HostStep(outcome) =>
      HostWorks(s, outcome);
  }

  /** While a thread is unfinished, some thread or the host can make an access that counts. */
  lemma SomeoneMoves(g: Grid, s: State) returns (a: Action)
    requires Good(g, s) && !AllDone(s)
    ensures Converged(g, s, a) && Work(g, Apply(s, a)) + 1 == Work(g, s)
  {
    if s.mail.occupied {
      a := HolderMoves(g, s);
    } else if i :| 0 <= i < |s.lanes| && !s.lanes[i].pc.Barrier? && !s.lanes[i].pc.Done? {
      a := RunnerMoves(g, s, i);
    } else {
      a := BarrierOpens(g, s);
    }
    StepWorks(g, s, a);
  }

  /** With the lock free, a thread that is neither waiting at the barrier nor finished moves. */
  lemma RunnerMoves(g: Grid, s: State, i: nat) returns (a: Action)
    requires GridOk(g, |s.lanes|) && LanesOk(s) && !s.mail.occupied
    requires i < |s.lanes| && !s.lanes[i].pc.Barrier? && !s.lanes[i].pc.Done?
    ensures Converged(g, s, a) && Apply(s, a) != s
  {
    a := Gpu(i, g.lane[i] == s.lanes[i].round);
    assert LaneOk(s, i);
    assert Apply(s, a).lanes[i].pc == NextPc(s.lanes[i], a.go);
  }

  /** With every unfinished thread at a barrier, the earliest barrier opens. */
  lemma BarrierOpens(g: Grid, s: State) returns (a: Action)
    requires GridOk(g, |s.lanes|) && !AllDone(s)
    requires forall i :: 0 <= i < |s.lanes| ==> s.lanes[i].pc.Barrier? || s.lanes[i].pc.Done?
    ensures Converged(g, s, a) && Apply(s, a) != s
  {
    var i := LastRound(s);
    a := Gpu(i, s.lanes[i].round + 1 < ROUNDS);
    assert Apply(s, a).lanes[i].pc == NextPc(s.lanes[i], a.go);
  }

  lemma HolderMoves(g: Grid, s: State) returns (a: Action)
    requires Good(g, s) && s.mail.occupied
    ensures Converged(g, s, a) && Apply(s, a) != s
  {
    var h := s.holder;
    assert LaneOk(s, h);
    if s.lanes[h].pc.Await? && !s.mail.flag2 {
      a := HostStep(0);
    } else {
      a := Gpu(h, true);
    }
  }

  /** An unfinished thread in the least round. */
  lemma LastRound(s: State) returns (i: nat)
    requires !AllDone(s)
    ensures i < |s.lanes| && !s.lanes[i].pc.Done?
    ensures forall j :: 0 <= j < |s.lanes| && !s.lanes[j].pc.Done? ==> Turn(s.lanes[i]) <= Turn(s.lanes[j])
  {
    i :| i < |s.lanes| && !s.lanes[i].pc.Done?;
    var k := 0;
    while k < |s.lanes|
      invariant 0 <= k <= |s.lanes| && i < |s.lanes| && !s.lanes[i].pc.Done?
      invariant forall j :: 0 <= j < k && !s.lanes[j].pc.Done? ==> Turn(s.lanes[i]) <= Turn(s.lanes[j])
    {
      if !s.lanes[k].pc.Done? && Turn(s.lanes[k]) < Turn(s.lanes[i]) {
        i := k;
      }
      k := k + 1;
    }
  }

  /** Number of actions of the run that change the state. */
  function Effective(s: State, acts: seq<Action>): nat
    requires LegalRun(|s.lanes|, acts)
    decreases |acts|
  {
    if acts == [] then 0
    else (if Apply(s, acts[0]) == s then 0 else 1) + Effective(Apply(s, acts[0]), acts[1..])
  }

  lemma {:induction false} WorkDone(g: Grid, s: State, acts: seq<Action>)
    requires Good(g, s) && ConvergedRun(g, s, acts) && LegalRun(|s.lanes|, acts)
    ensures Effective(s, acts) + Work(g, Run(s, acts)) == Work(g, s)
    decreases |acts|
  {
    if acts != [] {
      StepWorks(g, s, acts[0]);
      StepKeepsGood(g, s, acts[0]);
      WorkDone(g, Apply(s, acts[0]), acts[1..]);
    }
  }

  /** The calls that threads at a start are about to make. */
  function Calls(lanes: seq<Lane>): nat {
    if lanes == [] then 0 else 1 + |lanes[0].rest| + Calls(lanes[1..])
  }

  lemma {:induction false} InitialWork(lane: seq<nat>, lanes: seq<Lane>)
    requires |lane| == |lanes| && forall i :: 0 <= i < |lanes| ==> lanes[i].pc == StoreKey && lanes[i].round == 0
    ensures Sum(lane, lanes) == PER_CALL * Calls(lanes)
  {
    if lanes != [] {
      InitialWork(lane[1..], lanes[1..]);
    }
  }

  lemma {:induction false} SumZero(lane: seq<nat>, lanes: seq<Lane>)
    requires |lane| == |lanes| && forall i :: 0 <= i < |lanes| ==> TurnOk(lane[i], lanes[i])
    ensures Sum(lane, lanes) == 0 <==> forall i :: 0 <= i < |lanes| ==> lanes[i].pc.Done?
  {
    if lanes != [] {
      SumZero(lane[1..], lanes[1..]);
      assert Left(lane[0], lanes[0]) == 0 <==> lanes[0].pc.Done?;
      assert forall i :: 1 <= i < |lanes| ==> lanes[i] == lanes[1..][i - 1];
    }
  }

  lemma NoWorkIffDone(g: Grid, s: State)
    requires Good(g, s)
    ensures Work(g, s) == 0 <==> AllDone(s)
  {
    hide Sum, TurnOk, LanesOk, LogOk, ChainOk;
    SumZero(g.lane, s.lanes);
  }

  /** In any converged run, however long and however many calls its threads make, the accesses that
      are not failed polls are at most 79 per call, and exactly 79 per call when all have returned. */
  lemma CallBound(g: Grid, s0: State, acts: seq<Action>)
    requires GridOk(g, |s0.lanes|) && Initial(s0) && ConvergedRun(g, s0, acts)
    ensures LegalRun(|s0.lanes|, acts)
    ensures Effective(s0, acts) <= PER_CALL * Calls(s0.lanes)
    ensures Effective(s0, acts) == PER_CALL * Calls(s0.lanes) <==> AllDone(Run(s0, acts))
  {
    ReachableGood(g, s0, []);
    ReachableGood(g, s0, acts);
    WorkDone(g, s0, acts);
    InitialWork(g.lane, s0.lanes);
    NoWorkIffDone(g, Run(s0, acts));
  }

  /** From every reachable state the warp can still finish. */
  lemma {:induction false} CanFinish(g: Grid, s: State) returns (acts: seq<Action>)
    requires Good(g, s)
    ensures ConvergedRun(g, s, acts) && LegalRun(|s.lanes|, acts)
    ensures AllDone(Run(s, acts))
    decreases Work(g, s)
  {
    hide Inv, TurnsOk, Converged, Apply, Work, AllDone;
    acts := [];
    if !AllDone(s) {
      var a := SomeoneMoves(g, s);
      StepKeepsGood(g, s, a);
      var rest := CanFinish(g, Apply(s, a));
      acts := [a] + rest;
      assert acts[1..] == rest;
      ConvergedIsLegal(g, s, acts);
    }
  }
}
