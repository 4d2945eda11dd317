/** The daemon's tracking of processes by polling the kernel's table of execs. */
module ProcessPoll {
  /** One step of a scan: the pid, whether its entry could still be read, whether the process is
      younger than the configured duration, and the entry. */
  datatype Item = Item(pid: int, found: bool, young: bool, info: int)

  type Pids = map<int, int>

  datatype Event = Exec(pid: int, info: int) | Exit(pid: int, info: int)

  /** A scan stops at the first young process that can be read. */
  datatype Walked = Aborted(events: seq<Event>) | Finished(remain: Pids, seen: Pids, events: seq<Event>)

  function Prepend(es: seq<Event>, w: Walked): Walked {
    match w case Aborted(xs) => Aborted(es + xs) case Finished(r, s, xs) => Finished(r, s, es + xs)
  }

  lemma PrependTwice(a: seq<Event>, b: seq<Event>, w: Walked)
    ensures Prepend(a, Prepend(b, w)) == Prepend(a + b, w)
  {
    assert a + (b + w.events) == (a + b) + w.events;
  }

  function Walk(remain: Pids, seen: Pids, scan: seq<Item>): Walked
    decreases |scan|
  {
    if scan == [] then Finished(remain, seen, [])
    else
      var i := scan[0];
      if !i.found then Walk(remain, seen, scan[1..])
      else if i.young then Aborted([])
      else Prepend(if i.pid in remain then [] else [Exec(i.pid, i.info)],
                   Walk(remain - {i.pid}, seen[i.pid := i.info], scan[1..]))
  }

  /** The keys of an ordered map as its iterator gives them. */
  ghost predicate Ordered(m: Pids, keys: seq<int>) {
    && (forall p :: p in m <==> p in keys)
    && (forall i, j :: 0 <= i < j < |keys| ==> keys[i] < keys[j])
  }

  /** One exit for each pid left over, in that order. */
  function Exits(remain: Pids, keys: seq<int>): seq<Event> {
    if keys == [] then []
    else (if keys[0] in remain then [Exit(keys[0], remain[keys[0]])] else []) + Exits(remain, keys[1..])
  }

  lemma NoKeys(remain: Pids)
    ensures Exits(remain, []) == []
  {
  }

  lemma ExitsAt(remain: Pids, keys: seq<int>, i: nat)
    requires i < |keys|
    ensures Exits(remain, keys[i..])
            == (if keys[i] in remain then [Exit(keys[i], remain[keys[i]])] else []) + Exits(remain, keys[i + 1..])
  {
    assert keys[i..][1..] == keys[i + 1..];
  }

  // ---- What events say about a process ----

  datatype Phase = Dead | Alive | Broken

  /** EXEC and EXIT of one pid must alternate, beginning with EXEC. */
  function After(s: Phase, e: Event, p: int): Phase {
    if e.pid != p then s
    else if e.Exec? && s == Dead then Alive
    else if e.Exit? && s == Alive then Dead
    else Broken
  }

  function PhaseOf(s: Phase, es: seq<Event>, p: int): Phase
    decreases |es|
  {
    if es == [] then s else PhaseOf(After(s, es[0], p), es[1..], p)
  }

  lemma {:induction false} PhaseConcat(s: Phase, a: seq<Event>, b: seq<Event>, p: int)
    ensures PhaseOf(s, a + b, p) == PhaseOf(PhaseOf(s, a, p), b, p)
    decreases |a|
  {
    if a == [] {
      assert a + b == b;
    } else {
      assert (a + b)[1..] == a[1..] + b;
      PhaseConcat(After(s, a[0], p), a[1..], b, p);
    }
  }

  lemma PhaseOne(s: Phase, e: Event, p: int)
    ensures PhaseOf(s, [e], p) == After(s, e, p)
  {
    assert [e][1..] == [];
  }

  function PhaseIn(m: Pids, p: int): Phase { if p in m then Alive else Dead }

  /** How often a scan could read a pid. */
  function Times(scan: seq<Item>, p: int): nat {
    if scan == [] then 0 else (if scan[0].found && scan[0].pid == p then 1 else 0) + Times(scan[1..], p)
  }

  predicate Reads(scan: seq<Item>, p: int) { Times(scan, p) > 0 }

  predicate Completes(scan: seq<Item>) { forall i :: 0 <= i < |scan| ==> !(scan[i].found && scan[i].young) }

  /** What n EXECs of a process make of its phase. */
  function Started(s: Phase, n: nat): Phase {
    if n == 0 then s else if n == 1 && s == Dead then Alive else Broken
  }

  /** The EXECs a walk makes of a process read n times: one less if it was left over from before. */
  function Execs(remain: Pids, p: int, n: nat): nat { if p in remain && n > 0 then n - 1 else n }

  /** A walk that gets to the end: what is left over was not read, what was read is remembered, and
      the number of EXECs of each process. */
  lemma {:induction false} WalkFinishes(remain: Pids, seen: Pids, scan: seq<Item>, p: int, s: Phase)
    requires Completes(scan)
    ensures var w, n := Walk(remain, seen, scan), Times(scan, p);
            && w.Finished?
            && (p in w.remain <==> p in remain && n == 0)
            && (p in w.remain ==> w.remain[p] == remain[p])
            && (p in w.seen <==> p in seen || n > 0)
            && PhaseOf(s, w.events, p) == Started(s, Execs(remain, p, n))
    decreases |scan|
  {
    if scan != [] {
      var i := scan[0];
      if !i.found {
        WalkFinishes(remain, seen, scan[1..], p, s);
      } else {
        var s' := HeadPhase(remain, i, p, s);
        WalkFinishes(remain - {i.pid}, seen[i.pid := i.info], scan[1..], p, s');
        PhaseConcat(s, if i.pid in remain then [] else [Exec(i.pid, i.info)],
                    Walk(remain - {i.pid}, seen[i.pid := i.info], scan[1..]).events, p);
      }
    }
  }

  lemma HeadPhase(remain: Pids, i: Item, p: int, s: Phase) returns (s': Phase)
    ensures s' == PhaseOf(s, if i.pid in remain then [] else [Exec(i.pid, i.info)], p)
    ensures s' == Started(s, if i.pid == p && p !in remain then 1 else 0)
  {
    PhaseOne(s, Exec(i.pid, i.info), p);
    s' := PhaseOf(s, if i.pid in remain then [] else [Exec(i.pid, i.info)], p);
  }

  /** The exits end exactly the processes left over. */
  lemma {:induction false} ExitsEnd(remain: Pids, keys: seq<int>, p: int, s: Phase)
    requires forall i, j :: 0 <= i < j < |keys| ==> keys[i] < keys[j]
    ensures PhaseOf(s, Exits(remain, keys), p)
            == if p in remain && p in keys then (if s == Alive then Dead else Broken) else s
    decreases |keys|
  {
    if keys != [] {
      var k := keys[0];
      var head := if k in remain then [Exit(k, remain[k])] else [];
      PhaseConcat(s, head, Exits(remain, keys[1..]), p);
      ExitsEnd(remain, keys[1..], p, PhaseOf(s, head, p));
      assert k !in keys[1..];
      assert p in keys <==> p == k || p in keys[1..];
    }
  }

  // ---- Polls ----

  /** An empty scan and an aborted one remember nothing new; an aborted one has still announced. */
  predicate Polled(m: Pids, keys: seq<int>, scan: seq<Item>, m': Pids, es: seq<Event>) {
    if scan == [] then m' == m && es == []
    else match Walk(m, map[], scan)
      case Aborted(events) => m' == m && es == events
      case Finished(remain, seen, events) =>
        m' == seen && es == events + Exits(remain, keys)
  }

  /** A poll that runs to the end brings a process from one phase to the other as it announces, and
      remembers it as read, if and only if its scan did not read that pid twice. */
  lemma PollAlternatesIff(m: Pids, keys: seq<int>, scan: seq<Item>, m': Pids, es: seq<Event>, p: int)
    requires Ordered(m, keys) && Completes(scan) && Polled(m, keys, scan, m', es)
    ensures PhaseOf(PhaseIn(m, p), es, p) == PhaseIn(m', p) <==> Times(scan, p) <= 1
    ensures scan != [] ==> (p in m' <==> Reads(scan, p))
  {
    if scan != [] {
      var w := Walk(m, map[], scan);
      WalkFinishes(m, map[], scan, p, PhaseIn(m, p));
      PhaseConcat(PhaseIn(m, p), w.events, Exits(w.remain, keys), p);
      ExitsEnd(w.remain, keys, p, PhaseOf(PhaseIn(m, p), w.events, p));
    }
  }

  datatype Poll = Poll(keys: seq<int>, scan: seq<Item>, remembered: Pids, events: seq<Event>)

  ghost predicate Polls(m: Pids, polls: seq<Poll>)
    decreases |polls|
  {
    polls == [] ||
    (var q := polls[0];
     Ordered(m, q.keys) && Polled(m, q.keys, q.scan, q.remembered, q.events) && Polls(q.remembered, polls[1..]))
  }

  function Log(polls: seq<Poll>): seq<Event> {
    if polls == [] then [] else polls[0].events + Log(polls[1..])
  }

  predicate RunsToEnd(polls: seq<Poll>) { forall k :: 0 <= k < |polls| ==> Completes(polls[k].scan) }

  predicate ReadOnce(polls: seq<Poll>, p: int) { forall k :: 0 <= k < |polls| ==> Times(polls[k].scan, p) <= 1 }

  /** Over every sequence of polls that run to the end and whose scans do not read the process twice,
      its events alternate beginning with EXEC, and it is alive at the end exactly if remembered. */
  lemma {:induction false} TrackingAlternates(m: Pids, polls: seq<Poll>, p: int)
    requires Polls(m, polls) && RunsToEnd(polls) && ReadOnce(polls, p)
    ensures PhaseOf(PhaseIn(m, p), Log(polls), p)
            == PhaseIn(if polls == [] then m else polls[|polls| - 1].remembered, p)
    decreases |polls|
  {
    if polls != [] {
      var q := polls[0];
      PollAlternatesIff(m, q.keys, q.scan, q.remembered, q.events, p);
      PhaseConcat(PhaseIn(m, p), q.events, Log(polls[1..]), p);
      TrackingAlternates(q.remembered, polls[1..], p);
    }
  }

  /** The remembered set is what the last scan that was not empty could read. */
  lemma {:induction false} RememberedIsLastScan(m: Pids, polls: seq<Poll>, k: nat, p: int)
    requires Polls(m, polls) && RunsToEnd(polls)
    requires k < |polls| && polls[k].scan != [] && forall j :: k < j < |polls| ==> polls[j].scan == []
    ensures p in polls[|polls| - 1].remembered <==> Reads(polls[k].scan, p)
    decreases |polls|
  {
    hide Reads;
    var q := polls[0];
    PollAlternatesIff(m, q.keys, q.scan, q.remembered, q.events, p);
    if k > 0 {
      RememberedIsLastScan(q.remembered, polls[1..], k - 1, p);
    } else {
      EmptyScansForget(q.remembered, polls[1..]);
    }
  }

  lemma {:induction false} EmptyScansForget(m: Pids, polls: seq<Poll>)
    requires Polls(m, polls) && forall j :: 0 <= j < |polls| ==> polls[j].scan == []
    ensures polls != [] ==> polls[|polls| - 1].remembered == m
    decreases |polls|
  {
    if polls != [] { EmptyScansForget(m, polls[1..]); }
  }

  // ---- Polls cut short ----

  /** The items handled before the first young process. */
  function Handled(scan: seq<Item>): (r: seq<Item>)
    ensures |r| <= |scan| && r == scan[..|r|]
    ensures Completes(r)
  {
    if scan == [] || (scan[0].found && scan[0].young) then [] else [scan[0]] + Handled(scan[1..])
  }

  lemma {:induction false} AbortWalksPrefix(remain: Pids, seen: Pids, scan: seq<Item>)
    requires !Completes(scan)
    ensures Walk(remain, seen, Handled(scan)).Finished?
    ensures Walk(remain, seen, scan) == Aborted(Walk(remain, seen, Handled(scan)).events)
    decreases |scan|
  {
    var i := scan[0];
    if !(i.found && i.young) {
      assert Handled(scan)[1..] == Handled(scan[1..]);
      AbortWalksPrefix(if i.found then remain - {i.pid} else remain,
                       if i.found then seen[i.pid := i.info] else seen, scan[1..]);
    }
  }

  /** A poll cut short keeps what is remembered in step with what was announced if and only if every
      process handled before the young one was remembered already and read once. */
  lemma AbortConsistentIff(m: Pids, keys: seq<int>, scan: seq<Item>, m': Pids, es: seq<Event>)
    requires !Completes(scan) && Polled(m, keys, scan, m', es)
    ensures (forall p :: PhaseOf(PhaseIn(m, p), es, p) == PhaseIn(m', p))
            <==> (forall p :: Reads(Handled(scan), p) ==> p in m && Times(Handled(scan), p) == 1)
  {
    hide Times;
    AbortWalksPrefix(m, map[], scan);
    forall p
      ensures PhaseOf(PhaseIn(m, p), es, p) == Started(PhaseIn(m, p), Execs(m, p, Times(Handled(scan), p)))
    {
      WalkFinishes(m, map[], Handled(scan), p, PhaseIn(m, p));
    }
  }

  /** A poll cut short announces a process it does not remember, so the next poll announces it again. */
  lemma RepeatedExec()
    ensures var known, young := Item(1, true, false, 0), Item(2, true, true, 0);
            && Polled(map[], [], [known, young], map[], [Exec(1, 0)])
            && Polled(map[], [], [known], map[1 := 0], [Exec(1, 0)])
            && PhaseOf(Dead, [Exec(1, 0), Exec(1, 0)], 1) == Broken
  {
    var known, young := Item(1, true, false, 0), Item(2, true, true, 0);
    var none: Pids := map[];
    assert none - {1} == none;
    assert [known, young][1..] == [young] && [known][1..] == [];
    assert Walk(none, map[1 := 0], [young]) == Aborted([]);
    assert Walk(none, none, [known]) == Finished(none, map[1 := 0], [Exec(1, 0)]);
    assert [Exec(1, 0), Exec(1, 0)][1..] == [Exec(1, 0)];
  }

  // ---- The poller ----

  class Poller {
    var pids: Pids

    constructor ()
      ensures pids == map[]
    {
      pids := map[];
    }

    /** `keys` is the iteration order of the remembered map. */
    method PollOnce(keys: seq<int>, scan: seq<Item>) returns (es: seq<Event>)
      requires Ordered(pids, keys)
      modifies this
      ensures Polled(old(pids), keys, scan, pids, es)
    {
      es := [];
      var seen: Pids := map[];
      var remain := pids;
      if scan == [] { return; }
      for i := 0 to |scan|
        invariant pids == old(pids)
        invariant Prepend(es, Walk(remain, seen, scan[i..])) == Walk(pids, map[], scan)
      {
        assert scan[i..][0] == scan[i] && scan[i..][1..] == scan[i + 1..];
        var item := scan[i];
        if !item.found { continue; }
        if item.young { return; }
        PrependTwice(es, if item.pid in remain then [] else [Exec(item.pid, item.info)],
                     Walk(remain - {item.pid}, seen[item.pid := item.info], scan[i + 1..]));
        assert item.pid !in remain ==> remain - {item.pid} == remain;
        assert es + [] == es;
        seen := seen[item.pid := item.info];
        if item.pid !in remain {
          es := es + [Exec(item.pid, item.info)];
        } else {
          remain := remain - {item.pid};
        }
      }
      assert scan[|scan|..] == [];
      var exits := ExitAll(remain, keys);
      es := es + exits;
      pids := seen;
    }

    static method ExitAll(remain: Pids, keys: seq<int>) returns (xs: seq<Event>)
      ensures xs == Exits(remain, keys)
    {
      hide Exits;
      xs := [];
      NoKeys(remain);
      for i := 0 to |keys|
        invariant xs + Exits(remain, keys[i..]) == Exits(remain, keys)
      {
        ExitsAt(remain, keys, i);
        if keys[i] in remain { xs := xs + [Exit(keys[i], remain[keys[i]])]; }
      }
      assert keys[|keys|..] == [];
    }
  }
}
