/** The daemon's driver: kernel events in, handler table and (pid, fd) table kept up to date. */
module Driver {
  import opened Words
  import opened Registry

  // ---- Keys ----

  /** The pid in the upper half, the descriptor sign-extended and or-ed in below. */
  function Key(pid: i32, fd: i32): u64 {
    if fd >= 0 then ToU32(pid) * TWO32 + fd else TWO64 + fd
  }

  /** Keys tell apart all pairs with a descriptor that is not negative, and those from the rest;
      with negative descriptors the pid is lost. */
  lemma KeyInjective(pid: i32, fd: i32, pid': i32, fd': i32)
    requires pid >= 0 && pid' >= 0
    ensures Key(pid, fd) == Key(pid', fd') <==> fd == fd' && (fd < 0 || pid == pid')
  {
    KeyParts(pid, fd);
    KeyParts(pid', fd');
  }

  /** The two halves of a key. */
  lemma KeyParts(pid: i32, fd: i32)
    requires pid >= 0
    ensures Key(pid, fd) / TWO32 == (if fd >= 0 then pid else TWO32 - 1)
    ensures Key(pid, fd) % TWO32 == (if fd >= 0 then fd else TWO32 + fd)
  {
    if fd >= 0 {
      QuotientUnique(Key(pid, fd), TWO32, pid, fd);
    } else {
      QuotientUnique(Key(pid, fd), TWO32, TWO32 - 1, TWO32 + fd);
    }
  }

  // ---- Events and their meaning ----

  /** What the kernel answers about a program: its descriptor, its info, the relocation of its
      captured code, the list of its maps; and about each of those maps. */
  datatype MapAnswer = MapAnswer(id: int, known: bool)
  datatype ProgAnswer = ProgAnswer(found: bool, info: bool, relocated: bool, listed: bool, maps: seq<MapAnswer>)

  /** `fake` is the descriptor the daemon gets for a new link. */
  datatype Event =
    | PerfOpen(pid: i32, ret: i32, uprobe: bool, probe: Probe)
    | SetBpf(pid: i32, fd: i32, prog: int, answer: ProgAnswer, fake: int)
    | LinkCreate(pid: i32, fd: i32, prog: int, answer: ProgAnswer, fake: int)
    | Enable(pid: i32, fd: i32)
    | Disable(pid: i32, fd: i32)
    | Close(pid: i32, fd: i32)
    | Other

  datatype State = State(slots: Slots, table: map<u64, int>)

  /** Kernel ids and fake descriptors lie inside the handler table, which indexes without a check. */
  predicate InTable(size: nat, answer: ProgAnswer, prog: int, fake: int) {
    && 0 <= prog < size && fake < size
    && forall i :: 0 <= i < |answer.maps| ==> 0 <= answer.maps[i].id < size
  }

  predicate Legal(size: nat, e: Event) {
    match e
    case SetBpf(_, _, prog, answer, fake) => InTable(size, answer, prog, fake)
    case LinkCreate(_, _, prog, answer, fake) => prog < 0 || InTable(size, answer, prog, fake)
    case _ => true
  }

  function Find(t: map<u64, int>, pid: i32, fd: i32): int {
    if Key(pid, fd) in t then t[Key(pid, fd)] else -1
  }

  function MapsCreated(s: Slots, maps: seq<MapAnswer>): (r: (Slots, bool))
    requires forall i :: 0 <= i < |maps| ==> 0 <= maps[i].id < |s|
    ensures |r.0| == |s|
    decreases |maps|
  {
    if maps == [] then (s, true)
    else if IsMap(s, maps[0].id) then MapsCreated(s, maps[1..])
    else if !maps[0].known then (s, false)
    else MapsCreated(MapAdded(s, maps[0].id), maps[1..])
  }

  function ProgCreated(s: Slots, prog: int, a: ProgAnswer): (r: (Slots, int))
    requires InTable(|s|, a, prog, -1)
    ensures |r.0| == |s|
  {
    if !a.found || !a.info then (s, -1)
    else if IsProg(s, prog) then (s, 0)
    else if !a.relocated || Allocated(s, prog) then (s, -1)
    else
      var s1 := s[prog := ProgHandler(prog)];
      if !a.listed then (s1, -1)
      else
        var (s2, ok) := MapsCreated(s1, a.maps);
        (s2, if ok then prog else -1)
  }

  function Linked(s: Slots, perf: int, prog: int, fake: int): (r: (Slots, int))
    requires fake < |s|
    ensures |r.0| == |s|
  {
    if !IsPerf(s, perf) || !IsProg(s, prog) then (s, -1)
    else if fake < 0 then (s, -ENOSPC)
    else (if Allocated(s, fake) then s else s[fake := LinkHandler(prog, perf)], fake)
  }

  function Attached(st: State, pid: i32, fd: i32, prog: int, a: ProgAnswer, fake: int): (r: (State, int))
    requires InTable(|st.slots|, a, prog, fake)
    ensures |r.0.slots| == |st.slots| && r.0.table == st.table
  {
    var perf := Find(st.table, pid, fd);
    if perf < 0 then (st, -1)
    else
      var (s1, res) := if IsProg(st.slots, prog) then (st.slots, 0) else ProgCreated(st.slots, prog, a);
      if res < 0 then (st.(slots := s1), -1)
      else
        var (s2, res2) := Linked(s1, perf, prog, fake);
        (st.(slots := s2), if res2 < 0 then -1 else 0)
  }

  function Opened(st: State, pid: i32, fd: i32, probe: Probe): State {
    var id := MinUnused(st.slots);
    if id < 0 then st else State(st.slots[id := PerfHandler(probe, false)], st.table[Key(pid, fd) := id])
  }

  function Enabled(s: Slots, fd: int, on: bool): Slots {
    if IsPerf(s, fd) then s[fd := s[fd].(enabled := on)] else s
  }

  function Closed(st: State, pid: i32, fd: i32): State {
    var id := Find(st.table, pid, fd);
    if id < 0 then st
    else State(if id < |st.slots| then Cleared(st.slots, id) else st.slots, st.table - {Key(pid, fd)})
  }

  function Handle(st: State, e: Event): (r: State)
    requires Legal(|st.slots|, e)
    ensures |r.slots| == |st.slots|
  {
    match e
    case PerfOpen(pid, ret, uprobe, probe) => if ret >= 0 && uprobe then Opened(st, pid, ret, probe) else st
    case SetBpf(pid, fd, prog, a, fake) => Attached(st, pid, fd, prog, a, fake).0
    case LinkCreate(pid, fd, prog, a, fake) => if prog < 0 then st else Attached(st, pid, fd, prog, a, fake).0
    case Enable(pid, fd) => st.(slots := Enabled(st.slots, Find(st.table, pid, fd), true))
    case Disable(pid, fd) => st.(slots := Enabled(st.slots, Find(st.table, pid, fd), false))
    case Close(pid, fd) => Closed(st, pid, fd)
    case Other => st
  }

  // ---- The invariant over every event sequence ----

  /** Every recorded id is an allocated slot, holding a perf event or the map that replaced it. */
  ghost predicate Recorded(s: Slots, t: map<u64, int>) {
    forall k :: k in t ==> IsPerf(s, t[k]) || IsMap(s, t[k])
  }

  ghost predicate Injective(t: map<u64, int>) {
    forall k, k' :: k in t && k' in t && t[k] == t[k'] ==> k == k'
  }

  ghost predicate Inv(st: State) {
    Recorded(st.slots, st.table) && Injective(st.table) && NoDangling(st.slots)
  }

  lemma MapAddedKeeps(s: Slots, fd: int, t: map<u64, int>)
    requires Recorded(s, t) && NoDangling(s) && 0 <= fd < |s|
    ensures Recorded(MapAdded(s, fd), t) && NoDangling(MapAdded(s, fd))
  {
    MapAddedNoDangling(s, fd);
  }

  lemma {:induction false} MapsCreatedKeeps(s: Slots, maps: seq<MapAnswer>, t: map<u64, int>)
    requires Recorded(s, t) && NoDangling(s)
    requires forall i :: 0 <= i < |maps| ==> 0 <= maps[i].id < |s|
    ensures Recorded(MapsCreated(s, maps).0, t) && NoDangling(MapsCreated(s, maps).0)
    decreases |maps|
  {
    hide Recorded, NoDangling, MapAdded;
    if maps == [] {
    } else if IsMap(s, maps[0].id) {
      MapsCreatedKeeps(s, maps[1..], t);
    } else if maps[0].known {
      MapAddedKeeps(s, maps[0].id, t);
      MapsCreatedKeeps(MapAdded(s, maps[0].id), maps[1..], t);
    }
  }

  lemma FillKeeps(s: Slots, fd: int, h: Handler, t: map<u64, int>)
    requires Recorded(s, t) && NoDangling(s) && 0 <= fd < |s| && s[fd] == Unused
    requires h.LinkHandler? ==> IsProg(s, h.prog) && IsPerf(s, h.target)
    ensures Recorded(s[fd := h], t) && NoDangling(s[fd := h])
  {
  }

  lemma ProgCreatedKeeps(s: Slots, prog: int, a: ProgAnswer, t: map<u64, int>)
    requires InTable(|s|, a, prog, -1) && Recorded(s, t) && NoDangling(s)
    ensures Recorded(ProgCreated(s, prog, a).0, t) && NoDangling(ProgCreated(s, prog, a).0)
  {
    hide Recorded, NoDangling, MapsCreated;
    if !Allocated(s, prog) {
      FillKeeps(s, prog, ProgHandler(prog), t);
      MapsCreatedKeeps(s[prog := ProgHandler(prog)], a.maps, t);
    }
  }

  lemma LinkedKeeps(s: Slots, perf: int, prog: int, fake: int, t: map<u64, int>)
    requires fake < |s| && Recorded(s, t) && NoDangling(s)
    ensures Recorded(Linked(s, perf, prog, fake).0, t) && NoDangling(Linked(s, perf, prog, fake).0)
  {
    hide Recorded, NoDangling;
    if IsPerf(s, perf) && IsProg(s, prog) && 0 <= fake && !Allocated(s, fake) {
      FillKeeps(s, fake, LinkHandler(prog, perf), t);
    }
  }

  lemma AttachedKeeps(st: State, pid: i32, fd: i32, prog: int, a: ProgAnswer, fake: int)
    requires InTable(|st.slots|, a, prog, fake) && Inv(st)
    ensures Inv(Attached(st, pid, fd, prog, a, fake).0)
  {
    hide Recorded, NoDangling, Injective, ProgCreated, Linked;
    ProgCreatedKeeps(st.slots, prog, a, st.table);
    var s1 := if IsProg(st.slots, prog) then st.slots else ProgCreated(st.slots, prog, a).0;
    LinkedKeeps(s1, Find(st.table, pid, fd), prog, fake, st.table);
  }

  lemma OpenedKeeps(st: State, pid: i32, fd: i32, probe: Probe)
    requires Inv(st)
    ensures Inv(Opened(st, pid, fd, probe))
  {
    var id := MinUnused(st.slots);
    if id >= 0 {
      assert forall k :: k in st.table ==> st.table[k] != id;
      FillKeeps(st.slots, id, PerfHandler(probe, false), st.table);
    }
  }

  lemma EnabledKeeps(s: Slots, fd: int, on: bool, t: map<u64, int>)
    requires Recorded(s, t) && NoDangling(s)
    ensures Recorded(Enabled(s, fd, on), t) && NoDangling(Enabled(s, fd, on))
  {
  }

  lemma ClosedKeeps(st: State, pid: i32, fd: i32)
    requires Inv(st)
    ensures Inv(Closed(st, pid, fd))
  {
    var id := Find(st.table, pid, fd);
    if id >= 0 {
      ClearedNoDangling(st.slots, id);
      assert forall k :: k in st.table && k != Key(pid, fd) ==> st.table[k] != id;
    }
  }

  lemma HandleKeeps(st: State, e: Event)
    requires Inv(st) && Legal(|st.slots|, e)
    ensures Inv(Handle(st, e))
  {
    hide Inv, Attached, Opened, Closed, Enabled;
    match e
    case PerfOpen(pid, ret, _, probe) => OpenedKeeps(st, pid, ret, probe);
    case SetBpf(pid, fd, prog, a, fake) => AttachedKeeps(st, pid, fd, prog, a, fake);
    case LinkCreate(pid, fd, prog, a, fake) => if prog >= 0 { AttachedKeeps(st, pid, fd, prog, a, fake); }
    case Enable(pid, fd) => SwitchKeeps(st, pid, fd, true);
    case Disable(pid, fd) => SwitchKeeps(st, pid, fd, false);
    case Close(pid, fd) => ClosedKeeps(st, pid, fd);
    case Other =>
  }

  lemma SwitchKeeps(st: State, pid: i32, fd: i32, on: bool)
    requires Inv(st)
    ensures Inv(st.(slots := Enabled(st.slots, Find(st.table, pid, fd), on)))
  {
    hide Recorded, NoDangling, Injective, Enabled;
    EnabledKeeps(st.slots, Find(st.table, pid, fd), on, st.table);
  }

  function HandleAll(st: State, es: seq<Event>): (r: State)
    requires forall i :: 0 <= i < |es| ==> Legal(|st.slots|, es[i])
    ensures |r.slots| == |st.slots|
    decreases |es|
  {
    if es == [] then st else HandleAll(Handle(st, es[0]), es[1..])
  }

  lemma {:induction false} RunKeepsInv(st: State, es: seq<Event>)
    requires Inv(st) && forall i :: 0 <= i < |es| ==> Legal(|st.slots|, es[i])
    ensures Inv(HandleAll(st, es))
    decreases |es|
  {
    hide Inv, Handle, Legal;
    if es != [] {
      HandleKeeps(st, es[0]);
      RunKeepsInv(Handle(st, es[0]), es[1..]);
    }
  }

  function Empty(size: nat): (st: State)
    ensures |st.slots| == size && Inv(st)
  {
    State(seq(size, _ => Unused), map[])
  }

  /** Whatever events arrive, from empty tables on: no two pairs share a slot, every recorded slot is
      allocated, and no link outlives its ends. */
  lemma DriverInvariant(size: nat, es: seq<Event>)
    requires forall i :: 0 <= i < |es| ==> Legal(size, es[i])
    ensures var st := HandleAll(Empty(size), es);
            && (forall k, k' :: k in st.table && k' in st.table && st.table[k] == st.table[k'] ==> k == k')
            && (forall k :: k in st.table ==> IsPerf(st.slots, st.table[k]) || IsMap(st.slots, st.table[k]))
            && (forall i :: 0 <= i < |st.slots| && st.slots[i].LinkHandler? ==>
                  IsProg(st.slots, st.slots[i].prog) && IsPerf(st.slots, st.slots[i].target))
  {
    hide HandleAll, Legal;
    RunKeepsInv(Empty(size), es);
  }

  ghost function HangingSet(s: Slots, fd: int): set<int> { set i | 0 <= i < |s| && Hangs(s, fd, i) }

  ghost function AllocatedSet(s: Slots): set<int> { set i | 0 <= i < |s| && s[i] != Unused }

  /** Closing a recorded pair frees exactly its slot and the links attached there, forgets exactly
      that pair, and leaves every other slot as it was. */
  lemma CloseFreesExactly(st: State, pid: i32, fd: i32)
    requires Inv(st) && Key(pid, fd) in st.table
    ensures var id := st.table[Key(pid, fd)]; var r := Closed(st, pid, fd);
            && AllocatedSet(r.slots) == AllocatedSet(st.slots) - ({id} + HangingSet(st.slots, id))
            && id in AllocatedSet(st.slots)
            && (forall i :: i in AllocatedSet(r.slots) ==> r.slots[i] == st.slots[i])
            && r.table == st.table - {Key(pid, fd)} && id !in r.table.Values
  {
    assert IsPerf(st.slots, st.table[Key(pid, fd)]) || IsMap(st.slots, st.table[Key(pid, fd)]);
  }

  /** Closing a uprobe's descriptor undoes its opening: both tables are as before. */
  lemma CloseUndoesOpen(st: State, pid: i32, fd: i32, probe: Probe)
    requires Inv(st) && Key(pid, fd) !in st.table
    ensures Closed(Opened(st, pid, fd, probe), pid, fd) == st
    ensures MinUnused(st.slots) >= 0 ==> Key(pid, fd) in Opened(st, pid, fd, probe).table
  {
    var id := MinUnused(st.slots);
    if id >= 0 {
      var r := Opened(st, pid, fd, probe);
      assert forall i :: 0 <= i < |st.slots| ==> !Hangs(r.slots, id, i);
      assert Cleared(r.slots, id) == st.slots;
      assert r.table - {Key(pid, fd)} == st.table;
    }
  }

  // ---- What a created program finds ----

  /** When the maps of a program were all created, each of them is there: none displaces another.
      A program set up before them is still there exactly when no map has its number. */
  lemma {:induction false} RelatedMapsPresent(s: Slots, maps: seq<MapAnswer>, prog: int)
    requires forall i :: 0 <= i < |maps| ==> 0 <= maps[i].id < |s|
    requires MapsCreated(s, maps).1
    ensures forall i :: 0 <= i < |maps| ==> IsMap(MapsCreated(s, maps).0, maps[i].id)
    ensures forall i :: IsMap(s, i) ==> IsMap(MapsCreated(s, maps).0, i)
    ensures IsProg(s, prog) ==>
      (IsProg(MapsCreated(s, maps).0, prog) <==> forall i :: 0 <= i < |maps| ==> maps[i].id != prog)
    decreases |maps|
  {
    if maps != [] {
      var rest := maps[1..];
      assert forall i :: 1 <= i < |maps| ==> maps[i] == rest[i - 1];
      if IsMap(s, maps[0].id) {
        RelatedMapsPresent(s, rest, prog);
      } else {
        RelatedMapsPresent(MapAdded(s, maps[0].id), rest, prog);
      }
    }
  }

  predicate Lists(maps: seq<MapAnswer>, id: int) { exists i :: 0 <= i < |maps| && maps[i].id == id }

  /** Creating a program's maps makes no other maps. */
  lemma {:induction false} OnlyListedMaps(s: Slots, maps: seq<MapAnswer>, id: int)
    requires forall i :: 0 <= i < |maps| ==> 0 <= maps[i].id < |s|
    requires IsMap(MapsCreated(s, maps).0, id)
    ensures IsMap(s, id) || Lists(maps, id)
    decreases |maps|
  {
    if maps != [] {
      var rest := maps[1..];
      if IsMap(s, maps[0].id) {
        OnlyListedMaps(s, rest, id);
      } else if maps[0].known {
        OnlyListedMaps(MapAdded(s, maps[0].id), rest, id);
      }
      if Lists(rest, id) {
        var i :| 0 <= i < |rest| && rest[i].id == id;
        assert maps[i + 1].id == id;
      }
    }
  }

  /** The maps there after a program was created: those there before and those the kernel lists for it. */
  lemma MapsAfterCreation(s: Slots, prog: int, a: ProgAnswer, id: int)
    requires InTable(|s|, a, prog, -1) && !IsProg(s, prog) && ProgCreated(s, prog, a).1 >= 0
    ensures IsMap(ProgCreated(s, prog, a).0, id) <==> IsMap(s, id) || Lists(a.maps, id)
  {
    var s1 := s[prog := ProgHandler(prog)];
    RelatedMapsPresent(s1, a.maps, prog);
    assert IsMap(s, id) ==> IsMap(s1, id);
    if IsMap(MapsCreated(s1, a.maps).0, id) { OnlyListedMaps(s1, a.maps, id); }
  }

  /** A program the driver has just created has all its maps in the table, and is itself there
      exactly when none of them has its number. */
  lemma CreatedProgHasMaps(s: Slots, prog: int, a: ProgAnswer)
    requires InTable(|s|, a, prog, -1) && !IsProg(s, prog) && ProgCreated(s, prog, a).1 >= 0
    ensures a.found && a.info && a.relocated && a.listed && s[prog] == Unused
    ensures var r := ProgCreated(s, prog, a).0;
            && (forall i :: 0 <= i < |a.maps| ==> IsMap(r, a.maps[i].id))
            && (IsProg(r, prog) <==> forall i :: 0 <= i < |a.maps| ==> a.maps[i].id != prog)
  {
    RelatedMapsPresent(s[prog := ProgHandler(prog)], a.maps, prog);
  }

  /** An attachment that reports success ends with its link in the table exactly when the slot of
      the fresh descriptor was free or already held that link. */
  lemma AttachedIff(st: State, pid: i32, fd: i32, prog: int, a: ProgAnswer, fake: int)
    requires InTable(|st.slots|, a, prog, fake) && Attached(st, pid, fd, prog, a, fake).1 == 0
    ensures var perf := Find(st.table, pid, fd); var r := Attached(st, pid, fd, prog, a, fake).0.slots;
            var s1 := if IsProg(st.slots, prog) then st.slots else ProgCreated(st.slots, prog, a).0;
            && 0 <= fake && IsPerf(s1, perf) && IsProg(s1, prog)
            && (r[fake] == LinkHandler(prog, perf) <==> s1[fake] == Unused || s1[fake] == LinkHandler(prog, perf))
            && (forall i :: 0 <= i < |r| && i != fake ==> r[i] == s1[i])
  {
  }

  // ---- Cases in which these fail, from empty tables ----

  /** A program the kernel knows, with the given maps, each known. */
  function Found(maps: seq<MapAnswer>): ProgAnswer { ProgAnswer(true, true, true, true, maps) }

  /** Two events from empty tables. */
  lemma TwoEvents(size: nat, e: Event, e': Event)
    requires Legal(size, e) && Legal(size, e')
    ensures HandleAll(Empty(size), [e, e']) == Handle(Handle(Empty(size), e), e')
  {
    var st := Handle(Empty(size), e);
    assert [e, e'][1..] == [e'];
    assert HandleAll(st, [e']) == Handle(st, e');
  }

  lemma FirstOpened(size: nat, pid: i32, fd: i32, probe: Probe)
    requires size >= 3 && fd >= 0
    ensures var st := Handle(Empty(size), PerfOpen(pid, fd, true, probe));
            && st.slots == seq(size, _ => Unused)[0 := PerfHandler(probe, false)]
            && st.table == map[Key(pid, fd) := 0]
  {
    assert MinUnused(Empty(size).slots) == 0;
  }

  /** A program with the number of its own map is created with success, is gone at once, and is not
      attached. */
  lemma ProgramLost(size: nat, pid: i32, fd: i32, probe: Probe, fake: int)
    requires size >= 3 && fd >= 0 && fake < size
    ensures var st := Handle(Empty(size), PerfOpen(pid, fd, true, probe)); var a := Found([MapAnswer(1, true)]);
            && ProgCreated(st.slots, 1, a).1 == 1 && !IsProg(ProgCreated(st.slots, 1, a).0, 1)
            && Attached(st, pid, fd, 1, a, fake).1 == -1
  {
    FirstOpened(size, pid, fd, probe);
    var maps := [MapAnswer(1, true)];
    var s := Handle(Empty(size), PerfOpen(pid, fd, true, probe)).slots[1 := ProgHandler(1)];
    assert maps[1..] == [];
    assert MapsCreated(s, maps) == (MapAdded(s, 1), true);
  }

  /** An attachment whose fresh descriptor is a taken slot reports success, and no link is made. */
  lemma LinkNotMade(size: nat, pid: i32, fd: i32, probe: Probe)
    requires size >= 3 && fd >= 0
    ensures var st := Handle(Empty(size), PerfOpen(pid, fd, true, probe));
            var r := Attached(st, pid, fd, 1, Found([]), 0);
            r.1 == 0 && forall i :: 0 <= i < |r.0.slots| ==> !r.0.slots[i].LinkHandler?
  {
    FirstOpened(size, pid, fd, probe);
  }

  /** The close of an attached perf event frees its slot and that of its link. */
  lemma CloseFreesLink(size: nat, pid: i32, fd: i32, probe: Probe)
    requires size >= 3 && fd >= 0
    ensures var st := HandleAll(Empty(size), [PerfOpen(pid, fd, true, probe), SetBpf(pid, fd, 1, Found([]), 2)]);
            && AllocatedSet(st.slots) == {0, 1, 2} && Find(st.table, pid, fd) == 0
            && AllocatedSet(Closed(st, pid, fd).slots) == {1}
  {
    FirstOpened(size, pid, fd, probe);
    TwoEvents(size, PerfOpen(pid, fd, true, probe), SetBpf(pid, fd, 1, Found([]), 2));
  }

  // ---- The driver object ----

  class Driver {
    const manager: Manager
    var table: map<u64, int>

    constructor (m: Manager)
      ensures manager == m && table == map[]
    {
      manager := m;
      table := map[];
    }

    ghost function Now(): State
      reads this, manager
    {
      State(manager.slots, table)
    }

    method CheckAndGet(pid: i32, fd: i32) returns (id: int)
      ensures id == Find(table, pid, fd)
    {
      if Key(pid, fd) !in table { return -1; }
      return table[Key(pid, fd)];
    }

    method CreateUprobe(pid: i32, fd: i32, probe: Probe) returns (r: int)
      modifies this, manager
      ensures Now() == Opened(old(Now()), pid, fd, probe) && r == MinUnused(old(manager.slots))
    {
      var id := manager.FindMinimalUnused();
      if id < 0 { return -1; }
      var res := manager.SetHandler(id, PerfHandler(probe, false));
      if res < 0 { return -1; }
      table := table[Key(pid, fd) := id];
      return id;
    }

    /** 0 when the map is already there. */
    method CreateMap(id: int, known: bool) returns (r: int)
      requires 0 <= id < |manager.slots|
      modifies manager
      ensures r == if !known then -1 else if IsMap(old(manager.slots), id) then 0 else id
      ensures manager.slots == if known && !IsMap(old(manager.slots), id) then MapAdded(old(manager.slots), id)
                               else old(manager.slots)
    {
      if !known { return -1; }
      if IsMap(manager.slots, id) { return 0; }
      var res := manager.AddMap(id);
      if res < 0 { return -1; }
      return id;
    }

    method CreateRelatedMaps(maps: seq<MapAnswer>) returns (r: int)
      requires forall i :: 0 <= i < |maps| ==> 0 <= maps[i].id < |manager.slots|
      modifies manager
      ensures manager.slots == MapsCreated(old(manager.slots), maps).0
      ensures r == if MapsCreated(old(manager.slots), maps).1 then 0 else -1
    {
      for i := 0 to |maps|
        invariant |manager.slots| == |old(manager.slots)|
        invariant MapsCreated(manager.slots, maps[i..]) == MapsCreated(old(manager.slots), maps)
      {
        assert maps[i..][0] == maps[i] && maps[i..][1..] == maps[i + 1..];
        if IsMap(manager.slots, maps[i].id) { continue; }
        var res := CreateMap(maps[i].id, maps[i].known);
        if res < 0 { return -1; }
      }
      return 0;
    }

    method CreateProg(prog: int, a: ProgAnswer) returns (r: int)
      requires InTable(|manager.slots|, a, prog, -1)
      modifies manager
      ensures (manager.slots, r) == ProgCreated(old(manager.slots), prog, a)
    {
      if !a.found { return -1; }
      if !a.info { return -1; }
      if IsProg(manager.slots, prog) { return 0; }
      if !a.relocated { return -1; }
      var res := manager.SetHandler(prog, ProgHandler(prog));
      if res < 0 { return -1; }
      if !a.listed { return -1; }
      res := CreateRelatedMaps(a.maps);
      if res < 0 { return -1; }
      return prog;
    }

    method AttachPerfToBpf(pid: i32, fd: i32, prog: int, a: ProgAnswer, fake: int) returns (r: int)
      requires InTable(|manager.slots|, a, prog, fake)
      modifies manager
      ensures (Now(), r) == Attached(old(Now()), pid, fd, prog, a, fake)
    {
      var perf := CheckAndGet(pid, fd);
      if perf < 0 { return -1; }
      if !IsProg(manager.slots, prog) {
        var res := CreateProg(prog, a);
        if res < 0 { return -1; }
      }
      if !IsPerf(manager.slots, perf) || !IsProg(manager.slots, prog) { return -1; }
      if fake < 0 { return -1; }
      var _ := manager.SetHandler(fake, LinkHandler(prog, perf));
      return 0;
    }

    method Switch(pid: i32, fd: i32, on: bool) returns (r: int)
      modifies manager
      ensures manager.slots == Enabled(old(manager.slots), Find(table, pid, fd), on)
      ensures r == if Find(table, pid, fd) < 0 then (if on then 0 else -1)
                   else if IsPerf(old(manager.slots), Find(table, pid, fd)) then 0 else -1
    {
      var id := CheckAndGet(pid, fd);
      if id < 0 { return if on then 0 else -1; }
      if !IsPerf(manager.slots, id) { return -1; }
      manager.slots := manager.slots[id := manager.slots[id].(enabled := on)];
      return 0;
    }

    method CloseFd(pid: i32, fd: i32)
      modifies this, manager
      ensures Now() == Closed(old(Now()), pid, fd)
    {
      var id := CheckAndGet(pid, fd);
      if id < 0 { return; }
      table := table - {Key(pid, fd)};
      manager.ClearIdAt(id);
    }

    /** The event dispatcher keeps the invariant for ever. */
    method HandleEvent(e: Event)
      requires Legal(|manager.slots|, e) && Inv(Now())
      modifies this, manager
      ensures Now() == Handle(old(Now()), e) && Inv(Now())
    {
      HandleKeeps(Now(), e);
      match e
      case PerfOpen(pid, ret, uprobe, probe) => if ret >= 0 && uprobe { var _ := CreateUprobe(pid, ret, probe); }
      case SetBpf(pid, fd, prog, a, fake) => var _ := AttachPerfToBpf(pid, fd, prog, a, fake);
      case LinkCreate(pid, fd, prog, a, fake) => if prog >= 0 { var _ := AttachPerfToBpf(pid, fd, prog, a, fake); }
      case Enable(pid, fd) => var _ := Switch(pid, fd, true);
      case Disable(pid, fd) => var _ := Switch(pid, fd, false);
      case Close(pid, fd) => CloseFd(pid, fd);
      case Other =>
    }
  }
}
