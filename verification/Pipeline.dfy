/** From a program load in a traced process to the program the agents run: capture, relocation and
    creation of the maps, put together. */
module Pipeline {
  import opened Words
  import opened Ebpf
  import opened Relocation
  import Capture
  import Driver
  import Registry
  import Tracer

  /** The maps in the handler table; a map lies at its kernel id. */
  ghost function MapsIn(s: Registry.Slots): Table
    requires |s| <= TWO31
  {
    map i: int | 0 <= i < |s| && Registry.IsMap(s, i) :: i as i32 := i as Obj
  }

  /** The driver's lookup of a descriptor of a process in the tracer's table. */
  function IdIn(r: Tracer.Tables, pid: nat): i32 -> i32 {
    (fd: i32) => if Tracer.Pfd(pid, fd) in r.fds then ToI32(r.fds[Tracer.Pfd(pid, fd)].id) else -1
  }

  /** A part of a tracer run: the state before a call returns, the call, its return, and the rest. */
  datatype Making = Making(s: Tracer.State, t: nat, x: Tracer.Return, rest: seq<Tracer.Action>)

  /** In that part of a run, which ends with the tables r, process pid made descriptor fd for kernel map
      `map_`, which has been neither closed nor made again since. */
  ghost predicate MadeMap(c: Tracer.Config, w: Making, r: Tracer.Tables, pid: nat, fd: i32, map_: Obj) {
    && Tracer.MakesObject(w.s, w.t, w.x, Tracer.MAP_CREATE) && Tracer.Stays(c, w.s, w.t, w.x, w.rest)
    && Tracer.Process(w.t) == pid && w.x.value == fd
    && w.x.id == map_ < TWO31 && r == Tracer.Run(c, Tracer.Apply(c, w.s, Tracer.Exit(w.t, w.x)), w.rest).tables
  }

  /** Every descriptor in the code is one that the process made for a map, as the table says. */
  ghost predicate MadeMaps(c: Tracer.Config, r: Tracer.Tables, pid: nat, code: seq<Insn>, fds: Table) {
    forall k :: 0 <= k < |code| && IsMapLoad(code[k]) ==>
      var fd := code[k].imm;
      IsMapFd(fds, fd) && exists w :: MadeMap(c, w, r, pid, fd, fds[fd])
  }

  ghost predicate KnowsMaps(code: seq<Insn>, fds: Table, idOf: i32 -> i32) {
    forall k :: 0 <= k < |code| && IsMapLoad(code[k]) ==>
      var fd := code[k].imm; IsMapFd(fds, fd) && idOf(fd) == fds[fd]
  }

  /** The tracer then knows them all. */
  lemma TracerKnowsMaps(c: Tracer.Config, r: Tracer.Tables, pid: nat, code: seq<Insn>, fds: Table)
    requires MadeMaps(c, r, pid, code, fds)
    ensures KnowsMaps(code, fds, IdIn(r, pid))
  {
    hide Tracer.Stays, Tracer.MakesObject, Tracer.Run, Tracer.Apply;
    forall k | 0 <= k < |code| && IsMapLoad(code[k]) ensures IdIn(r, pid)(code[k].imm) == fds[code[k].imm] {
      var fd := code[k].imm;
      var w :| MadeMap(c, w, r, pid, fd, fds[fd]);
      Tracer.ObjectIdKnown(c, w.s, w.t, w.x, w.rest, Tracer.MAP_CREATE);
    }
  }

  /** The code the kernel is given for the code a process passed. */
  function Received(code: seq<Insn>, ty: Capture.ProgType, enabled: bool): seq<Insn> {
    if Capture.ShouldReplace(|code|, ty, enabled) then [Capture.MOV_R0_0, Capture.EXIT_INSN] else code
  }

  /** What the kernel lists as a program's maps: those that the code it was given loads. */
  ghost predicate KernelLists(received: seq<Insn>, fds: Table, maps: seq<Driver.MapAnswer>) {
    forall id :: Driver.Lists(maps, id) <==> LoadsMap(received, fds, id)
  }

  ghost predicate LoadsMap(code: seq<Insn>, fds: Table, id: int) {
    exists k :: 0 <= k < |code| && IsMapLoad(code[k]) && code[k].imm in fds && fds[code[k].imm] == id
  }

  /** Every map the code loads was in the handler table before. */
  ghost predicate MapsThere(code: seq<Insn>, fds: Table, s: Registry.Slots) {
    forall id :: LoadsMap(code, fds, id) ==> Registry.IsMap(s, id)
  }

  /** When the driver has created a program, every id that relocation writes denotes, in the handler
      table, the map its descriptor denoted in the process, if and only if each such map is listed for
      the program or was in the table before. */
  lemma LinkedIff(code: seq<Insn>, fds: Table, idOf: i32 -> i32, s: Registry.Slots, prog: int, a: Driver.ProgAnswer)
    requires |s| <= TWO31 && Driver.InTable(|s|, a, prog, -1)
    requires !Registry.IsProg(s, prog) && Driver.ProgCreated(s, prog, a).1 >= 0
    requires KnowsMaps(code, fds, idOf)
    ensures Linked(code, idOf, fds, MapsIn(Driver.ProgCreated(s, prog, a).0)) <==>
            forall id :: LoadsMap(code, fds, id) ==> Driver.Lists(a.maps, id) || Registry.IsMap(s, id)
  {
    hide Driver.ProgCreated, Driver.Lists, Driver.InTable, Registry.IsMap;
    var r := Driver.ProgCreated(s, prog, a).0;
    forall k | 0 <= k < |code| && IsMapLoad(code[k])
      ensures var id := fds[code[k].imm];
              && LoadsMap(code, fds, id)
              && (MapAt(MapsIn(r), idOf(code[k].imm)) == MapAt(fds, code[k].imm)
                  <==> Driver.Lists(a.maps, id) || Registry.IsMap(s, id))
    {
      var id := fds[code[k].imm];
      Driver.MapsAfterCreation(s, prog, a, id);
      MapAtIff(r, id);
    }
  }

  lemma MapAtIff(s: Registry.Slots, id: i32)
    requires |s| <= TWO31
    ensures MapAt(MapsIn(s), id) == if Registry.IsMap(s, id) then Some(id as Obj) else None
  {
  }

  /** A program that the kernel was given as its loader passed it has its maps in the table; one that was
      replaced by the two-instruction program has them if and only if they were all there before. */
  lemma CreatedLinkedIff(code: seq<Insn>, ty: Capture.ProgType, enabled: bool, fds: Table, idOf: i32 -> i32,
                         s: Registry.Slots, prog: int, a: Driver.ProgAnswer)
    requires |s| <= TWO31 && Driver.InTable(|s|, a, prog, -1)
    requires !Registry.IsProg(s, prog) && Driver.ProgCreated(s, prog, a).1 >= 0
    requires KnowsMaps(code, fds, idOf) && KernelLists(Received(code, ty, enabled), fds, a.maps)
    ensures Linked(code, idOf, fds, MapsIn(Driver.ProgCreated(s, prog, a).0)) <==>
            !Capture.ShouldReplace(|code|, ty, enabled) || MapsThere(code, fds, s)
  {
    hide Driver.ProgCreated, Driver.Lists, Driver.InTable, Registry.IsMap, Linked, KnowsMaps, MapsIn;
    LinkedIff(code, fds, idOf, s, prog, a);
    if Capture.ShouldReplace(|code|, ty, enabled) {
      forall id ensures !Driver.Lists(a.maps, id) { assert !LoadsMap(Received(code, ty, enabled), fds, id); }
    }
  }

  /** A replaced program loads a map that was not there before: the program the agents run has a handle
      of no map where its loader's would have had that map. */
  lemma ReplacedLoadShows(isa: Isa, code: seq<Insn>, ty: Capture.ProgType, enabled: bool, fds: Table,
                          idOf: i32 -> i32, s: Registry.Slots, prog: int, a: Driver.ProgAnswer, m: Machine<u64>)
    requires |s| <= TWO31 && Driver.InTable(|s|, a, prog, -1)
    requires !Registry.IsProg(s, prog) && Driver.ProgCreated(s, prog, a).1 >= 0
    requires KnowsMaps(code, fds, idOf) && KernelLists(Received(code, ty, enabled), fds, a.maps)
    requires Capture.ShouldReplace(|code|, ty, enabled)
    requires m.Running? && 0 <= m.pc && m.pc + 1 < |code| && |m.regs| == 11
    requires IsMapLoad(code[m.pc]) && code[m.pc].src == 1 && code[m.pc].dst < 10
    requires !Registry.IsMap(s, fds[code[m.pc].imm])
    ensures var ids := MapsIn(Driver.ProgCreated(s, prog, a).0);
            && MapAt(ids, idOf(code[m.pc].imm)) == None
            && !Alike(fds, ids, Step(isa, TableEnv(fds), code, m), Step(isa, TableEnv(ids), Relocated(code, idOf), m))
  {
    hide Driver.ProgCreated, Driver.Lists, Driver.InTable, Registry.IsMap, MapsIn, Step, Relocated, Alike;
    var id, r := fds[code[m.pc].imm], Driver.ProgCreated(s, prog, a).0;
    assert !LoadsMap(Received(code, ty, enabled), fds, id);
    Driver.MapsAfterCreation(s, prog, a, id);
    MapAtIff(r, id);
    UnlinkedLoadShows(isa, code, idOf, fds, MapsIn(r), m);
  }

  /** Whatever loads and id assignments interleave, if none fails, and whatever the traced calls: a
      program whose loader made its maps itself, which the driver created and relocated from what was
      captured under its id, ends as the program its loader passed would have ended, after the same
      number of steps and with the same result; replaced programs too if their maps were there. */
  lemma CapturedProgramRunsAlike(buffer: seq<Insn>, acts: seq<Capture.Action>, id: u32,
                                 ty: Capture.ProgType, enabled: bool, isa: Isa, fds: Table,
                                 c: Tracer.Config, r: Tracer.Tables, pid: nat,
                                 s: Registry.Slots, a: Driver.ProgAnswer, m: Machine<u64>, n: nat)
    requires |buffer| == Capture.CAPACITY && Capture.LegalRun(Capture.Init(buffer), acts) && Capture.NoneFails(acts)
    requires id in Capture.Run(Capture.Init(buffer), acts).passed
    requires |s| <= TWO31 && Driver.InTable(|s|, a, id, -1)
    requires !Registry.IsProg(s, id) && Driver.ProgCreated(s, id, a).1 >= 0
    requires var code := Capture.Run(Capture.Init(buffer), acts).passed[id];
             && MadeMaps(c, r, pid, code, fds) && WideSlotsPlain(code)
             && KernelLists(Received(code, ty, enabled), fds, a.maps)
             && (Capture.ShouldReplace(|code|, ty, enabled) ==> MapsThere(code, fds, s))
    requires NoHandles(m)
    ensures var st := Capture.Run(Capture.Init(buffer), acts);
            && id in st.store.table && Capture.DataOk(st.store.table[id])
            && var x := Steps(isa, TableEnv(fds), st.passed[id], m, n);
               var y := Steps(isa, TableEnv(MapsIn(Driver.ProgCreated(s, id, a).0)),
                              Relocated(Capture.Content(st.store.table[id]), IdIn(r, pid)), m, n);
               && x.Exited? == y.Exited? && x.Trapped? == y.Trapped? && (x.Exited? ==> x.result == y.result)
  {
    hide Steps, Relocated, NoHandles, KnowsMaps, MadeMaps, KernelLists, MapsThere, WideSlotsPlain, MapsIn;
    hide Driver.ProgCreated;
    Capture.CaptureFaithful(buffer, acts);
    var st := Capture.Run(Capture.Init(buffer), acts);
    var code := st.passed[id];
    TracerKnowsMaps(c, r, pid, code, fds);
    CreatedLinkedIff(code, ty, enabled, fds, IdIn(r, pid), s, id, a);
    SameResult(isa, code, IdIn(r, pid), fds, MapsIn(Driver.ProgCreated(s, id, a).0), m, n);
  }
}
