/** Map handles, and the rewriting of map descriptors to map ids in captured programs. */
module Relocation {
  import opened Words
  import opened Ebpf

  // ---- Handles ----

  /** A handler table, seen as the maps in it. */
  type Table = map<i32, Obj>

  const INVALID_MAP_PTR: u64 := TWO64 - 1

  predicate IsMapFd(tab: Table, fd: i32) { fd >= 0 && fd in tab }

  function MapAt(tab: Table, fd: i32): Option<Obj> {
    if IsMapFd(tab, fd) then Some(tab[fd]) else None
  }

  function MapPtr(tab: Table, fd: i32): u64 {
    if MapAt(tab, fd).None? then INVALID_MAP_PTR else ToU32(fd) * TWO32 + 0xffff_ffff
  }

  /** The helpers' shift, narrowed to a signed 32-bit descriptor. */
  function Decode(handle: u64): i32 { ToI32(handle / TWO32) }

  function Denote(tab: Table, handle: u64): Option<Obj> { MapAt(tab, Decode(handle)) }

  /** A handle decodes to the descriptor it was made from; a failed one to -1, which no table has. */
  lemma HandleRoundTrip(tab: Table, fd: i32)
    ensures Decode(MapPtr(tab, fd)) == if MapAt(tab, fd).Some? then fd else -1
    ensures Denote(tab, MapPtr(tab, fd)) == MapAt(tab, fd)
  {
    InvalidDenotesNothing(tab);
    if fd >= 0 { QuotientUnique(fd * TWO32 + 0xffff_ffff, TWO32, fd, 0xffff_ffff); }
  }

  // ---- The map helpers' way into the table ----

  /** What the table answers: a null element, an error, or the map's own operation. */
  datatype Reply = Null | Error | On(map_: Obj)

  function LookupElem(tab: Table, fd: i32): Reply { if !IsMapFd(tab, fd) then Null else On(tab[fd]) }

  /** Update, delete, push, pop and peek. */
  function ChangeElem(tab: Table, fd: i32): Reply { if !IsMapFd(tab, fd) then Error else On(tab[fd]) }

  function HelperCall(tab: Table, helper: i32, handle: u64): Reply {
    if helper == 1 then LookupElem(tab, Decode(handle)) else ChangeElem(tab, Decode(handle))
  }

  /** The register value of an answer that ends the call at once. */
  function Refusal(tab: Table, helper: i32, handle: u64): Option<u64> {
    match HelperCall(tab, helper, handle)
    case Null => Some(0)
    case Error => Some(ToU64(-1))
    case On(_) => None
  }

  function Denotation(tab: Table): u64 -> Option<Obj> { (w: u64) => Denote(tab, w) }

  /** A machine whose handles are numbers, over a table. */
  function TableEnv(tab: Table): Env<u64> {
    Env((fd: i32) => MapPtr(tab, fd), Denotation(tab), (helper: i32, w: u64) => Refusal(tab, helper, w))
  }

  /** The meaning: a machine whose handles are the maps themselves. */
  function MeaningEnv(tab: Table): Env<Option<Obj>> {
    Env((fd: i32) => MapAt(tab, fd), x => x, (helper, x) => NoMap(helper, x))
  }

  /** Without a map, a lookup is NULL and every other helper -1. */
  function NoMap(helper: i32, x: Option<Obj>): Option<u64> {
    if x.Some? then None else Some(if helper == 1 then 0 else TWO64 - 1)
  }

  // ---- Relocation ----

  function RelocatedInsn(i: Insn, idOf: i32 -> i32): Insn {
    if IsMapLoad(i) then i.(imm := idOf(i.imm)) else i
  }

  function Relocated(code: seq<Insn>, idOf: i32 -> i32): (r: seq<Insn>)
    ensures |r| == |code|
    ensures forall k :: 0 <= k < |code| ==> r[k] == RelocatedInsn(code[k], idOf)
  {
    if code == [] then [] else Relocated(code[..|code| - 1], idOf) + [RelocatedInsn(code[|code| - 1], idOf)]
  }

  predicate DaemonFinds(code: seq<Insn>, lookup: i32 -> i32) {
    forall k :: 0 <= k < |code| && IsMapLoad(code[k]) ==> lookup(code[k].imm) >= 0
  }

  /** The kernel's answer about a descriptor: a result code and an unsigned id. */
  datatype MapInfo = MapInfo(res: int, id: u32)

  predicate SyscallFinds(code: seq<Insn>, info: i32 -> MapInfo) {
    forall k :: 0 <= k < |code| && IsMapLoad(code[k]) ==> info(code[k].imm).res >= 0
  }

  /** The id as it is stored into a signed immediate. */
  function IdOf(info: i32 -> MapInfo): i32 -> i32 { (fd: i32) => ToI32(info(fd).id) }

  /** The daemon's loop; `lookup` is the kernel tracer's descriptor table, -1 when absent. */
  method RelocateForDaemon(code: seq<Insn>, lookup: i32 -> i32) returns (r: int, insns: seq<Insn>)
    ensures r == 0 || r == -1
    ensures r == 0 <==> DaemonFinds(code, lookup)
    ensures r == 0 ==> insns == Relocated(code, lookup)
  {
    insns := code;
    for k := 0 to |code|
      invariant |insns| == |code|
      invariant DaemonFinds(code[..k], lookup)
      invariant forall j :: 0 <= j < |code| ==> insns[j] == if j < k then RelocatedInsn(code[j], lookup) else code[j]
    {
      var inst := code[k];
      if inst.code == LDDW {
        if inst.src == 1 || inst.src == 2 {
          var mapId := lookup(inst.imm);
          if mapId < 0 { return -1, insns; }
          insns := insns[k := insns[k].(imm := mapId)];
        }
      }
      assert code[..k + 1] == code[..k] + [code[k]];
    }
    assert code[..|code|] == code;
    return 0, insns;
  }

  /** The loading process's loop. */
  method RelocateForSyscall(code: seq<Insn>, info: i32 -> MapInfo) returns (r: int, insns: seq<Insn>)
    ensures r == 0 || r == -1
    ensures r == 0 <==> SyscallFinds(code, info)
    ensures r == 0 ==> insns == Relocated(code, IdOf(info))
  {
    insns := code;
    for k := 0 to |code|
      invariant |insns| == |code|
      invariant SyscallFinds(code[..k], info)
      invariant forall j :: 0 <= j < |code| ==>
        insns[j] == if j < k then RelocatedInsn(code[j], IdOf(info)) else code[j]
    {
      var inst := insns[k];
      if inst.code == LDDW {
        if inst.src == 1 || inst.src == 2 {
          var answer := info(inst.imm);
          if answer.res < 0 { return -1, insns; }
          insns := insns[k := insns[k].(imm := ToI32(answer.id))];
        }
      }
      assert code[..k + 1] == code[..k] + [code[k]];
    }
    assert code[..|code|] == code;
    return 0, insns;
  }

  /** The two loops accept the same programs and produce the same code when their lookups agree. */
  lemma LoopsAgree(code: seq<Insn>, lookup: i32 -> i32, info: i32 -> MapInfo)
    requires forall fd :: if info(fd).res < 0 then lookup(fd) < 0 else lookup(fd) == info(fd).id
    ensures DaemonFinds(code, lookup) == SyscallFinds(code, info)
    ensures DaemonFinds(code, lookup) ==> Relocated(code, lookup) == Relocated(code, IdOf(info))
  {
    hide Relocated;
    if DaemonFinds(code, lookup) {
      var a, b := Relocated(code, lookup), Relocated(code, IdOf(info));
      forall k | 0 <= k < |code| ensures a[k] == b[k] {
        if IsMapLoad(code[k]) { assert lookup(code[k].imm) >= 0; }
      }
    }
  }

  // ---- Meaning is preserved ----

  /** Every descriptor a map load names and the id put in its place are the same map. */
  ghost predicate Linked(code: seq<Insn>, idOf: i32 -> i32, fds: Table, ids: Table) {
    forall k :: 0 <= k < |code| && IsMapLoad(code[k]) ==> MapAt(ids, idOf(code[k].imm)) == MapAt(fds, code[k].imm)
  }

  lemma TableDenotes(tab: Table)
    ensures SameMaps(Denotation(tab), TableEnv(tab), MeaningEnv(tab))
  {
  }

  /** A program on its table runs as its meaning runs. */
  lemma MeaningOf(isa: Isa, code: seq<Insn>, fds: Table, m: Machine<u64>, n: nat)
    ensures MapMachine(Denotation(fds), Steps(isa, TableEnv(fds), code, m, n))
            == Steps(isa, MeaningEnv(fds), code, MapMachine(Denotation(fds), m), n)
  {
    hide MapMachine, Steps, Denote, MapPtr;
    TableDenotes(fds);
    forall k | 0 <= k < |code| && IsMapLoad(code[k])
      ensures MeaningEnv(fds).load(code[k].imm) == Denotation(fds)(TableEnv(fds).load(code[k].imm))
    {
      HandleRoundTrip(fds, code[k].imm);
    }
    StepsNatural(Denotation(fds), isa, TableEnv(fds), code, MeaningEnv(fds), code, m, n);
  }

  /** So does the relocated program on the id-indexed table. */
  lemma MeaningOfRelocated(isa: Isa, code: seq<Insn>, idOf: i32 -> i32, fds: Table, ids: Table, m: Machine<u64>, n: nat)
    requires Linked(code, idOf, fds, ids) && SameSlots(code, Relocated(code, idOf))
    ensures MapMachine(Denotation(ids), Steps(isa, TableEnv(ids), Relocated(code, idOf), m, n))
            == Steps(isa, MeaningEnv(fds), code, MapMachine(Denotation(ids), m), n)
  {
    hide MapMachine, Steps, Denote, MapPtr, Relocated;
    TableDenotes(ids);
    var reloc := Relocated(code, idOf);
    assert SameMaps(Denotation(ids), TableEnv(ids), MeaningEnv(fds));
    forall k | 0 <= k < |code| && IsMapLoad(code[k])
      ensures MeaningEnv(fds).load(code[k].imm) == Denotation(ids)(TableEnv(ids).load(reloc[k].imm))
    {
      HandleRoundTrip(ids, reloc[k].imm);
    }
    assert Matches(Denotation(ids), TableEnv(ids), reloc, MeaningEnv(fds), code);
    StepsNatural(Denotation(ids), isa, TableEnv(ids), reloc, MeaningEnv(fds), code, m, n);
  }

  /** In the same place, with the same numbers in the same registers and memory, and handles of the
      same maps elsewhere. */
  ghost predicate Alike(fds: Table, ids: Table, m: Machine<u64>, m': Machine<u64>) {
    MapMachine(Denotation(fds), m) == MapMachine(Denotation(ids), m')
  }

  /** Step for step, relocated code on the id-indexed table simulates the original on the
      descriptor-indexed table. */
  lemma RelocationPreserves(isa: Isa, code: seq<Insn>, idOf: i32 -> i32, fds: Table, ids: Table,
                            m: Machine<u64>, m': Machine<u64>, n: nat)
    requires Linked(code, idOf, fds, ids) && SameSlots(code, Relocated(code, idOf)) && Alike(fds, ids, m, m')
    ensures Alike(fds, ids, Steps(isa, TableEnv(fds), code, m, n),
                  Steps(isa, TableEnv(ids), Relocated(code, idOf), m', n))
  {
    hide MapMachine, Steps, Relocated, Linked;
    MeaningOf(isa, code, fds, m, n);
    MeaningOfRelocated(isa, code, idOf, fds, ids, m', n);
  }

  /** The wide load at k uses a second half that relocation changes. */
  predicate Spoiled(code: seq<Insn>, idOf: i32 -> i32, k: int) {
    && 0 <= k && k + 1 < |code| && UsesSlot(code[k])
    && IsMapLoad(code[k + 1]) && idOf(code[k + 1].imm) != code[k + 1].imm
  }

  lemma SameSlotsIff(code: seq<Insn>, idOf: i32 -> i32)
    ensures SameSlots(code, Relocated(code, idOf)) <==> forall k :: !Spoiled(code, idOf, k)
  {
    hide Relocated;
    if forall k :: !Spoiled(code, idOf, k) {
      forall k | 0 <= k && k + 1 < |code| && UsesSlot(code[k])
        ensures Relocated(code, idOf)[k + 1] == code[k + 1]
      {
        assert !Spoiled(code, idOf, k);
      }
    }
  }

  /** With descriptors and ids linked: relocation preserves every run of the program, on every
      instruction set and from every start, if and only if no wide load uses a second half that looks
      like a map load with an id other than its descriptor. */
  lemma PreservesIff(code: seq<Insn>, idOf: i32 -> i32, fds: Table, ids: Table)
    requires Linked(code, idOf, fds, ids)
    ensures (forall isa: Isa, m, m', n: nat | Alike(fds, ids, m, m') ::
               Alike(fds, ids, Steps(isa, TableEnv(fds), code, m, n),
                     Steps(isa, TableEnv(ids), Relocated(code, idOf), m', n)))
            <==> forall k :: !Spoiled(code, idOf, k)
  {
    hide Steps, Relocated, Linked, Alike, SameSlots;
    SameSlotsIff(code, idOf);
    if forall k :: !Spoiled(code, idOf, k) {
      forall isa: Isa, m, m', n: nat | Alike(fds, ids, m, m')
        ensures Alike(fds, ids, Steps(isa, TableEnv(fds), code, m, n),
                      Steps(isa, TableEnv(ids), Relocated(code, idOf), m', n))
      {
        RelocationPreserves(isa, code, idOf, fds, ids, m, m', n);
      }
    } else {
      var k :| Spoiled(code, idOf, k);
      var isa, m := SpoiledRun(code, idOf, fds, ids, k);
    }
  }

  /** A spoiled load executed on a fresh machine: one step tells the programs apart. */
  lemma SpoiledRun(code: seq<Insn>, idOf: i32 -> i32, fds: Table, ids: Table, k: nat)
    returns (isa: Isa, m: Machine<u64>)
    requires Linked(code, idOf, fds, ids) && Spoiled(code, idOf, k)
    ensures Alike(fds, ids, m, m)
    ensures !Alike(fds, ids, Steps(isa, TableEnv(fds), code, m, 1),
                   Steps(isa, TableEnv(ids), Relocated(code, idOf), m, 1))
  {
    hide Step, Relocated, Alike;
    isa := Isa((_, _, _) => None, (_, _, _) => None, (_, _, _) => None, _ => 0);
    m := Fresh(k);
    FreshAlike(fds, ids, k);
    RewrittenSlotShows(isa, code, idOf, fds, ids, m);
    OneStep(isa, TableEnv(fds), code, m);
    OneStep(isa, TableEnv(ids), Relocated(code, idOf), m);
  }

  lemma OneStep(isa: Isa, env: Env<u64>, code: seq<Insn>, m: Machine<u64>)
    ensures Steps(isa, env, code, m, 1) == Step(isa, env, code, m)
  {
    assert Steps(isa, env, code, Step(isa, env, code, m), 0) == Step(isa, env, code, m);
  }

  function Fresh(k: nat): Machine<u64> {
    Running(k, [Num(0), Num(0), Num(0), Num(0), Num(0), Num(0), Num(0), Num(0), Num(0), Num(0), Num(0)], map[])
  }

  lemma FreshAlike(fds: Table, ids: Table, k: nat)
    ensures Alike(fds, ids, Fresh(k), Fresh(k))
  {
    hide MapRegs;
    assert MapRegs(Denotation(fds), Fresh(k).regs) == MapRegs(Denotation(ids), Fresh(k).regs);
  }

  /** The slot after every wide load has opcode 0. */
  predicate WideSlotsPlain(code: seq<Insn>) {
    forall k :: 0 <= k && k + 1 < |code| && code[k].code == LDDW ==> code[k + 1].code == 0
  }

  lemma PlainSlotsSame(code: seq<Insn>, idOf: i32 -> i32)
    requires WideSlotsPlain(code)
    ensures SameSlots(code, Relocated(code, idOf))
  {
    hide Relocated;
  }

  predicate NoHandles(m: Machine<u64>) {
    m.Running? && (forall v :: v in m.regs ==> !v.Ref?) && (forall k :: k in m.mem ==> m.mem[k].Plain?)
  }

  /** Started alike and without handles, both end after the same number of steps with the same
      result, or both run into a trap, or neither ends. */
  lemma SameResult(isa: Isa, code: seq<Insn>, idOf: i32 -> i32, fds: Table, ids: Table, m: Machine<u64>, n: nat)
    requires WideSlotsPlain(code) && Linked(code, idOf, fds, ids) && NoHandles(m)
    ensures var a, b := Steps(isa, TableEnv(fds), code, m, n), Steps(isa, TableEnv(ids), Relocated(code, idOf), m, n);
            && a.Exited? == b.Exited? && a.Trapped? == b.Trapped?
            && (a.Exited? ==> a.result == b.result)
  {
    hide Steps, Relocated, Linked, WideSlotsPlain;
    assert MapRegs(Denotation(fds), m.regs) == MapRegs(Denotation(ids), m.regs);
    PlainSlotsSame(code, idOf);
    RelocationPreserves(isa, code, idOf, fds, ids, m, m, n);
  }

  /** A constant or address load over a rewritten second half gives another number whenever the id
      differs from the descriptor. */
  lemma RewrittenSlotShows(isa: Isa, code: seq<Insn>, idOf: i32 -> i32, fds: Table, ids: Table, m: Machine<u64>)
    requires m.Running? && |m.regs| == 11 && Spoiled(code, idOf, m.pc) && Linked(code, idOf, fds, ids)
    ensures !Alike(fds, ids, Step(isa, TableEnv(fds), code, m), Step(isa, TableEnv(ids), Relocated(code, idOf), m))
  {
    hide Step, Relocated, MapMem, MapRegs, Denote, MapPtr;
    var reloc := Relocated(code, idOf);
    var i, d := code[m.pc], code[m.pc].dst;
    WideLoad(isa, fds, code, m);
    WideLoad(isa, ids, reloc, m);
    var a, b := Step(isa, TableEnv(fds), code, m), Step(isa, TableEnv(ids), reloc, m);
    assert a.regs[d] != b.regs[d] by {
      if i.src == 0 {
        DistinctHalves(ToU32(i.imm), code[m.pc + 1].imm, reloc[m.pc + 1].imm);
      } else {
        DistinctSums(AddressOf(isa, fds, i.imm), code[m.pc + 1].imm, reloc[m.pc + 1].imm);
      }
    }
    assert MapRegs(Denotation(fds), a.regs)[d] == Num(a.regs[d].n);
    assert MapRegs(Denotation(ids), b.regs)[d] == Num(b.regs[d].n);
  }

  /** Where an address load starts from. */
  function AddressOf(isa: Isa, tab: Table, fd: i32): u64 {
    if IsMapFd(tab, fd) then isa.mapValue(tab[fd]) else 0
  }

  /** The number a constant or address load puts in its register. */
  lemma WideLoad(isa: Isa, tab: Table, code: seq<Insn>, m: Machine<u64>)
    requires m.Running? && 0 <= m.pc && m.pc + 1 < |code| && |m.regs| == 11 && UsesSlot(code[m.pc])
    ensures var i, next, r := code[m.pc], code[m.pc + 1], Step(isa, TableEnv(tab), code, m);
            && r.Running? && |r.regs| == 11
            && r.regs[i.dst] == Num(if i.src == 0 then ToU32(i.imm) + TWO32 * ToU32(next.imm)
                                    else ToU64(AddressOf(isa, tab, i.imm) + next.imm))
  {
    hide MapPtr, Denote, AluStep, JumpStep, LoadStep, StoreStep, CallStep;
    HandleRoundTrip(tab, code[m.pc].imm);
  }

  lemma DistinctHalves(low: u32, x: i32, y: i32)
    requires x != y
    ensures low + TWO32 * ToU32(x) != low + TWO32 * ToU32(y)
  {
  }

  lemma DistinctSums(base: u64, x: i32, y: i32)
    requires x != y
    ensures ToU64(base + x) != ToU64(base + y)
  {
  }

  /** What a map load puts in a register is, to every helper it is passed to, the map behind the
      descriptor; an address load gives the map's first value plus the signed offset, from 0 when
      there is no such map. */
  lemma MapLoadGivesMap(isa: Isa, tab: Table, code: seq<Insn>, m: Machine<u64>)
    requires m.Running? && 0 <= m.pc && m.pc + 1 < |code| && |m.regs| == 11
    requires IsMapLoad(code[m.pc]) && code[m.pc].dst < 10
    ensures var i := code[m.pc]; var r := Step(isa, TableEnv(tab), code, m); var o := MapAt(tab, i.imm);
            && r.Running? && r.pc == m.pc + 2 && |r.regs| == 11
            && (i.src == 1 ==> MapVal(Denotation(tab), r.regs[i.dst]) == Ref(o))
            && (i.src == 2 ==>
                  r.regs[i.dst] == Num(ToU64((if o.Some? then isa.mapValue(o.value) else 0) + code[m.pc + 1].imm)))
  {
    hide MapPtr, Denote, AluStep, JumpStep, LoadStep, StoreStep, CallStep;
    HandleRoundTrip(tab, code[m.pc].imm);
  }

  /** A load of a handle whose id does not denote the descriptor's map tells the programs apart. */
  lemma UnlinkedLoadShows(isa: Isa, code: seq<Insn>, idOf: i32 -> i32, fds: Table, ids: Table, m: Machine<u64>)
    requires m.Running? && 0 <= m.pc && m.pc + 1 < |code| && |m.regs| == 11
    requires IsMapLoad(code[m.pc]) && code[m.pc].src == 1 && code[m.pc].dst < 10
    requires MapAt(ids, idOf(code[m.pc].imm)) != MapAt(fds, code[m.pc].imm)
    ensures !Alike(fds, ids, Step(isa, TableEnv(fds), code, m), Step(isa, TableEnv(ids), Relocated(code, idOf), m))
  {
    hide Step, Relocated, MapMem, MapRegs, Denote, MapPtr;
    var reloc, d := Relocated(code, idOf), code[m.pc].dst;
    MapLoadGivesMap(isa, fds, code, m);
    MapLoadGivesMap(isa, ids, reloc, m);
    var a, b := Step(isa, TableEnv(fds), code, m), Step(isa, TableEnv(ids), reloc, m);
    assert MapRegs(Denotation(fds), a.regs)[d] != MapRegs(Denotation(ids), b.regs)[d];
  }

  lemma InvalidDenotesNothing(tab: Table)
    ensures Decode(INVALID_MAP_PTR) == -1 && Denote(tab, INVALID_MAP_PTR) == None
  {
    QuotientUnique(INVALID_MAP_PTR, TWO32, TWO32 - 1, TWO32 - 1);
  }

  /** The helper comes back at once with its error value, and nothing else has changed. */
  ghost predicate Refused(isa: Isa, tab: Table, code: seq<Insn>, m: Machine<u64>)
    requires m.Running? && 0 <= m.pc < |code|
  {
    var r := Step(isa, TableEnv(tab), code, m);
    && r.Running? && r.pc == m.pc + 1 && r.mem == m.mem && |r.regs| == 11
    && r.regs[0] == Num(if code[m.pc].imm == 1 then 0 else TWO64 - 1) && r.regs[6..] == m.regs[6..]
  }

  predicate CallsMapHelper(code: seq<Insn>, m: Machine<u64>) {
    && m.Running? && 0 <= m.pc < |code| && |m.regs| == 11 && m.regs[1].Ref?
    && code[m.pc].code == CALL && code[m.pc].src == 0 && MapHelper(code[m.pc].imm)
  }

  lemma RefusedWithoutMap(isa: Isa, tab: Table, code: seq<Insn>, m: Machine<u64>)
    requires CallsMapHelper(code, m) && !IsMapFd(tab, Decode(m.regs[1].h))
    ensures Refused(isa, tab, code, m)
  {
    hide MapMem, MapPtr, Decode, AluStep, JumpStep, LoadStep, StoreStep, WideStep;
    assert Written(m.mem, map[]) == m.mem;
  }

  lemma NotRefusedWithMap(isa: Isa, tab: Table, code: seq<Insn>, m: Machine<u64>)
    requires CallsMapHelper(code, m) && IsMapFd(tab, Decode(m.regs[1].h))
    requires isa == Isa((_, _, _) => None, (_, _, _) => None, (_, _, _) => None, _ => 0)
    ensures !Refused(isa, tab, code, m)
  {
    hide MapMem, MapPtr, Decode, AluStep, JumpStep, LoadStep, StoreStep, WideStep;
  }

  /** For every 64-bit handle: a map helper refuses it, whatever its operations would do, if and only
      if the descriptor in its upper half is not that of a map. */
  lemma RefusedIff(tab: Table, code: seq<Insn>, m: Machine<u64>)
    requires CallsMapHelper(code, m)
    ensures (forall isa: Isa :: Refused(isa, tab, code, m)) <==> !IsMapFd(tab, Decode(m.regs[1].h))
  {
    hide Refused, Decode;
    if IsMapFd(tab, Decode(m.regs[1].h)) {
      var isa := Isa((_, _, _) => None, (_, _, _) => None, (_, _, _) => None, _ => 0);
      NotRefusedWithMap(isa, tab, code, m);
    } else {
      forall isa: Isa ensures Refused(isa, tab, code, m) { RefusedWithoutMap(isa, tab, code, m); }
    }
  }
}
