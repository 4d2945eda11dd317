/** An eBPF machine in the style of RFC 9669, generic in what a map handle is. Arithmetic,
    comparisons and helper bodies are parameters; handles may be moved, spilled and passed to
    helpers, and every other use of one stops the machine, as does a use of an unset register. */
module Ebpf {
  import opened Words

  datatype Option<T> = None | Some(value: T)

  /** Identity of a map object. */
  type Obj = nat

  datatype Insn = Insn(code: u8, dst: nat, src: nat, off: int, imm: i32)

  datatype Val<H> = Unset | Num(n: u64) | Ref(h: H)

  datatype Cell = Junk | Byte(b: u8)

  /** Eight aligned bytes, or one spilled handle. */
  datatype Word<H> = Plain(cells: seq<Cell>) | Spill(h: H)

  type Mem<H> = map<u64, Word<H>>

  datatype Machine<H> =
    | Running(pc: int, regs: seq<Val<H>>, mem: Mem<H>)
    | Exited(result: u64, mem: Mem<H>)
    | Trapped

  /** What a helper did: words it filled with bytes or copied from elsewhere. */
  datatype Source = Fill(cells: seq<Cell>) | CopyOf(from: u64)
  datatype Outcome = Outcome(result: u64, writes: map<u64, Source>)

  /** Helpers see a handle only through the map it denotes. */
  datatype Isa = Isa(
    alu: (u8, u64, u64) -> Option<u64>,
    taken: (u8, u64, u64) -> Option<bool>,
    helper: (i32, seq<Val<Option<Obj>>>, Mem<Option<Obj>>) -> Option<Outcome>,
    mapValue: Obj -> u64)

  /** How a wide load makes a handle, which map a handle denotes, and what a map helper answers at
      once, without touching anything, when it refuses a handle. */
  datatype Env<!H> = Env(load: i32 -> H, deref: H -> Option<Obj>, refusal: (i32, H) -> Option<u64>)

  const LDDW: u8 := 0x18
  const MOV_REG: u8 := 0xbf
  const JA: u8 := 0x05
  const CALL: u8 := 0x85
  const EXIT: u8 := 0x95

  // ---- Memory ----

  function CellAt<H>(w: Word<H>, i: nat): Cell {
    if w.Plain? && i < |w.cells| then w.cells[i] else Junk
  }

  function ReadByte<H>(mem: Mem<H>, a: u64): Cell {
    if a / 8 in mem then CellAt(mem[a / 8], a % 8) else Junk
  }

  function ReadBytes<H>(mem: Mem<H>, a: int, n: nat): (r: Option<seq<u8>>)
    ensures r.Some? ==> |r.value| == n
    decreases n
  {
    if n == 0 then Some([])
    else
      var c := ReadByte(mem, ToU64(a));
      var rest := ReadBytes(mem, a + 1, n - 1);
      if c.Byte? && rest.Some? then Some([c.b] + rest.value) else None
  }

  function WithByte<H>(w: Word<H>, i: nat, b: u8): Word<H>
    requires i < 8
  {
    Plain([CellAt(w, 0), CellAt(w, 1), CellAt(w, 2), CellAt(w, 3),
           CellAt(w, 4), CellAt(w, 5), CellAt(w, 6), CellAt(w, 7)][i := Byte(b)])
  }

  function PutBytes<H>(mem: Mem<H>, a: int, bytes: seq<u8>): Option<Mem<H>>
    decreases |bytes|
  {
    if bytes == [] then Some(mem)
    else
      var k := ToU64(a) / 8;
      if k !in mem then None
      else PutBytes(mem[k := WithByte(mem[k], ToU64(a) % 8, bytes[0])], a + 1, bytes[1..])
  }

  /** Unset when the bytes are not readable as a number or as one handle. */
  function Load<H>(mem: Mem<H>, a: u64, n: nat): Val<H>
    requires n <= 8
  {
    if n == 8 && a % 8 == 0 && a / 8 in mem && mem[a / 8].Spill? then Ref(mem[a / 8].h)
    else
      var r := ReadBytes(mem, a, n);
      if r.None? then Unset else SmallValue(r.value); Num(Value(r.value))
  }

  lemma SmallValue(b: seq<u8>)
    requires |b| <= 8
    ensures Value(b) < TWO64
  {
    PowMono(|b|, 8);
    assert Pow256(8) == TWO64;
  }

  lemma {:induction false} PowMono(m: nat, n: nat)
    requires m <= n
    ensures Pow256(m) <= Pow256(n)
  {
    if m < n { PowMono(m, n - 1); }
  }

  function Store<H>(mem: Mem<H>, a: u64, n: nat, v: Val<H>): Option<Mem<H>> {
    match v
    case Unset => None
    case Ref(h) => if n == 8 && a % 8 == 0 && a / 8 in mem then Some(mem[a / 8 := Spill(h)]) else None
    case Num(x) => PutBytes(mem, a, Bytes(x, n))
  }

  function Width(code: u8): nat {
    match (code / 8) % 4 case 0 => 4 case 1 => 2 case 2 => 1 case _ => 8
  }

  function Resolve<H>(mem: Mem<H>, s: Source): Word<H> {
    match s
    case Fill(cells) => Plain(cells)
    case CopyOf(from) => if from in mem then mem[from] else Plain([])
  }

  function Written<H>(mem: Mem<H>, writes: map<u64, Source>): Mem<H> {
    map k | k in mem.Keys + writes.Keys :: if k in writes then Resolve(mem, writes[k]) else mem[k]
  }

  // ---- Registers ----

  function Get<H>(regs: seq<Val<H>>, i: nat): Val<H> { if i < |regs| then regs[i] else Unset }

  /** Only r0 to r9 can be written; an unset result means the instruction cannot be executed. */
  function SetTo<H>(m: Machine<H>, dst: nat, v: Val<H>, pc: int): Machine<H>
    requires m.Running?
  {
    if dst < 10 && dst < |m.regs| && !v.Unset? then Running(pc, m.regs[dst := v], m.mem) else Trapped
  }

  function Operand<H>(m: Machine<H>, i: Insn): Val<H>
    requires m.Running?
  {
    if (i.code / 8) % 2 == 1 then Get(m.regs, i.src) else Num(ToU64(i.imm))
  }

  // ---- Instructions ----

  function AluStep<H>(isa: Isa, m: Machine<H>, i: Insn): Machine<H>
    requires m.Running?
  {
    var b := Operand(m, i);
    var a := if i.code / 16 == 0xb then Num(0) else Get(m.regs, i.dst);
    if i.code == MOV_REG then SetTo(m, i.dst, b, m.pc + 1)
    else if !a.Num? || !b.Num? then Trapped
    else
      var r := isa.alu(i.code, a.n, b.n);
      if r.Some? then SetTo(m, i.dst, Num(r.value), m.pc + 1) else Trapped
  }

  function JumpStep<H>(isa: Isa, m: Machine<H>, i: Insn): Machine<H>
    requires m.Running?
  {
    var a, b := Get(m.regs, i.dst), Operand(m, i);
    if i.code == JA then m.(pc := m.pc + 1 + i.off)
    else if i.code == EXIT then
      var r := Get(m.regs, 0);
      if r.Num? then Exited(r.n, m.mem) else Trapped
    else if !a.Num? || !b.Num? then Trapped
    else
      var t := isa.taken(i.code, a.n, b.n);
      if t.None? then Trapped else m.(pc := m.pc + 1 + (if t.value then i.off else 0))
  }

  function LoadStep<H>(m: Machine<H>, i: Insn): Machine<H>
    requires m.Running?
  {
    var base := Get(m.regs, i.src);
    if i.code / 32 != 3 || !base.Num? then Trapped
    else SetTo(m, i.dst, Load(m.mem, ToU64(base.n + i.off), Width(i.code)), m.pc + 1)
  }

  function StoreStep<H>(m: Machine<H>, i: Insn): Machine<H>
    requires m.Running?
  {
    var base := Get(m.regs, i.dst);
    var v := if i.code % 8 == 3 then Get(m.regs, i.src) else Num(ToU64(i.imm));
    if i.code / 32 != 3 || !base.Num? then Trapped
    else
      var r := Store(m.mem, ToU64(base.n + i.off), Width(i.code), v);
      if r.Some? then m.(pc := m.pc + 1, mem := r.value) else Trapped
  }

  /** The 64-bit load: a constant, a map handle, or an address inside the map's first value. */
  function WideStep<H>(isa: Isa, env: Env<H>, m: Machine<H>, i: Insn, next: Insn): Machine<H>
    requires m.Running?
  {
    match i.src
    case 0 => SetTo(m, i.dst, Num(ToU32(i.imm) + TWO32 * ToU32(next.imm)), m.pc + 2)
    case 1 => SetTo(m, i.dst, Ref(env.load(i.imm)), m.pc + 2)
    case 2 =>
      var o := env.deref(env.load(i.imm));
      SetTo(m, i.dst, Num(ToU64((if o.Some? then isa.mapValue(o.value) else 0) + next.imm)), m.pc + 2)
    case _ => Trapped
  }

  function MapVal<H, K>(h: H -> K, v: Val<H>): Val<K> {
    match v case Unset => Unset case Num(n) => Num(n) case Ref(x) => Ref(h(x))
  }

  function MapWord<H, K>(h: H -> K, w: Word<H>): Word<K> {
    match w case Plain(c) => Plain(c) case Spill(x) => Spill(h(x))
  }

  function MapMem<H, K>(h: H -> K, mem: Mem<H>): Mem<K> { map k | k in mem :: MapWord(h, mem[k]) }

  function MapRegs<H, K>(h: H -> K, regs: seq<Val<H>>): (r: seq<Val<K>>)
    ensures |r| == |regs|
    ensures forall i :: 0 <= i < |regs| ==> r[i] == MapVal(h, regs[i])
  {
    if regs == [] then [] else MapRegs(h, regs[..|regs| - 1]) + [MapVal(h, regs[|regs| - 1])]
  }

  /** lookup, update, delete, push, pop and peek. */
  predicate MapHelper(id: i32) { id in {1, 2, 3, 87, 88, 89} }

  function Args<H>(env: Env<H>, m: Machine<H>): (r: seq<Val<Option<Obj>>>)
    requires m.Running?
    ensures |r| == 5
  {
    [MapVal(env.deref, Get(m.regs, 1)), MapVal(env.deref, Get(m.regs, 2)), MapVal(env.deref, Get(m.regs, 3)),
     MapVal(env.deref, Get(m.regs, 4)), MapVal(env.deref, Get(m.regs, 5))]
  }

  function Returned<H>(m: Machine<H>, o: Outcome): Machine<H>
    requires m.Running?
  {
    if |m.regs| < 6 then Trapped
    else Running(m.pc + 1, [Num(o.result), Unset, Unset, Unset, Unset, Unset] + m.regs[6..], Written(m.mem, o.writes))
  }

  function CallStep<H>(isa: Isa, env: Env<H>, m: Machine<H>, i: Insn): Machine<H>
    requires m.Running?
  {
    var r1 := Get(m.regs, 1);
    if MapHelper(i.imm) && !r1.Ref? then Trapped
    else if MapHelper(i.imm) && env.refusal(i.imm, r1.h).Some? then
      Returned(m, Outcome(env.refusal(i.imm, r1.h).value, map[]))
    else
      var o := isa.helper(i.imm, Args(env, m), MapMem(env.deref, m.mem));
      if o.Some? then Returned(m, o.value) else Trapped
  }

  function Step<H>(isa: Isa, env: Env<H>, code: seq<Insn>, m: Machine<H>): Machine<H> {
    if !m.Running? then m
    else if !(0 <= m.pc < |code|) then Trapped
    else
      var i := code[m.pc];
      match i.code % 8
      case 0 => if i.code == LDDW && m.pc + 1 < |code| then WideStep(isa, env, m, i, code[m.pc + 1]) else Trapped
      case 1 => LoadStep(m, i)
      case 2 => StoreStep(m, i)
      case 3 => StoreStep(m, i)
      case 5 =>
        if i.code != CALL then JumpStep(isa, m, i)
        else if i.src == 0 then CallStep(isa, env, m, i)
        else Trapped
      case 6 => JumpStep(isa, m, i)
      case _ => AluStep(isa, m, i)
  }

  function Steps<H>(isa: Isa, env: Env<H>, code: seq<Insn>, m: Machine<H>, n: nat): Machine<H>
    decreases n
  {
    if n == 0 then m else Steps(isa, env, code, Step(isa, env, code, m), n - 1)
  }

  // ---- What is stored is loaded ----

  lemma PutByteReads<H>(mem: Mem<H>, a: u64, b: u8, x: u64)
    requires a / 8 in mem
    ensures ReadByte(mem[a / 8 := WithByte(mem[a / 8], a % 8, b)], x)
            == if x == a then Byte(b) else ReadByte(mem, x)
  {
  }

  /** None of the n addresses from a on is x. */
  predicate Avoids(a: int, n: nat, x: u64)
    decreases n
  {
    n == 0 || (ToU64(a) != x && Avoids(a + 1, n - 1, x))
  }

  lemma {:induction false} LaterAvoid(a: int, i: nat, n: nat)
    requires 1 <= i && i + n < TWO64
    ensures Avoids(a + i, n, ToU64(a))
    decreases n
  {
    if n > 0 {
      AddressesDiffer(a, i);
      LaterAvoid(a, i + 1, n - 1);
      assert a + i + 1 == a + (i + 1);
    }
  }

  lemma AddressesDiffer(a: int, i: nat)
    requires 0 < i < TWO64
    ensures ToU64(a + i) != ToU64(a)
  {
  }

  lemma {:induction false} PutBytesKeeps<H>(mem: Mem<H>, a: int, bytes: seq<u8>, x: u64)
    requires PutBytes(mem, a, bytes).Some? && Avoids(a, |bytes|, x)
    ensures ReadByte(PutBytes(mem, a, bytes).value, x) == ReadByte(mem, x)
    decreases |bytes|
  {
    hide ReadByte, WithByte, ToU64;
    if bytes != [] {
      var at := ToU64(a);
      PutByteReads(mem, at, bytes[0], x);
      PutBytesKeeps(mem[at / 8 := WithByte(mem[at / 8], at % 8, bytes[0])], a + 1, bytes[1..], x);
    }
  }

  lemma {:induction false} PutBytesReads<H>(mem: Mem<H>, a: int, bytes: seq<u8>)
    requires PutBytes(mem, a, bytes).Some? && |bytes| <= 8
    ensures ReadBytes(PutBytes(mem, a, bytes).value, a, |bytes|) == Some(bytes)
    decreases |bytes|
  {
    hide ReadByte, WithByte, ToU64;
    if bytes != [] {
      var at := ToU64(a);
      var next := mem[at / 8 := WithByte(mem[at / 8], at % 8, bytes[0])];
      PutBytesReads(next, a + 1, bytes[1..]);
      LaterAvoid(a, 1, |bytes| - 1);
      PutBytesKeeps(next, a + 1, bytes[1..], at);
      PutByteReads(mem, at, bytes[0], at);
      assert [bytes[0]] + bytes[1..] == bytes;
    }
  }

  /** A number stored is the number loaded from the same place at the same width, whatever was there
      before; a handle spilled is the handle loaded. */
  lemma StoreThenLoad<H>(mem: Mem<H>, a: u64, n: nat, v: Val<H>)
    requires 1 <= n <= 8 && Store(mem, a, n, v).Some? && (v.Num? ==> v.n < Pow256(n))
    ensures Load(Store(mem, a, n, v).value, a, n) == v
  {
    if v.Num? {
      var bytes := Bytes(v.n, n);
      PutBytesReads(mem, a, bytes);
      ValueOfBytes(v.n, n);
      NumberNotSpilled(mem, a, bytes);
    }
  }

  lemma {:induction false} StaysPlain<H>(mem: Mem<H>, a: int, bytes: seq<u8>, k: u64)
    requires PutBytes(mem, a, bytes).Some? && k in mem && mem[k].Plain?
    ensures k in PutBytes(mem, a, bytes).value && PutBytes(mem, a, bytes).value[k].Plain?
    decreases |bytes|
  {
    if bytes != [] {
      var at := ToU64(a);
      StaysPlain(mem[at / 8 := WithByte(mem[at / 8], at % 8, bytes[0])], a + 1, bytes[1..], k);
    }
  }

  lemma NumberNotSpilled<H>(mem: Mem<H>, a: u64, bytes: seq<u8>)
    requires PutBytes(mem, a, bytes).Some? && bytes != []
    ensures a / 8 in PutBytes(mem, a, bytes).value && PutBytes(mem, a, bytes).value[a / 8].Plain?
  {
    StaysPlain(mem[a / 8 := WithByte(mem[a / 8], a % 8, bytes[0])], a + 1, bytes[1..], a / 8);
  }

  // ---- Renaming handles commutes with execution ----

  function MapMachine<H, K>(h: H -> K, m: Machine<H>): Machine<K> {
    match m
    case Running(pc, regs, mem) => Running(pc, MapRegs(h, regs), MapMem(h, mem))
    case Exited(r, mem) => Exited(r, MapMem(h, mem))
    case Trapped => Trapped
  }

  lemma {:induction false} ReadBytesNatural<H, K>(h: H -> K, mem: Mem<H>, a: int, n: nat)
    ensures ReadBytes(MapMem(h, mem), a, n) == ReadBytes(mem, a, n)
    decreases n
  {
    if n > 0 { ReadBytesNatural(h, mem, a + 1, n - 1); }
  }

  function MapOption<H, K>(h: H -> K, r: Option<Mem<H>>): Option<Mem<K>> {
    if r.None? then None else Some(MapMem(h, r.value))
  }

  lemma {:induction false} PutBytesNatural<H, K>(h: H -> K, mem: Mem<H>, a: int, bytes: seq<u8>)
    ensures PutBytes(MapMem(h, mem), a, bytes) == MapOption(h, PutBytes(mem, a, bytes))
    decreases |bytes|
  {
    if bytes != [] {
      var k := ToU64(a) / 8;
      if k in mem {
        var w := WithByte(mem[k], ToU64(a) % 8, bytes[0]);
        assert WithByte(MapMem(h, mem)[k], ToU64(a) % 8, bytes[0]) == MapWord(h, w);
        assert MapMem(h, mem)[k := MapWord(h, w)] == MapMem(h, mem[k := w]);
        PutBytesNatural(h, mem[k := w], a + 1, bytes[1..]);
      }
    }
  }

  lemma LoadNatural<H, K>(h: H -> K, mem: Mem<H>, a: u64, n: nat)
    requires n <= 8
    ensures Load(MapMem(h, mem), a, n) == MapVal(h, Load(mem, a, n))
  {
    ReadBytesNatural(h, mem, a, n);
  }

  lemma StoreNatural<H, K>(h: H -> K, mem: Mem<H>, a: u64, n: nat, v: Val<H>)
    ensures Store(MapMem(h, mem), a, n, MapVal(h, v)) == MapOption(h, Store(mem, a, n, v))
  {
    match v
    case Unset =>
    case Num(x) => PutBytesNatural(h, mem, a, Bytes(x, n));
    case Ref(x) =>
      if a / 8 in mem { assert MapMem(h, mem)[a / 8 := Spill(h(x))] == MapMem(h, mem[a / 8 := Spill(x)]); }
  }

  lemma SetNatural<H, K>(h: H -> K, m: Machine<H>, dst: nat, v: Val<H>, pc: int)
    requires m.Running?
    ensures MapMachine(h, SetTo(m, dst, v, pc)) == SetTo(MapMachine(h, m), dst, MapVal(h, v), pc)
  {
    hide MapMem, MapRegs;
    if dst < |m.regs| {
      assert MapRegs(h, m.regs[dst := v]) == MapRegs(h, m.regs)[dst := MapVal(h, v)];
    }
  }

  lemma GetNatural<H, K>(h: H -> K, m: Machine<H>, i: nat)
    requires m.Running?
    ensures MapMachine(h, m).Running? && Get(MapMachine(h, m).regs, i) == MapVal(h, Get(m.regs, i))
  {
    hide MapMem, MapRegs;
  }

  lemma AluNatural<H, K>(h: H -> K, isa: Isa, m: Machine<H>, i: Insn)
    requires m.Running?
    ensures MapMachine(h, AluStep(isa, m, i)) == AluStep(isa, MapMachine(h, m), i)
  {
    hide MapMem, MapRegs, SetTo;
    GetNatural(h, m, i.dst);
    GetNatural(h, m, i.src);
    var a, b := Get(m.regs, i.dst), Operand(m, i);
    SetNatural(h, m, i.dst, b, m.pc + 1);
    var x := if i.code / 16 == 0xb then Num(0) else a;
    if x.Num? && b.Num? {
      var r := isa.alu(i.code, x.n, b.n);
      if r.Some? { SetNatural(h, m, i.dst, Num(r.value), m.pc + 1); }
    }
  }

  lemma JumpNatural<H, K>(h: H -> K, isa: Isa, m: Machine<H>, i: Insn)
    requires m.Running?
    ensures MapMachine(h, JumpStep(isa, m, i)) == JumpStep(isa, MapMachine(h, m), i)
  {
    hide MapMem, MapRegs;
    GetNatural(h, m, 0);
    GetNatural(h, m, i.dst);
    GetNatural(h, m, i.src);
  }

  lemma LoadStepNatural<H(!new), K>(h: H -> K, m: Machine<H>, i: Insn)
    requires m.Running?
    ensures MapMachine(h, LoadStep(m, i)) == LoadStep(MapMachine(h, m), i)
  {
    hide MapMem, MapRegs, SetTo, Load, Width;
    GetNatural(h, m, i.src);
    var base := Get(m.regs, i.src);
    if base.Num? {
      var a, n := ToU64(base.n + i.off), Width(i.code);
      WidthBound(i.code);
      LoadNatural(h, m.mem, a, n);
      SetNatural(h, m, i.dst, Load(m.mem, a, n), m.pc + 1);
    }
  }

  lemma StoreStepNatural<H(!new), K>(h: H -> K, m: Machine<H>, i: Insn)
    requires m.Running?
    ensures MapMachine(h, StoreStep(m, i)) == StoreStep(MapMachine(h, m), i)
  {
    hide MapMem, MapRegs, Store, Width;
    GetNatural(h, m, i.src);
    GetNatural(h, m, i.dst);
    var base := Get(m.regs, i.dst);
    var v := if i.code % 8 == 3 then Get(m.regs, i.src) else Num(ToU64(i.imm));
    if base.Num? { StoreNatural(h, m.mem, ToU64(base.n + i.off), Width(i.code), v); }
  }

  lemma WidthBound(code: u8)
    ensures Width(code) <= 8
  {
  }

  /** Environments agree on the maps behind handles renamed by h, and on refusing them. */
  ghost predicate SameMaps<H(!new), K>(h: H -> K, env: Env<H>, env': Env<K>) {
    && (forall x :: env'.deref(h(x)) == env.deref(x))
    && (forall id, x :: env'.refusal(id, h(x)) == env.refusal(id, x))
  }

  /** Wide loads that use their second half: constants and addresses put into a register. */
  predicate UsesSlot(i: Insn) { i.code == LDDW && (i.src == 0 || i.src == 2) && i.dst < 10 }

  lemma WideNatural<H(!new), K>(h: H -> K, isa: Isa, env: Env<H>, env': Env<K>, m: Machine<H>,
                                i: Insn, i': Insn, next: Insn, next': Insn)
    requires m.Running? && SameMaps(h, env, env') && i.code == LDDW
    requires i' == i.(imm := i'.imm) && (i.src == 0 ==> i' == i) && (UsesSlot(i) ==> next' == next)
    requires i.src in {1, 2} ==> env'.load(i'.imm) == h(env.load(i.imm))
    ensures MapMachine(h, WideStep(isa, env, m, i, next)) == WideStep(isa, env', MapMachine(h, m), i', next')
  {
    hide MapMem, MapRegs;
    match i.src
    case 0 => SetNatural(h, m, i.dst, Num(ToU32(i.imm) + TWO32 * ToU32(next.imm)), m.pc + 2);
    case 1 => SetNatural(h, m, i.dst, Ref(env.load(i.imm)), m.pc + 2);
    case 2 =>
      var o := env.deref(env.load(i.imm));
      SetNatural(h, m, i.dst, Num(ToU64((if o.Some? then isa.mapValue(o.value) else 0) + next.imm)), m.pc + 2);
    case _ =>
  }

  lemma DerefMem<H(!new), K>(h: H -> K, env: Env<H>, env': Env<K>, mem: Mem<H>)
    requires SameMaps(h, env, env')
    ensures MapMem(env'.deref, MapMem(h, mem)) == MapMem(env.deref, mem)
  {
  }

  lemma WrittenNatural<H, K>(h: H -> K, mem: Mem<H>, writes: map<u64, Source>)
    ensures MapMem(h, Written(mem, writes)) == Written(MapMem(h, mem), writes)
  {
  }

  lemma ReturnedNatural<H, K>(h: H -> K, m: Machine<H>, o: Outcome)
    requires m.Running?
    ensures MapMachine(h, Returned(m, o)) == Returned(MapMachine(h, m), o)
  {
    hide MapMem, MapRegs, Written;
    WrittenNatural(h, m.mem, o.writes);
    if |m.regs| >= 6 {
      var r := Returned(m, o);
      var r' := Returned(MapMachine(h, m), o);
      assert MapRegs(h, r.regs) == r'.regs;
    }
  }

  lemma ArgsNatural<H(!new), K>(h: H -> K, env: Env<H>, env': Env<K>, m: Machine<H>)
    requires m.Running? && SameMaps(h, env, env')
    ensures Args(env', MapMachine(h, m)) == Args(env, m)
  {
    hide MapMem, MapRegs, Get;
    GetNatural(h, m, 1);
    GetNatural(h, m, 2);
    GetNatural(h, m, 3);
    GetNatural(h, m, 4);
    GetNatural(h, m, 5);
  }

  lemma CallNatural<H(!new), K>(h: H -> K, isa: Isa, env: Env<H>, env': Env<K>, m: Machine<H>, i: Insn)
    requires m.Running? && SameMaps(h, env, env')
    ensures MapMachine(h, CallStep(isa, env, m, i)) == CallStep(isa, env', MapMachine(h, m), i)
  {
    hide MapMem, MapRegs, Returned, Args;
    ArgsNatural(h, env, env', m);
    DerefMem(h, env, env', m.mem);
    GetNatural(h, m, 1);
    var r1 := Get(m.regs, 1);
    if r1.Ref? {
      var refused := env.refusal(i.imm, r1.h);
      if refused.Some? { ReturnedNatural(h, m, Outcome(refused.value, map[])); }
    }
    var o := isa.helper(i.imm, Args(env, m), MapMem(env.deref, m.mem));
    if o.Some? { ReturnedNatural(h, m, o.value); }
  }

  predicate IsMapLoad(i: Insn) { i.code == LDDW && (i.src == 1 || i.src == 2) }

  /** Two programs alike but for the immediates of their map loads, which name the same handles. */
  ghost predicate Matches<H, K>(h: H -> K, env: Env<H>, code: seq<Insn>, env': Env<K>, code': seq<Insn>) {
    && |code'| == |code|
    && forall k :: 0 <= k < |code| ==>
         if IsMapLoad(code[k]) then
           code'[k] == code[k].(imm := code'[k].imm) && env'.load(code'[k].imm) == h(env.load(code[k].imm))
         else code'[k] == code[k]
  }

  /** The second halves that wide loads use are the same in both. */
  predicate SameSlots(code: seq<Insn>, code': seq<Insn>)
    requires |code'| == |code|
  {
    forall k :: 0 <= k && k + 1 < |code| && UsesSlot(code[k]) ==> code'[k + 1] == code[k + 1]
  }

  lemma StepNatural<H(!new), K>(h: H -> K, isa: Isa, env: Env<H>, code: seq<Insn>,
                                env': Env<K>, code': seq<Insn>, m: Machine<H>)
    requires SameMaps(h, env, env') && Matches(h, env, code, env', code') && SameSlots(code, code')
    ensures MapMachine(h, Step(isa, env, code, m)) == Step(isa, env', code', MapMachine(h, m))
  {
    hide MapMem, MapRegs, AluStep, JumpStep, LoadStep, StoreStep, WideStep, CallStep, SameMaps;
    if m.Running? && 0 <= m.pc < |code| {
      var i := code[m.pc];
      match i.code % 8
      case 0 =>
        if i.code == LDDW && m.pc + 1 < |code| {
          WideNatural(h, isa, env, env', m, i, code'[m.pc], code[m.pc + 1], code'[m.pc + 1]);
        }
      case 1 => LoadStepNatural(h, m, i);
      case 2 => StoreStepNatural(h, m, i);
      case 3 => StoreStepNatural(h, m, i);
      case 5 => if i.code == CALL { CallNatural(h, isa, env, env', m, i); } else { JumpNatural(h, isa, m, i); }
      case 6 => JumpNatural(h, isa, m, i);
      case _ => AluNatural(h, isa, m, i);
    }
  }

  /** Renaming handles commutes with any number of steps. */
  lemma {:induction false} StepsNatural<H(!new), K>(h: H -> K, isa: Isa, env: Env<H>, code: seq<Insn>,
                                                    env': Env<K>, code': seq<Insn>, m: Machine<H>, n: nat)
    requires SameMaps(h, env, env') && Matches(h, env, code, env', code') && SameSlots(code, code')
    ensures MapMachine(h, Steps(isa, env, code, m, n)) == Steps(isa, env', code', MapMachine(h, m), n)
    decreases n
  {
    hide MapMachine, Step, SameMaps, Matches, SameSlots;
    if n > 0 {
      StepNatural(h, isa, env, code, env', code', m);
      StepsNatural(h, isa, env, code, env', code', Step(isa, env, code, m), n - 1);
    }
  }

  const STORE_WORD: u8 := 0x7b
  const LOAD_WORD: u8 := 0x79

  /** A register saved to an aligned stack word and loaded from it again is unchanged, be it a
      number or a handle. */
  lemma SpillReload<H>(isa: Isa, env: Env<H>, code: seq<Insn>, m: Machine<H>, src: nat, dst: nat, off: int)
    requires m.Running? && 0 <= m.pc && m.pc + 1 < |code| && |m.regs| == 11 && src < 10 && dst < 10 && src != dst
    requires code[m.pc] == Insn(STORE_WORD, 10, src, off, 0) && code[m.pc + 1] == Insn(LOAD_WORD, dst, 10, off, 0)
    requires !m.regs[src].Unset? && m.regs[10].Num?
    requires var a := ToU64(m.regs[10].n + off); a % 8 == 0 && a / 8 in m.mem
    ensures var r := Steps(isa, env, code, m, 2);
            && r.Running? && r.pc == m.pc + 2 && r.regs == m.regs[dst := m.regs[src]]
  {
    hide AluStep, JumpStep, WideStep, CallStep, Store, Load;
    var a, v := ToU64(m.regs[10].n + off), m.regs[src];
    AlignedStoreWorks(m.mem, a, v);
    assert Pow256(8) == TWO64;
    StoreThenLoad(m.mem, a, 8, v);
    var m1 := Step(isa, env, code, m);
    assert m1 == m.(pc := m.pc + 1, mem := Store(m.mem, a, 8, v).value);
    var m2 := Step(isa, env, code, m1);
    assert Steps(isa, env, code, m, 2) == Steps(isa, env, code, m1, 1) == Steps(isa, env, code, m2, 0) == m2;
  }

  lemma AlignedStoreWorks<H>(mem: Mem<H>, a: u64, v: Val<H>)
    requires a % 8 == 0 && a / 8 in mem && !v.Unset?
    ensures Store(mem, a, 8, v).Some?
  {
    if v.Num? { AlignedPutWorks(mem, a, 0, Bytes(v.n, 8)); }
  }

  lemma {:induction false} AlignedPutWorks<H>(mem: Mem<H>, a: u64, i: nat, bytes: seq<u8>)
    requires a % 8 == 0 && a / 8 in mem && i + |bytes| <= 8
    ensures PutBytes(mem, a + i, bytes).Some?
    decreases |bytes|
  {
    if bytes != [] {
      assert ToU64(a + i) == a + i && (a + i) / 8 == a / 8;
      AlignedPutWorks(mem[a / 8 := WithByte(mem[a / 8], i, bytes[0])], a, i + 1, bytes[1..]);
      assert a + i + 1 == a + (i + 1);
    }
  }
}
