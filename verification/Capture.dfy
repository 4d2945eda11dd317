/** Capture of program code at load time: kept under the loading thread, moved to the program's
    id when the kernel assigns one. */
module Capture {
  import opened Words
  import opened Ebpf

  const CAPACITY: nat := 4096

  /** A copy of the whole capture buffer and the number of instructions that count. */
  datatype Data = Data(len: nat, code: seq<Insn>)

  predicate DataOk(d: Data) { d.len <= |d.code| }

  /** What the driver later takes out of it. */
  function Content(d: Data): seq<Insn>
    requires DataOk(d)
  {
    d.code[..d.len]
  }

  /** tgid in the upper half, and no process has tgid 0. */
  predicate ThreadKey(k: u64) { k >= TWO32 }

  lemma KeysApart(k: u64, id: u32)
    requires ThreadKey(k)
    ensures k != id
  {
  }

  /** The capture buffer and the table. */
  datatype Store = Store(buffer: seq<Insn>, table: map<u64, Data>)

  function Captured(s: Store, t: u64, code: seq<Insn>): Store
    requires |s.buffer| == CAPACITY && |code| <= CAPACITY
  {
    var buffer := code + s.buffer[|code|..];
    Store(buffer, if t in s.table then s.table else s.table[t := Data(|code|, buffer)])
  }

  function Assigned(s: Store, t: u64, id: u32): Store {
    if t !in s.table then s else s.(table := s.table[id := s.table[t]] - {t})
  }

  // ---- Many threads ----

  /** A load enters, gets its id, or fails in the kernel before it gets one. */
  datatype Action = Load(t: u64, code: seq<Insn>) | Assign(t: u64, id: u32) | Fail(t: u64)

  /** History: the code each loading thread passed; the code of its first load since it last got
      an id; and for each id the code its loader passed and the code that first load passed. */
  datatype State = State(
    store: Store, current: map<u64, seq<Insn>>, first: map<u64, seq<Insn>>,
    passed: map<u32, seq<Insn>>, earliest: map<u32, seq<Insn>>)

  predicate Legal(s: State, a: Action) {
    match a
    case Load(t, code) => ThreadKey(t) && t !in s.current && |code| <= CAPACITY
    case Assign(t, _) => t in s.current
    case Fail(t) => t in s.current
  }

  ghost predicate Inv(s: State) {
    && |s.store.buffer| == CAPACITY
    && (forall t :: t in s.current ==> ThreadKey(t) && t in s.first)
    && (forall t :: t in s.first <==> ThreadKey(t) && t in s.store.table)
    && (forall k :: k in s.store.table ==> DataOk(s.store.table[k]))
    && (forall t :: t in s.first ==> Content(s.store.table[t]) == s.first[t])
    && s.passed.Keys == s.earliest.Keys
    && (forall id :: id in s.earliest ==> id in s.store.table && Content(s.store.table[id]) == s.earliest[id])
  }

  function Apply(s: State, a: Action): State
    requires Legal(s, a) && |s.store.buffer| == CAPACITY
  {
    match a
    case Load(t, code) =>
      State(Captured(s.store, t, code), s.current[t := code],
            if t in s.first then s.first else s.first[t := code], s.passed, s.earliest)
    case Assign(t, id) =>
      State(Assigned(s.store, t, id), s.current - {t}, s.first - {t},
            s.passed[id := s.current[t]],
            if t in s.first then s.earliest[id := s.first[t]] else s.earliest)
    case Fail(t) => s.(current := s.current - {t})
  }

  lemma LoadKeeps(s: State, t: u64, code: seq<Insn>)
    requires Inv(s) && Legal(s, Load(t, code))
    ensures Inv(Apply(s, Load(t, code)))
  {
    var buffer := code + s.store.buffer[|code|..];
    assert buffer[..|code|] == code;
  }

  lemma AssignKeeps(s: State, t: u64, id: u32)
    requires Inv(s) && Legal(s, Assign(t, id))
    ensures Inv(Apply(s, Assign(t, id)))
  {
    hide Content;
    KeysApart(t, id);
  }

  lemma StepKeeps(s: State, a: Action)
    requires Inv(s) && Legal(s, a)
    ensures Inv(Apply(s, a))
  {
    match a
    case Load(t, code) => LoadKeeps(s, t, code);
    case Assign(t, id) => AssignKeeps(s, t, id);
    case Fail(t) =>
  }

  function Init(buffer: seq<Insn>): State { State(Store(buffer, map[]), map[], map[], map[], map[]) }

  ghost predicate LegalRun(s: State, acts: seq<Action>)
    decreases |acts|
  {
    && |s.store.buffer| == CAPACITY
    && (acts == [] || (Legal(s, acts[0]) && LegalRun(Apply(s, acts[0]), acts[1..])))
  }

  ghost function Run(s: State, acts: seq<Action>): State
    requires LegalRun(s, acts)
    decreases |acts|
  {
    if acts == [] then s else Run(Apply(s, acts[0]), acts[1..])
  }

  lemma {:induction false} RunKeeps(s: State, acts: seq<Action>)
    requires Inv(s) && LegalRun(s, acts)
    ensures Inv(Run(s, acts))
    decreases |acts|
  {
    hide Inv, Apply, Legal;
    if acts != [] {
      StepKeeps(s, acts[0]);
      RunKeeps(Apply(s, acts[0]), acts[1..]);
    }
  }

  /** Every run: under each id lies the code of the first load its thread made since that thread
      last got an id; thread keys and ids never meet. */
  lemma CaptureExact(buffer: seq<Insn>, acts: seq<Action>)
    requires |buffer| == CAPACITY && LegalRun(Init(buffer), acts)
    ensures var s := Run(Init(buffer), acts);
            && (forall id :: id in s.passed ==>
                  && id in s.earliest && id in s.store.table && DataOk(s.store.table[id])
                  && Content(s.store.table[id]) == s.earliest[id])
            && (forall t, id :: t in s.current && id in s.passed ==> t != id)
  {
    hide Run, LegalRun, Content;
    RunKeeps(Init(buffer), acts);
  }

  predicate NoneFails(acts: seq<Action>) { forall i :: 0 <= i < |acts| ==> !acts[i].Fail? }

  lemma {:induction false} RunDisciplined(s: State, acts: seq<Action>)
    requires LegalRun(s, acts) && NoneFails(acts) && s.first == s.current && s.passed == s.earliest
    ensures var r := Run(s, acts); r.first == r.current && r.passed == r.earliest
    decreases |acts|
  {
    hide Captured, Assigned;
    if acts != [] { RunDisciplined(Apply(s, acts[0]), acts[1..]); }
  }

  /** When every load reaches its id, the code stored under an id is the code its loader passed. */
  lemma CaptureFaithful(buffer: seq<Insn>, acts: seq<Action>)
    requires |buffer| == CAPACITY && LegalRun(Init(buffer), acts) && NoneFails(acts)
    ensures var s := Run(Init(buffer), acts);
            forall id :: id in s.passed ==>
              && id in s.store.table && DataOk(s.store.table[id])
              && Content(s.store.table[id]) == s.passed[id]
  {
    hide Run, LegalRun, Content;
    RunKeeps(Init(buffer), acts);
    RunDisciplined(Init(buffer), acts);
  }

  /** A load that finds an entry under its thread, from a failed load before it, gets that entry's
      code stored under its id; any other load gets its own. */
  lemma StoredIffNotStale(s: State, t: u64, code: seq<Insn>, id: u32)
    requires Inv(s) && Legal(s, Load(t, code))
    ensures var r := Apply(Apply(s, Load(t, code)), Assign(t, id));
            && id in r.store.table && DataOk(r.store.table[id])
            && (Content(r.store.table[id]) == code <==> t !in s.store.table || Content(s.store.table[t]) == code)
  {
    LoadKeeps(s, t, code);
    AssignKeeps(Apply(s, Load(t, code)), t, id);
    KeysApart(t, id);
  }

  /** A load that fails, then one that gets an id: the code of the first is stored for the second. */
  lemma StaleStored(buffer: seq<Insn>, t: u64, code: seq<Insn>, code': seq<Insn>, id: u32) returns (acts: seq<Action>)
    requires |buffer| == CAPACITY && ThreadKey(t) && |code| <= CAPACITY && |code'| <= CAPACITY
    ensures acts == [Load(t, code), Fail(t), Load(t, code'), Assign(t, id)] && LegalRun(Init(buffer), acts)
    ensures var s := Run(Init(buffer), acts);
            && s.passed == map[id := code'] && id in s.store.table && DataOk(s.store.table[id])
            && Content(s.store.table[id]) == code
  {
    hide Captured, Assigned, Content;
    var s0 := Init(buffer);
    LoadKeeps(s0, t, code);
    var s1 := Apply(s0, Load(t, code));
    var s2 := Apply(s1, Fail(t));
    StepKeeps(s1, Fail(t));
    LoadKeeps(s2, t, code');
    var s3 := Apply(s2, Load(t, code'));
    AssignKeeps(s3, t, id);
    var s4 := Apply(s3, Assign(t, id));
    acts := [Load(t, code), Fail(t), Load(t, code'), Assign(t, id)];
    assert acts[1..] == [Fail(t), Load(t, code'), Assign(t, id)];
    assert acts[1..][1..] == [Load(t, code'), Assign(t, id)];
    assert acts[1..][1..][1..] == [Assign(t, id)];
    assert LegalRun(s3, [Assign(t, id)]) && Run(s3, [Assign(t, id)]) == s4;
    assert LegalRun(s2, acts[1..][1..]) && Run(s2, acts[1..][1..]) == s4;
    assert LegalRun(s1, acts[1..]) && Run(s1, acts[1..]) == s4;
  }

  // ---- The enter handler ----

  const MOV_R0_0: Insn := Insn(0xb7, 0, 0, 0, 0)
  const EXIT_INSN: Insn := Insn(EXIT, 0, 0, 0, 0)

  datatype ProgType = Kprobe | Tracepoint | OtherType

  predicate ShouldReplace(count: nat, ty: ProgType, enabled: bool) { count >= 2 && enabled && !ty.OtherType? }

  class Probe {
    var buffer: seq<Insn>
    var table: map<u64, Data>

    constructor (zero: Insn)
      ensures |buffer| == CAPACITY && table == map[]
    {
      buffer, table := seq(CAPACITY, _ => zero), map[];
    }

    ghost function Now(): Store
      reads this
    {
      Store(buffer, table)
    }

    /** The code is captured as passed; only afterwards is the caller's program replaced by one
        that returns 0, and its count set to 2. */
    method OnProgLoad(t: u64, insns: array<Insn>, count: nat, ty: ProgType, enabled: bool) returns (newCount: nat)
      requires |buffer| == CAPACITY && count <= CAPACITY && count <= insns.Length
      modifies this, insns
      ensures Now() == Captured(old(Now()), t, old(insns[..count]))
      ensures newCount == if ShouldReplace(count, ty, enabled) then 2 else count
      ensures insns[..] == if ShouldReplace(count, ty, enabled) then [MOV_R0_0, EXIT_INSN] + old(insns[2..])
                           else old(insns[..])
    {
      var n := if CAPACITY > count then count else CAPACITY;
      buffer := insns[..n] + buffer[n..];
      if t !in table { table := table[t := Data(count, buffer)]; }
      newCount := count;
      if ShouldReplace(count, ty, enabled) {
        insns[0] := MOV_R0_0;
        insns[1] := EXIT_INSN;
        newCount := 2;
      }
    }

    method OnAssignId(t: u64, id: u32)
      modifies this
      ensures Now() == Assigned(old(Now()), t, id)
    {
      if t !in table { return; }
      table := table[id := table[t]];
      table := table - {t};
    }
  }
}
