/** The kernel tracer's enter and exit handlers over their per-thread argument tables. */
module Tracer {
  import opened Words

  datatype Call = Open | Openat | Bpf | PerfOpen | Ioctl
  datatype Table = OpenArgs | BpfArgs | PerfArgs | IoctlArgs
  datatype FdKind = ProgFd | MapFd | PerfFd | OtherFd

  /** What is kept of a descriptor: its kind and the kernel's id of its object. */
  datatype FdData = FdData(kind: FdKind, id: u32)

  /** A system call as it is entered: its six argument words, what the handler reads behind the
      attribute pointer, and whether a perf event is one for the daemon. */
  datatype Entry = Entry(call: Call, args: seq<u64>, attr: int, forDaemon: bool)

  datatype Saved = Saved(words: seq<int>, attr: int, forDaemon: bool)

  /** A report of a call that returned, with the program id looked up for an attaching ioctl; or of a close. */
  datatype Event = Report(thread: nat, table: Table, saw: Saved, prog: u32, ret: int) | Closed(thread: nat, fd: int)

  /** Which threads are traced, and whether events of no interest to the daemon are sent too. */
  datatype Config = Config(traced: nat -> bool, submit: bool)

  function TableOf(c: Call): Table {
    match c
    case Open | Openat => OpenArgs
    case Bpf => BpfArgs
    case PerfOpen => PerfArgs
    case Ioctl => IoctlArgs
  }

  predicate WellFormed(e: Entry) { |e.args| == 6 }

  /** What the enter handler keeps of the arguments. */
  function Keep(e: Entry): Saved
    requires WellFormed(e)
  {
    match e.call
    case Open => Saved([e.args[0], ToI32(e.args[1])], 0, false)
    case Openat => Saved([e.args[1], ToI32(e.args[2])], 0, false)
    case Bpf => Saved([ToU32(e.args[0]), ToU32(e.args[2])], e.attr, false)
    case PerfOpen => Saved([e.args[0], ToI32(e.args[1]), ToI32(e.args[2])], e.attr, e.forDaemon)
    case Ioctl => Saved([ToI32(e.args[0]), ToI32(e.args[1]), ToI32(e.args[2])], 0, false)
  }

  /** The process of a thread, and the key of one of its descriptors: sign extension of a negative
      descriptor covers the process. */
  function Process(thread: nat): nat { thread / TWO32 }
  function Pfd(pid: nat, fd: int): int { if fd >= 0 then pid * TWO32 + fd else TWO64 + fd }

  datatype Tables = Tables(saved: map<(Table, nat), Saved>, fds: map<int, FdData>, out: seq<Event>)

  /** An ioctl is noted only on a descriptor known to be a bpf one; the others always. */
  predicate Noted(c: Config, r: Tables, t: nat, e: Entry)
    requires WellFormed(e)
  {
    c.traced(t) && (e.call.Ioctl? ==> Pfd(Process(t), ToU32(ToI32(e.args[0]))) in r.fds)
  }

  function Entered(c: Config, r: Tables, t: nat, e: Entry): Tables
    requires WellFormed(e)
  {
    if Noted(c, r, t, e) then r.(saved := r.saved[(TableOf(e.call), t) := Keep(e)]) else r
  }

  const MAP_CREATE: int := 0
  const PROG_LOAD: int := 5
  const BTF_LOAD: int := 18
  const LINK_CREATE: int := 28

  /** `reserved` tells whether the ring buffer had room, `known` whether the kernel probes noted an
      id for the thread, and `id` which. */
  datatype Return = Return(value: int, reserved: bool, known: bool, id: u32)

  function BpfFdData(cmd: int, x: Return): (r: seq<FdData>)
    ensures |r| <= 1
  {
    if x.value < 0 then []
    else if cmd == PROG_LOAD && x.known then [FdData(ProgFd, x.id)]
    else if cmd == MAP_CREATE && x.known then [FdData(MapFd, x.id)]
    else if cmd == LINK_CREATE && x.known then [FdData(OtherFd, x.id)]
    else if cmd == BTF_LOAD then [FdData(OtherFd, 0)]
    else []
  }

  predicate BpfReports(c: Config, cmd: int, x: Return) {
    && x.value >= 0 && x.reserved
    && ((cmd == MAP_CREATE && x.known && c.submit) || (cmd == LINK_CREATE && x.known) || (cmd == BTF_LOAD && c.submit))
  }

  function WithFd(r: Tables, t: nat, fd: int, data: FdData): Tables {
    r.(fds := r.fds[Pfd(Process(t), ToU32(fd)) := data])
  }

  const SET_BPF: int := 0x4004_2408

  /** The kernel id of the program that an ioctl attaches, 0 if its descriptor is unknown or it attaches none. */
  function ProgramOf(r: Tables, t: nat, table: Table, s: Saved): u32 {
    if table.IoctlArgs? && |s.words| == 3 && s.words[1] == SET_BPF && Pfd(Process(t), s.words[2]) in r.fds
    then r.fds[Pfd(Process(t), s.words[2])].id
    else 0
  }

  function Reported(r: Tables, t: nat, table: Table, ret: int): Tables
    requires (table, t) in r.saved
  {
    var s := r.saved[(table, t)];
    r.(out := r.out + [Report(t, table, s, ProgramOf(r, t, table, s), ret)])
  }

  function Dropped(r: Tables, t: nat, table: Table): Tables { r.(saved := r.saved - {(table, t)}) }

  /** Open and ioctl: a failed reservation leaves the noted arguments behind. */
  function ExitPlain(r: Tables, t: nat, table: Table, x: Return): Tables
    requires (table, t) in r.saved
  {
    if !x.reserved then r else Dropped(Reported(r, t, table, x.value), t, table)
  }

  function ExitBpf(c: Config, r: Tables, t: nat, x: Return): Tables
    requires (BpfArgs, t) in r.saved
  {
    var s := r.saved[(BpfArgs, t)];
    var cmd := if |s.words| > 0 then s.words[0] else -1;
    var r1 := if BpfFdData(cmd, x) == [] then r else WithFd(r, t, x.value, BpfFdData(cmd, x)[0]);
    var r2 := if BpfReports(c, cmd, x) then Reported(r1, t, BpfArgs, x.value) else r1;
    Dropped(r2, t, BpfArgs)
  }

  function ExitPerf(r: Tables, t: nat, x: Return): Tables
    requires (PerfArgs, t) in r.saved
  {
    if r.saved[(PerfArgs, t)].forDaemon then ExitPlain(WithFd(r, t, x.value, FdData(PerfFd, 0)), t, PerfArgs, x)
    else Dropped(r, t, PerfArgs)
  }

  function Exited(c: Config, r: Tables, t: nat, call: Call, x: Return): Tables {
    if !c.traced(t) || (TableOf(call), t) !in r.saved then r
    else match TableOf(call)
      case BpfArgs => ExitBpf(c, r, t, x)
      case PerfArgs => ExitPerf(r, t, x)
      case other => ExitPlain(r, t, other, x)
  }

  function CloseEntered(c: Config, r: Tables, t: nat, fd: i32, reserved: bool): Tables {
    var key := Pfd(Process(t), fd);
    if !c.traced(t) || key !in r.fds || (!c.submit && r.fds[key].kind != PerfFd) || !reserved then r
    else r.(out := r.out + [Closed(t, fd)], fds := r.fds - {key})
  }

  // ---- Runs of many threads ----

  /** History: the call each thread is in and whether it was noted; the entries of the tables left
      behind by a failed reservation; and for each event the call it came from. */
  datatype Inside = Inside(entry: Entry, noted: bool)
  datatype Origin = NoCall | FromCall(entry: Entry, noted: bool, leftover: bool)
  datatype State = State(tables: Tables, inside: map<nat, Inside>, left: set<(Table, nat)>, origin: seq<Origin>)

  datatype Action = Enter(t: nat, entry: Entry) | Exit(t: nat, ret: Return) | Close(t: nat, fd: i32, reserved: bool)

  /** A thread is in at most one call, and leaves only a call it entered. */
  predicate Legal(s: State, a: Action) {
    match a
    case Enter(t, e) => t !in s.inside && WellFormed(e)
    case Exit(t, _) => t in s.inside
    case Close(t, _, _) => t !in s.inside
  }

  predicate Seen(c: Config, r: Tables, t: nat, call: Call) { c.traced(t) && (TableOf(call), t) in r.saved }

  function Apply(c: Config, s: State, a: Action): State
    requires Legal(s, a)
  {
    match a
    case Enter(t, e) =>
      var noted := Noted(c, s.tables, t, e);
      State(Entered(c, s.tables, t, e), s.inside[t := Inside(e, noted)],
            if noted then s.left - {(TableOf(e.call), t)} else s.left, s.origin)
    case Exit(t, x) =>
      var e := s.inside[t].entry;
      var key := (TableOf(e.call), t);
      var r := Exited(c, s.tables, t, e.call, x);
      State(r, s.inside - {t},
            if key in r.saved then s.left + {key} else s.left - {key},
            s.origin + if |r.out| > |s.tables.out| then [FromCall(e, s.inside[t].noted, key in s.left)] else [])
    case Close(t, fd, reserved) =>
      var r := CloseEntered(c, s.tables, t, fd, reserved);
      State(r, s.inside, s.left, s.origin + if |r.out| > |s.tables.out| then [NoCall] else [])
  }

  // ---- The invariant ----

  ghost predicate EntriesOk(s: State) {
    forall t :: t in s.inside ==> WellFormed(s.inside[t].entry)
  }

  /** An entry of a table is that of the call its thread is in, unless it was left behind. */
  ghost predicate Owned(s: State) {
    && EntriesOk(s) && s.left <= s.tables.saved.Keys
    && forall k :: k in s.tables.saved && k !in s.left ==>
         k.1 in s.inside && TableOf(s.inside[k.1].entry.call) == k.0 && s.tables.saved[k] == Keep(s.inside[k.1].entry)
  }

  /** A noted call is in its table; only ioctls and untraced threads go unnoted. */
  ghost predicate NotedOk(c: Config, s: State) {
    && EntriesOk(s) && (forall k :: k in s.tables.saved ==> c.traced(k.1))
    && forall t :: t in s.inside ==>
         && (s.inside[t].noted ==>
               var k := (TableOf(s.inside[t].entry.call), t); k in s.tables.saved && k !in s.left)
         && (!s.inside[t].noted ==>
               && (!c.traced(t) || s.inside[t].entry.call.Ioctl?)
               && var k := (TableOf(s.inside[t].entry.call), t); k in s.tables.saved ==> k in s.left)
  }

  /** Every report carries what its own call was entered with, unless it shows a leftover. */
  predicate ReportOk(e: Event, o: Origin) {
    match e
    case Closed(_, _) => o.NoCall?
    case Report(t, table, saw, _, _) =>
      && o.FromCall? && WellFormed(o.entry) && TableOf(o.entry.call) == table
      && (o.leftover <==> !o.noted)
      && (if o.leftover then o.entry.call.Ioctl? else saw == Keep(o.entry))
  }

  ghost predicate ReportsOk(s: State) {
    && |s.origin| == |s.tables.out|
    && forall i :: 0 <= i < |s.origin| ==> ReportOk(s.tables.out[i], s.origin[i])
  }

  ghost predicate Inv(c: Config, s: State) { Owned(s) && NotedOk(c, s) && ReportsOk(s) }

  lemma EnterOwned(c: Config, s: State, t: nat, e: Entry)
    requires Owned(s) && NotedOk(c, s) && Legal(s, Enter(t, e))
    ensures Owned(Apply(c, s, Enter(t, e)))
  {
    hide Keep, NotedOk, Noted;
  }

  lemma EnterNoted(c: Config, s: State, t: nat, e: Entry)
    requires Owned(s) && NotedOk(c, s) && Legal(s, Enter(t, e))
    ensures NotedOk(c, Apply(c, s, Enter(t, e)))
  {
    hide Keep;
  }

  lemma EnterReports(c: Config, s: State, t: nat, e: Entry)
    requires ReportsOk(s) && Legal(s, Enter(t, e))
    ensures ReportsOk(Apply(c, s, Enter(t, e)))
  {
  }

  /** All an exit does: perhaps one report of what it saw, perhaps a removal of what it saw. */
  lemma ExitEffect(c: Config, r: Tables, t: nat, call: Call, x: Return)
    ensures var k := (TableOf(call), t); var r' := Exited(c, r, t, call, x);
            && (r'.saved == r.saved || (Seen(c, r, t, call) && r'.saved == r.saved - {k}))
            && (r'.out == r.out
                || (Seen(c, r, t, call)
                    && r'.out == r.out + [Report(t, TableOf(call), r.saved[k],
                                                 ProgramOf(r, t, TableOf(call), r.saved[k]), x.value)]))
            && (Seen(c, r, t, call) && x.reserved ==> k !in r'.saved)
            && (Seen(c, r, t, call) && call.Bpf? ==> k !in r'.saved)
  {
  }

  /** What a leaving thread finds is its own, unless it is an unnoted ioctl finding a leftover. */
  lemma WhatExitSees(c: Config, s: State, t: nat)
    requires Owned(s) && NotedOk(c, s) && t in s.inside
    ensures var e := s.inside[t].entry; var k := (TableOf(e.call), t);
            Seen(c, s.tables, t, e.call) ==>
              && (k in s.left <==> !s.inside[t].noted)
              && (if k in s.left then e.call.Ioctl? else s.tables.saved[k] == Keep(e))
  {
  }

  lemma ExitReports(c: Config, s: State, t: nat, x: Return)
    requires Inv(c, s) && t in s.inside
    ensures ReportsOk(Apply(c, s, Exit(t, x)))
  {
    hide Exited, Keep, Owned, NotedOk;
    ExitEffect(c, s.tables, t, s.inside[t].entry.call, x);
    WhatExitSees(c, s, t);
    EntryWellFormed(c, s, t);
  }

  lemma EntryWellFormed(c: Config, s: State, t: nat)
    requires Owned(s) && t in s.inside
    ensures WellFormed(s.inside[t].entry)
  {
  }

  lemma ExitOwned(c: Config, s: State, t: nat, x: Return)
    requires Owned(s) && NotedOk(c, s) && t in s.inside
    ensures Owned(Apply(c, s, Exit(t, x)))
  {
    hide Exited, Keep, NotedOk;
    ExitEffect(c, s.tables, t, s.inside[t].entry.call, x);
  }

  lemma ExitNoted(c: Config, s: State, t: nat, x: Return)
    requires Owned(s) && NotedOk(c, s) && t in s.inside
    ensures NotedOk(c, Apply(c, s, Exit(t, x)))
  {
    hide Exited, Keep, Owned;
    ExitEffect(c, s.tables, t, s.inside[t].entry.call, x);
  }

  lemma CloseKeeps(c: Config, s: State, t: nat, fd: i32, reserved: bool)
    requires Inv(c, s) && Legal(s, Close(t, fd, reserved))
    ensures Inv(c, Apply(c, s, Close(t, fd, reserved)))
  {
    hide Keep;
  }

  lemma StepKeeps(c: Config, s: State, a: Action)
    requires Inv(c, s) && Legal(s, a)
    ensures Inv(c, Apply(c, s, a))
  {
    hide Owned, NotedOk, ReportsOk, Apply;
    match a
    case Enter(t, e) => EnterOwned(c, s, t, e); EnterNoted(c, s, t, e); EnterReports(c, s, t, e);
    case Exit(t, x) => ExitOwned(c, s, t, x); ExitNoted(c, s, t, x); ExitReports(c, s, t, x);
    case Close(t, fd, reserved) => CloseKeeps(c, s, t, fd, reserved);
  }

  function Init(fds: map<int, FdData>): State { State(Tables(map[], fds, []), map[], {}, []) }

  ghost predicate LegalRun(c: Config, s: State, acts: seq<Action>)
    decreases |acts|
  {
    acts == [] || (Legal(s, acts[0]) && LegalRun(c, Apply(c, s, acts[0]), acts[1..]))
  }

  ghost function Run(c: Config, s: State, acts: seq<Action>): State
    requires LegalRun(c, s, acts)
    decreases |acts|
  {
    if acts == [] then s else Run(c, Apply(c, s, acts[0]), acts[1..])
  }

  lemma {:induction false} RunKeeps(c: Config, s: State, acts: seq<Action>)
    requires Inv(c, s) && LegalRun(c, s, acts)
    ensures Inv(c, Run(c, s, acts))
    decreases |acts|
  {
    hide Inv, Apply, Legal;
    if acts != [] {
      StepKeeps(c, s, acts[0]);
      RunKeeps(c, Apply(c, s, acts[0]), acts[1..]);
    }
  }

  /** Whatever the interleaving, and even when the ring buffer is full at times: a report carries the
      arguments its own thread entered that same call with if and only if the call was noted on entry,
      which only an ioctl on an unknown descriptor is not; any other shows arguments that an earlier
      failed reservation left behind. The same holds of what a thread still inside would find. */
  lemma Pairing(c: Config, fds: map<int, FdData>, acts: seq<Action>)
    requires LegalRun(c, Init(fds), acts)
    ensures var s := Run(c, Init(fds), acts);
            && |s.origin| == |s.tables.out|
            && (forall i :: 0 <= i < |s.origin| && s.tables.out[i].Report? ==>
                  && s.origin[i].FromCall? && WellFormed(s.origin[i].entry)
                  && (s.origin[i].leftover <==> !s.origin[i].noted)
                  && (s.origin[i].leftover ==> s.origin[i].entry.call.Ioctl?)
                  && (!s.origin[i].leftover ==> s.tables.out[i].saw == Keep(s.origin[i].entry)))
            && (forall t :: t in s.inside && Seen(c, s.tables, t, s.inside[t].entry.call) ==> FindsOwnIffNoted(s, t))
  {
    hide Run, LegalRun, Keep, Seen;
    InitInv(c, fds);
    RunKeeps(c, Init(fds), acts);
    var s := Run(c, Init(fds), acts);
    forall t | t in s.inside && Seen(c, s.tables, t, s.inside[t].entry.call) ensures FindsOwnIffNoted(s, t) {
      SeenIsSaved(c, s.tables, t, s.inside[t].entry.call);
      WhatExitSees(c, s, t);
    }
  }

  /** What thread t finds when it leaves: its own arguments if its call was noted, else a leftover. */
  ghost predicate FindsOwnIffNoted(s: State, t: nat) {
    && t in s.inside && WellFormed(s.inside[t].entry)
    && var k := (TableOf(s.inside[t].entry.call), t);
       && k in s.tables.saved && (k in s.left <==> !s.inside[t].noted)
       && (if k in s.left then s.inside[t].entry.call.Ioctl? else s.tables.saved[k] == Keep(s.inside[t].entry))
  }

  lemma SeenIsSaved(c: Config, r: Tables, t: nat, call: Call)
    requires Seen(c, r, t, call)
    ensures (TableOf(call), t) in r.saved
  {
  }

  lemma InitInv(c: Config, fds: map<int, FdData>)
    ensures Inv(c, Init(fds))
  {
  }

  predicate AllReserved(acts: seq<Action>) {
    forall i :: 0 <= i < |acts| && acts[i].Exit? ==> acts[i].ret.reserved
  }

  lemma StepLeavesNothing(c: Config, s: State, a: Action)
    requires Inv(c, s) && Legal(s, a) && s.left == {} && (a.Exit? ==> a.ret.reserved)
    ensures Apply(c, s, a).left == {}
  {
    hide Keep, Exited, ReportsOk;
    if a.Exit? { ExitEffect(c, s.tables, a.t, s.inside[a.t].entry.call, a.ret); }
  }

  lemma {:induction false} RunLeavesNothing(c: Config, s: State, acts: seq<Action>)
    requires Inv(c, s) && LegalRun(c, s, acts) && AllReserved(acts) && s.left == {}
    ensures Run(c, s, acts).left == {}
    decreases |acts|
  {
    hide Inv, Apply, Legal;
    if acts != [] {
      StepKeeps(c, s, acts[0]);
      StepLeavesNothing(c, s, acts[0]);
      RunLeavesNothing(c, Apply(c, s, acts[0]), acts[1..]);
    }
  }

  /** When no reservation fails, every table holds only the arguments of threads inside a call of
      its kind, whatever the call. */
  lemma TablesHoldOnlyCallers(c: Config, fds: map<int, FdData>, acts: seq<Action>)
    requires LegalRun(c, Init(fds), acts) && AllReserved(acts)
    ensures var s := Run(c, Init(fds), acts);
            forall k :: k in s.tables.saved ==>
              && k.1 in s.inside && TableOf(s.inside[k.1].entry.call) == k.0 && WellFormed(s.inside[k.1].entry)
              && s.tables.saved[k] == Keep(s.inside[k.1].entry)
  {
    hide Run, LegalRun, Keep;
    InitInv(c, fds);
    RunKeeps(c, Init(fds), acts);
    RunLeavesNothing(c, Init(fds), acts);
  }

  // ---- Descriptors over a run ----

  /** A call whose return makes its descriptor known: a bpf call that made an object the probes know,
      or the opening of a perf event for the daemon. */
  predicate MakesFd(e: Entry, x: Return)
    requires WellFormed(e)
  {
    (e.call.Bpf? && BpfFdData(ToU32(e.args[0]), x) != []) || (e.call.PerfOpen? && e.forDaemon)
  }

  predicate Records(c: Config, s: State, a: Action, key: int) {
    && a.Exit? && a.t in s.inside && WellFormed(s.inside[a.t].entry) && c.traced(a.t)
    && Pfd(Process(a.t), ToU32(a.ret.value)) == key && MakesFd(s.inside[a.t].entry, a.ret)
  }

  /** The close of a known descriptor that the tracer acts on: traced, with room for the report, and of
      a perf event unless all events are submitted. */
  predicate Forgets(c: Config, s: State, a: Action, key: int) {
    && a.Close? && Pfd(Process(a.t), a.fd) == key && key in s.tables.fds
    && c.traced(a.t) && a.reserved && (c.submit || s.tables.fds[key].kind == PerfFd)
  }

  /** What an exit records, given the arguments it finds. */
  function Written(call: Call, s: Saved, x: Return): (r: seq<FdData>)
    ensures |r| <= 1
  {
    match TableOf(call)
    case BpfArgs => BpfFdData(if |s.words| > 0 then s.words[0] else -1, x)
    case PerfArgs => if s.forDaemon then [FdData(PerfFd, 0)] else []
    case _ => []
  }

  lemma ExitedFds(c: Config, r: Tables, t: nat, call: Call, x: Return)
    ensures var k := (TableOf(call), t); var f := Exited(c, r, t, call, x).fds;
            if Seen(c, r, t, call) && Written(call, r.saved[k], x) != []
            then f == r.fds[Pfd(Process(t), ToU32(x.value)) := Written(call, r.saved[k], x)[0]]
            else f == r.fds
  {
  }

  /** With the invariant an exit finds and records exactly if its call makes a descriptor. */
  lemma WrittenIff(c: Config, s: State, t: nat, x: Return)
    requires Inv(c, s) && t in s.inside && c.traced(t)
    ensures var e := s.inside[t].entry; var k := (TableOf(e.call), t);
            && WellFormed(e)
            && (Seen(c, s.tables, t, e.call) && Written(e.call, s.tables.saved[k], x) != [] <==> MakesFd(e, x))
            && (MakesFd(e, x) ==> Written(e.call, s.tables.saved[k], x) == Written(e.call, Keep(e), x))
  {
    hide ReportsOk;
    WhatExitSees(c, s, t);
  }

  lemma ExitFds(c: Config, s: State, t: nat, x: Return, key: int)
    requires Inv(c, s) && t in s.inside
    ensures var r, r' := s.tables, Apply(c, s, Exit(t, x)).tables;
            && (key in r'.fds <==> key in r.fds || Records(c, s, Exit(t, x), key))
            && (key in r.fds && !Records(c, s, Exit(t, x), key) ==> r'.fds[key] == r.fds[key])
            && (Records(c, s, Exit(t, x), key) ==>
                  var e := s.inside[t].entry;
                  Written(e.call, Keep(e), x) != [] && r'.fds[key] == Written(e.call, Keep(e), x)[0])
  {
    hide Exited, Written, MakesFd, Inv, Keep;
    ExitedFds(c, s.tables, t, s.inside[t].entry.call, x);
    if c.traced(t) { WrittenIff(c, s, t, x); }
  }

  lemma CloseFds(c: Config, s: State, t: nat, fd: i32, reserved: bool, key: int)
    requires Legal(s, Close(t, fd, reserved))
    ensures var r, r' := s.tables, Apply(c, s, Close(t, fd, reserved)).tables;
            && (key in r'.fds <==> key in r.fds && !Forgets(c, s, Close(t, fd, reserved), key))
            && (key in r'.fds ==> r'.fds[key] == r.fds[key])
  {
  }

  /** A descriptor is known after a step exactly if it was recorded, or known and not forgotten; what is
      known of it changes only when it is recorded. */
  lemma StepFds(c: Config, s: State, a: Action, key: int)
    requires Inv(c, s) && Legal(s, a)
    ensures var r, r' := s.tables, Apply(c, s, a).tables;
            && (key in r'.fds <==> Records(c, s, a, key) || (key in r.fds && !Forgets(c, s, a, key)))
            && (key in r'.fds && !Records(c, s, a, key) ==> r'.fds[key] == r.fds[key])
  {
    hide Exited, CloseEntered, Inv, MakesFd;
    match a
    case Enter(_, _) =>
    case Exit(t, x) => ExitFds(c, s, t, x, key);
    case Close(t, fd, reserved) => CloseFds(c, s, t, fd, reserved, key);
  }

  ghost predicate NoneRecords(c: Config, s: State, acts: seq<Action>, key: int)
    requires LegalRun(c, s, acts)
    decreases |acts|
  {
    acts != [] ==> !Records(c, s, acts[0], key) && NoneRecords(c, Apply(c, s, acts[0]), acts[1..], key)
  }

  ghost predicate NoneForgets(c: Config, s: State, acts: seq<Action>, key: int)
    requires LegalRun(c, s, acts)
    decreases |acts|
  {
    acts != [] ==> !Forgets(c, s, acts[0], key) && NoneForgets(c, Apply(c, s, acts[0]), acts[1..], key)
  }

  /** Over every run a descriptor stays known until a close of it is acted on, and does not become known
      or change until a call that makes one returns it. */
  lemma {:induction false} RunFds(c: Config, s: State, acts: seq<Action>, key: int)
    requires Inv(c, s) && LegalRun(c, s, acts)
    ensures var r, r' := s.tables, Run(c, s, acts).tables;
            && (key in r.fds && NoneForgets(c, s, acts, key) ==> key in r'.fds)
            && (NoneRecords(c, s, acts, key) && key in r'.fds ==> key in r.fds && r'.fds[key] == r.fds[key])
    decreases |acts|
  {
    hide Apply, Legal, Records, Forgets, Inv;
    if acts != [] {
      StepKeeps(c, s, acts[0]);
      StepFds(c, s, acts[0], key);
      RunFds(c, Apply(c, s, acts[0]), acts[1..], key);
    }
  }

  /** The descriptor is recorded and not forgotten after. */
  ghost predicate RecordedAndKept(c: Config, s: State, acts: seq<Action>, key: int)
    requires LegalRun(c, s, acts)
    decreases |acts|
  {
    acts != [] &&
    var s1 := Apply(c, s, acts[0]);
    || (Records(c, s, acts[0], key) && NoneForgets(c, s1, acts[1..], key))
    || RecordedAndKept(c, s1, acts[1..], key)
  }

  /** What the tracer knows after a run: what was recorded, or known before, and not forgotten since. */
  lemma {:induction false} KnownIff(c: Config, s: State, acts: seq<Action>, key: int)
    requires Inv(c, s) && LegalRun(c, s, acts)
    ensures key in Run(c, s, acts).tables.fds <==>
            (key in s.tables.fds && NoneForgets(c, s, acts, key)) || RecordedAndKept(c, s, acts, key)
    decreases |acts|
  {
    hide Apply, Legal, Records, Forgets, Inv;
    if acts != [] {
      StepKeeps(c, s, acts[0]);
      StepFds(c, s, acts[0], key);
      RecordsOrForgets(c, s, acts[0], key);
      KnownIff(c, Apply(c, s, acts[0]), acts[1..], key);
    }
  }

  lemma RecordsOrForgets(c: Config, s: State, a: Action, key: int)
    ensures !(Records(c, s, a, key) && Forgets(c, s, a, key))
  {
  }

  /** A perf_event_open is reported exactly if it is traced, for the daemon, and there is room. */
  lemma PerfReported(c: Config, s: State, t: nat, x: Return)
    requires Inv(c, s) && t in s.inside && s.inside[t].entry.call.PerfOpen?
    ensures var e, out := s.inside[t].entry, s.tables.out;
            && WellFormed(e)
            && Apply(c, s, Exit(t, x)).tables.out ==
               out + if c.traced(t) && e.forDaemon && x.reserved then [Report(t, PerfArgs, Keep(e), 0, x.value)] else []
  {
    hide ReportsOk;
    WhatExitSees(c, s, t);
  }

  lemma IoctlNoted(c: Config, r: Tables, u: nat, e: Entry)
    requires WellFormed(e) && e.call.Ioctl? && e.args[0] < TWO31 && c.traced(u)
    ensures Noted(c, r, u, e) <==> Pfd(Process(u), e.args[0]) in r.fds
  {
    assert ToU32(ToI32(e.args[0])) == e.args[0];
  }

  /** From the opening of a perf event for the daemon on, until a close of it is acted on, every ioctl on
      it by a traced thread of its process is noted. */
  lemma PerfFdNoted(c: Config, s: State, t: nat, x: Return, acts: seq<Action>, u: nat, e: Entry)
    requires Inv(c, s) && t in s.inside && s.inside[t].entry.call.PerfOpen? && s.inside[t].entry.forDaemon
    requires c.traced(t) && c.traced(u) && Process(u) == Process(t) && 0 <= x.value < TWO31
    requires var s1 := Apply(c, s, Exit(t, x));
             LegalRun(c, s1, acts) && NoneForgets(c, s1, acts, Pfd(Process(t), x.value))
    requires WellFormed(e) && e.call.Ioctl? && e.args[0] == x.value
    ensures Noted(c, Run(c, Apply(c, s, Exit(t, x)), acts).tables, u, e)
  {
    hide Apply, Run, LegalRun, Noted, NoneForgets;
    var s1, key := Apply(c, s, Exit(t, x)), Pfd(Process(t), x.value);
    StepKeeps(c, s, Exit(t, x));
    ExitFds(c, s, t, x, key);
    RunFds(c, s1, acts, key);
    IoctlNoted(c, Run(c, s1, acts).tables, u, e);
  }

  /** After any close of a known descriptor, until it is recorded or forgotten by something else, ioctls
      of the process on it go unnoted if and only if the tracer acted on the close. */
  lemma ClosedFdUnnotedIff(c: Config, s: State, t: nat, fd: i32, reserved: bool, acts: seq<Action>, u: nat, e: Entry)
    requires Inv(c, s) && Legal(s, Close(t, fd, reserved)) && fd >= 0 && Pfd(Process(t), fd) in s.tables.fds
    requires c.traced(u) && Process(u) == Process(t)
    requires var s1, key := Apply(c, s, Close(t, fd, reserved)), Pfd(Process(t), fd);
             LegalRun(c, s1, acts) && NoneRecords(c, s1, acts, key) && NoneForgets(c, s1, acts, key)
    requires WellFormed(e) && e.call.Ioctl? && e.args[0] == fd
    ensures !Noted(c, Run(c, Apply(c, s, Close(t, fd, reserved)), acts).tables, u, e)
            <==> c.traced(t) && reserved && (c.submit || s.tables.fds[Pfd(Process(t), fd)].kind == PerfFd)
  {
    hide Apply, Run, LegalRun, Noted, NoneForgets, NoneRecords;
    var a, key := Close(t, fd, reserved), Pfd(Process(t), fd);
    StepKeeps(c, s, a);
    CloseFds(c, s, t, fd, reserved, key);
    RunFds(c, Apply(c, s, a), acts, key);
    IoctlNoted(c, Run(c, Apply(c, s, a), acts).tables, u, e);
  }

  /** A call that makes a descriptor returns; then calls that neither close it nor make it again. */
  ghost predicate Stays(c: Config, s: State, t: nat, x: Return, acts: seq<Action>) {
    && Inv(c, s) && t in s.inside && MakesFd(s.inside[t].entry, x) && c.traced(t) && 0 <= x.value < TWO31
    && var s1, key := Apply(c, s, Exit(t, x)), Pfd(Process(t), x.value);
       LegalRun(c, s1, acts) && NoneRecords(c, s1, acts, key) && NoneForgets(c, s1, acts, key)
  }

  /** The tracer then knows under the descriptor what the call made. */
  lemma MadeFdKnown(c: Config, s: State, t: nat, x: Return, acts: seq<Action>)
    requires Stays(c, s, t, x, acts)
    ensures var r, key := Run(c, Apply(c, s, Exit(t, x)), acts).tables, Pfd(Process(t), x.value);
            var e := s.inside[t].entry;
            && WellFormed(e) && key in r.fds && Written(e.call, Keep(e), x) == [r.fds[key]]
  {
    hide Run, LegalRun, NoneForgets, NoneRecords, Apply, Written, Keep;
    var s1, key := Apply(c, s, Exit(t, x)), Pfd(Process(t), x.value);
    EntryWellFormed(c, s, t);
    ExitFds(c, s, t, x, key);
    StepKeeps(c, s, Exit(t, x));
    RunFds(c, s1, acts, key);
  }

  /** A map or a program, as the kernel probes noted its id. */
  ghost predicate MakesObject(s: State, t: nat, x: Return, cmd: int) {
    t in s.inside && s.inside[t].entry.call.Bpf? && WellFormed(s.inside[t].entry)
    && s.inside[t].entry.args[0] == cmd && x.known && x.value >= 0
  }

  /** So it knows the kernel id of a map or program under the descriptor its process was given. */
  lemma ObjectIdKnown(c: Config, s: State, t: nat, x: Return, acts: seq<Action>, cmd: int)
    requires (cmd == MAP_CREATE || cmd == PROG_LOAD) && MakesObject(s, t, x, cmd) && Stays(c, s, t, x, acts)
    ensures var r, key := Run(c, Apply(c, s, Exit(t, x)), acts).tables, Pfd(Process(t), x.value);
            key in r.fds && r.fds[key] == FdData(if cmd == MAP_CREATE then MapFd else ProgFd, x.id)
  {
    hide Run, Stays, Apply;
    MadeFdKnown(c, s, t, x, acts);
  }

  /** And an ioctl that attaches a program reports the id known under the program's descriptor. */
  lemma AttachReportsId(c: Config, s: State, t: nat, x: Return)
    requires Inv(c, s) && t in s.inside && s.inside[t].noted && c.traced(t) && x.reserved
    requires s.inside[t].entry.call.Ioctl? && ToI32(s.inside[t].entry.args[1]) == SET_BPF
    ensures var e := s.inside[t].entry; var key := Pfd(Process(t), ToI32(e.args[2]));
            Apply(c, s, Exit(t, x)).tables.out == s.tables.out
              + [Report(t, IoctlArgs, Keep(e), if key in s.tables.fds then s.tables.fds[key].id else 0, x.value)]
  {
    hide ReportsOk;
    WhatExitSees(c, s, t);
  }

  // ---- A leftover can be reported ----

  lemma {:induction false} RunSnoc(c: Config, s: State, acts: seq<Action>, a: Action)
    requires LegalRun(c, s, acts) && Legal(Run(c, s, acts), a)
    ensures LegalRun(c, s, acts + [a]) && Run(c, s, acts + [a]) == Apply(c, Run(c, s, acts), a)
    decreases |acts|
  {
    hide Apply, Legal;
    if acts == [] {
      assert (acts + [a])[1..] == [];
    } else {
      assert (acts + [a])[1..] == acts[1..] + [a];
      RunSnoc(c, Apply(c, s, acts[0]), acts[1..], a);
    }
  }

  lemma Extend(c: Config, s0: State, acts: seq<Action>, s: State, a: Action) returns (acts': seq<Action>, s': State)
    requires LegalRun(c, s0, acts) && s == Run(c, s0, acts) && Legal(s, a)
    ensures LegalRun(c, s0, acts') && s' == Run(c, s0, acts') && s' == Apply(c, s, a) && acts' == acts + [a]
  {
    RunSnoc(c, s0, acts, a);
    acts', s' := acts + [a], Apply(c, s, a);
  }

  function IoctlOn(fd: u64, req: u64): Entry { Entry(Ioctl, [fd, req, 0, 0, 0, 0], 0, false) }

  lemma DifferentIoctls(a: u64, b: u64)
    requires a < TWO31 && b < TWO31 && a != b
    ensures Keep(IoctlOn(a, 1)) != Keep(IoctlOn(b, 2))
  {
    assert Keep(IoctlOn(a, 1)).words[0] == a && Keep(IoctlOn(b, 2)).words[0] == b;
  }

  lemma NotedIff(c: Config, r: Tables, t: nat, fd: u64, req: u64)
    requires fd < TWO31
    ensures Noted(c, r, t, IoctlOn(fd, req)) <==> c.traced(t) && Pfd(Process(t), fd) in r.fds
  {
  }

  /** An ioctl on a bpf descriptor whose report could not be reserved, then one on an ordinary
      descriptor: the second is reported with the arguments of the first. */
  lemma LeftoverReported(c: Config, t: nat, perf: u64, other: u64) returns (acts: seq<Action>, s0: State)
    requires c.traced(t) && perf < TWO31 && other < TWO31 && perf != other
    ensures s0 == Init(map[Pfd(Process(t), perf) := FdData(PerfFd, 0)]) && LegalRun(c, s0, acts)
    ensures var s := Run(c, s0, acts);
            && s.tables.out == [Report(t, IoctlArgs, Keep(IoctlOn(perf, 1)), 0, 0)]
            && s.origin == [FromCall(IoctlOn(other, 2), false, true)]
            && Keep(IoctlOn(perf, 1)) != Keep(IoctlOn(other, 2))
  {
    hide Run, LegalRun, Keep, Noted;
    DifferentIoctls(perf, other);
    s0 := Init(map[Pfd(Process(t), perf) := FdData(PerfFd, 0)]);
    acts := [];
    var s := s0;
    NoActs(c, s0);
    NotedIff(c, s.tables, t, perf, 1);
    acts, s := Extend(c, s0, acts, s, Enter(t, IoctlOn(perf, 1)));
    acts, s := Extend(c, s0, acts, s, Exit(t, Return(0, false, false, 0)));
    assert s.tables.saved == map[(IoctlArgs, t) := Keep(IoctlOn(perf, 1))] && s.left == {(IoctlArgs, t)};
    NotedIff(c, s.tables, t, other, 2);
    acts, s := Extend(c, s0, acts, s, Enter(t, IoctlOn(other, 2)));
    acts, s := Extend(c, s0, acts, s, Exit(t, Return(0, true, false, 0)));
  }

  function MapCreateCall(): Entry { Entry(Bpf, [MAP_CREATE, 0, 0, 0, 0, 0], 0, false) }
  function OpenCall(): Entry { Entry(Open, [0, 0, 0, 0, 0, 0], 0, false) }

  /** Without submission of all events, as by default, a map's descriptor outlives its close. */
  lemma ClosedMapStays(c: Config, t: nat, fd: u64) returns (acts: seq<Action>, s: State)
    requires c.traced(t) && !c.submit && fd < TWO31
    ensures LegalRun(c, Init(map[]), acts) && s == Run(c, Init(map[]), acts)
    ensures s == Init(map[Pfd(Process(t), fd) := FdData(MapFd, 1)])
    ensures acts == [Enter(t, MapCreateCall()), Exit(t, Return(fd, true, true, 1)), Close(t, fd, true)]
  {
    hide Run, LegalRun, Keep, Noted;
    var s0 := Init(map[]);
    NoActs(c, s0);
    NotedAlways(c, s0.tables, t, MapCreateCall());
    MapCreateKept();
    acts, s := Extend(c, s0, [], s0, Enter(t, MapCreateCall()));
    acts, s := Extend(c, s0, acts, s, Exit(t, Return(fd, true, true, 1)));
    acts, s := Extend(c, s0, acts, s, Close(t, fd, true));
  }

  /** So when the process is given the number again for an ordinary file, its ioctl on that file is noted. */
  lemma StaleFdNoted(c: Config, t: nat, fd: u64) returns (acts: seq<Action>, s: State)
    requires c.traced(t) && !c.submit && fd < TWO31
    ensures LegalRun(c, Init(map[]), acts) && s == Run(c, Init(map[]), acts)
    ensures acts == [Enter(t, MapCreateCall()), Exit(t, Return(fd, true, true, 1)), Close(t, fd, true),
                     Enter(t, OpenCall()), Exit(t, Return(fd, true, false, 0)), Enter(t, IoctlOn(fd, 1))]
    ensures s.inside == map[t := Inside(IoctlOn(fd, 1), true)]
  {
    hide Run, LegalRun, Keep, Noted;
    var s0 := Init(map[]);
    acts, s := ClosedMapStays(c, t, fd);
    NotedAlways(c, s.tables, t, OpenCall());
    acts, s := Extend(c, s0, acts, s, Enter(t, OpenCall()));
    acts, s := Extend(c, s0, acts, s, Exit(t, Return(fd, true, false, 0)));
    NotedIff(c, s.tables, t, fd, 1);
    acts, s := Extend(c, s0, acts, s, Enter(t, IoctlOn(fd, 1)));
  }

  lemma NotedAlways(c: Config, r: Tables, t: nat, e: Entry)
    requires WellFormed(e) && !e.call.Ioctl?
    ensures Noted(c, r, t, e) <==> c.traced(t)
  {
  }

  lemma MapCreateKept()
    ensures |Keep(MapCreateCall()).words| == 2 && Keep(MapCreateCall()).words[0] == MAP_CREATE
  {
  }

  lemma NoActs(c: Config, s: State)
    ensures LegalRun(c, s, []) && Run(c, s, []) == s
  {
  }

  // ---- The handlers ----

  class Handlers {
    const config: Config
    var saved: map<(Table, nat), Saved>
    var fds: map<int, FdData>
    var out: seq<Event>

    constructor (c: Config)
      ensures config == c && Now() == Tables(map[], map[], [])
    {
      config := c;
      saved, fds, out := map[], map[], [];
    }

    ghost function Now(): Tables
      reads this
    {
      Tables(saved, fds, out)
    }

    method OnEnter(t: nat, e: Entry)
      requires WellFormed(e)
      modifies this
      ensures Now() == Entered(config, old(Now()), t, e)
    {
      if !config.traced(t) { return; }
      if e.call.Ioctl? {
        var fd := ToI32(e.args[0]);
        if Pfd(Process(t), ToU32(fd)) !in fds { return; }
      }
      saved := saved[(TableOf(e.call), t) := Keep(e)];
    }

    method OnExit(t: nat, call: Call, x: Return)
      modifies this
      ensures Now() == Exited(config, old(Now()), t, call, x)
    {
      if !config.traced(t) { return; }
      var key := (TableOf(call), t);
      if key !in saved { return; }
      match TableOf(call)
      case BpfArgs =>
        var cmd := if |saved[key].words| > 0 then saved[key].words[0] else -1;
        var data := BpfFdData(cmd, x);
        if data != [] { fds := fds[Pfd(Process(t), ToU32(x.value)) := data[0]]; }
        if BpfReports(config, cmd, x) { out := out + [Report(t, BpfArgs, saved[key], 0, x.value)]; }
        saved := saved - {key};
      case PerfArgs =>
        if saved[key].forDaemon {
          fds := fds[Pfd(Process(t), ToU32(x.value)) := FdData(PerfFd, 0)];
          if !x.reserved { return; }
          out := out + [Report(t, PerfArgs, saved[key], 0, x.value)];
        }
        saved := saved - {key};
      case other =>
        if !x.reserved { return; }
        out := out + [Report(t, other, saved[key], ProgramOf(Tables(saved, fds, out), t, other, saved[key]), x.value)];
        saved := saved - {key};
    }

    method OnEnterClose(t: nat, fd: i32, reserved: bool)
      modifies this
      ensures Now() == CloseEntered(config, old(Now()), t, fd, reserved)
    {
      if !config.traced(t) { return; }
      var key := Pfd(Process(t), fd);
      if key !in fds { return; }
      if !config.submit && fds[key].kind != PerfFd { return; }
      if !reserved { return; }
      out := out + [Closed(t, fd)];
      fds := fds - {key};
    }
  }
}
