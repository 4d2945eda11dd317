/** The tracer's reports handed to the driver: what the driver's (pid, fd) table then holds. */
module Mirror {
  import opened Words
  import D = Driver
  import opened Registry
  import opened Tracer

  const IOC_ENABLE: int := 0x2400
  const IOC_DISABLE: int := 0x2401

  /** What the daemon finds out when it handles a report: the probe described by the attributes, the
      kernel's answers about a program, the target and program of a link, and a fresh descriptor. */
  datatype Answer = Answer(probe: Probe, prog: D.ProgAnswer, target: i32, linkProg: int, fake: int)

  function Pid(t: nat): i32 { ToI32(Process(t)) }

  /** The daemon's reading of a report; it ignores reports of its own process. */
  function Forward(self: nat, e: Event, k: Answer): D.Event {
    if Process(e.thread) == self then D.Other
    else match e
      case Closed(t, fd) => D.Close(Pid(t), ToI32(fd))
      case Report(t, PerfArgs, _, _, ret) => D.PerfOpen(Pid(t), ToI32(ret), true, k.probe)
      case Report(t, IoctlArgs, saw, prog, _) =>
        if |saw.words| != 3 then D.Other
        else if saw.words[1] == IOC_ENABLE then D.Enable(Pid(t), ToI32(saw.words[0]))
        else if saw.words[1] == IOC_DISABLE then D.Disable(Pid(t), ToI32(saw.words[0]))
        else if saw.words[1] == SET_BPF then D.SetBpf(Pid(t), ToI32(saw.words[0]), ToI32(prog), k.prog, k.fake)
        else D.Other
      case Report(t, BpfArgs, saw, _, _) =>
        if |saw.words| == 0 || saw.words[0] != LINK_CREATE then D.Other
        else D.LinkCreate(Pid(t), k.target, k.linkProg, k.prog, k.fake)
      case Report(_, OpenArgs, _, _, _) => D.Other
  }

  /** Tracer and driver; the driver handles each report with the answers it gets. */
  datatype Joint = Joint(tr: State, dr: D.State)
  datatype JointStep = JointStep(a: Action, k: Answer)

  /** What a tracer step has the driver do. */
  function Caused(c: Config, self: nat, s: State, x: JointStep): D.Event
    requires Legal(s, x.a)
  {
    var out := Apply(c, s, x.a).tables.out;
    if |out| > |s.tables.out| then Forward(self, out[|out| - 1], x.k) else D.Other
  }

  predicate JointLegal(c: Config, self: nat, j: Joint, x: JointStep) {
    Legal(j.tr, x.a) && D.Legal(|j.dr.slots|, Caused(c, self, j.tr, x))
  }

  function Next(c: Config, self: nat, j: Joint, x: JointStep): Joint
    requires JointLegal(c, self, j, x)
  {
    Joint(Apply(c, j.tr, x.a), D.Handle(j.dr, Caused(c, self, j.tr, x)))
  }

  // ---- One step ----

  /** The step opens a perf event that the driver is told of, with a descriptor and with a slot left. */
  predicate Adds(c: Config, self: nat, j: Joint, x: JointStep, key: int) {
    && x.a.Exit? && x.a.t in j.tr.inside && j.tr.inside[x.a.t].entry.call.PerfOpen?
    && Records(c, j.tr, x.a, key) && x.a.ret.reserved && ToI32(x.a.ret.value) >= 0
    && Process(x.a.t) != self && MinUnused(j.dr.slots) >= 0
  }

  /** Kernel process ids are positive ints. */
  ghost predicate PidsOk(c: Config) { forall t :: c.traced(t) ==> Process(t) < TWO31 }

  /** The key of a process other than the daemon, with a descriptor that is not negative. */
  predicate Foreign(self: nat, key: int) { 0 <= key / TWO32 < TWO31 && key / TWO32 != self }

  ghost predicate JointInv(c: Config, self: nat, j: Joint) {
    && Tracer.Inv(c, j.tr) && D.Inv(j.dr)
    && forall key :: key in j.dr.table ==> Foreign(self, key)
  }

  /** What an event does to the set of recorded pairs. */
  lemma HandledKeys(st: D.State, e: D.Event, key: int)
    requires D.Legal(|st.slots|, e) && D.Inv(st)
    ensures key in D.Handle(st, e).table <==>
            || (e.PerfOpen? && e.ret >= 0 && e.uprobe && MinUnused(st.slots) >= 0 && D.Key(e.pid, e.ret) == key)
            || (key in st.table && !(e.Close? && D.Key(e.pid, e.fd) == key))
  {
    hide D.ProgCreated, D.Linked;
  }

  lemma SameKey(t: nat, fd: i32)
    requires Process(t) < TWO31
    ensures D.Key(Pid(t), fd) == Pfd(Process(t), fd)
    ensures Pfd(Process(t), fd) / TWO32 == if fd >= 0 then Process(t) else TWO32 - 1
  {
    assert Pid(t) == Process(t) as int;
    D.KeyParts(Pid(t), fd);
  }

  /** A report of any other call leaves the recorded pairs alone. */
  lemma OtherReports(self: nat, e: Event, k: Answer)
    requires e.Report? && !e.table.PerfArgs?
    ensures var d := Forward(self, e, k); !d.PerfOpen? && !d.Close?
  {
  }

  lemma ExitMirrors(c: Config, self: nat, j: Joint, t: nat, r: Return, k: Answer, key: int)
    requires PidsOk(c) && JointInv(c, self, j) && JointLegal(c, self, j, JointStep(Exit(t, r), k))
    ensures var x := JointStep(Exit(t, r), k);
            && (key in Next(c, self, j, x).dr.table <==> Adds(c, self, j, x, key) || key in j.dr.table)
            && (Adds(c, self, j, x, key) ==> Foreign(self, key))
  {
    hide D.Handle, D.Inv, Tracer.Inv, Exited, MakesFd, D.Legal;
    var x, e := JointStep(Exit(t, r), k), j.tr.inside[t].entry;
    HandledKeys(j.dr, Caused(c, self, j.tr, x), key);
    if e.call.PerfOpen? {
      PerfReported(c, j.tr, t, r);
      PerfMakes(e, r);
      if c.traced(t) && ToI32(r.value) >= 0 {
        SameKey(t, ToI32(r.value));
        assert ToU32(r.value) == ToI32(r.value);
      }
    } else {
      ExitEffect(c, j.tr.tables, t, e.call, r);
      var out := Apply(c, j.tr, x.a).tables.out;
      if |out| > |j.tr.tables.out| { OtherReports(self, out[|out| - 1], k); }
    }
  }

  lemma PerfMakes(e: Entry, r: Return)
    requires WellFormed(e) && e.call.PerfOpen?
    ensures MakesFd(e, r) <==> e.forDaemon
  {
  }

  lemma CloseMirrors(c: Config, self: nat, j: Joint, t: nat, fd: i32, reserved: bool, k: Answer, key: int)
    requires PidsOk(c) && JointInv(c, self, j) && JointLegal(c, self, j, JointStep(Close(t, fd, reserved), k))
    ensures var x := JointStep(Close(t, fd, reserved), k);
            key in Next(c, self, j, x).dr.table <==> key in j.dr.table && !Forgets(c, j.tr, x.a, key)
  {
    hide D.Handle, D.Inv, Tracer.Inv, D.Legal;
    var x := JointStep(Close(t, fd, reserved), k);
    HandledKeys(j.dr, Caused(c, self, j.tr, x), key);
    if c.traced(t) { SameKey(t, fd); }
  }

  /** A pair is in the driver's table after a step exactly if the step adds it, or it was there and the
      tracer did not forget it. */
  lemma StepMirrors(c: Config, self: nat, j: Joint, x: JointStep, key: int)
    requires PidsOk(c) && JointInv(c, self, j) && JointLegal(c, self, j, x)
    ensures key in Next(c, self, j, x).dr.table <==>
            Adds(c, self, j, x, key) || (key in j.dr.table && !Forgets(c, j.tr, x.a, key))
    ensures Adds(c, self, j, x, key) ==> Foreign(self, key)
  {
    hide D.Handle, D.Inv, Tracer.Inv, D.Legal, Forward;
    match x.a
    case Enter(_, _) => HandledKeys(j.dr, Caused(c, self, j.tr, x), key);
    case Exit(t, r) => ExitMirrors(c, self, j, t, r, x.k, key);
    case Close(t, fd, reserved) => CloseMirrors(c, self, j, t, fd, reserved, x.k, key);
  }

  lemma StepKeepsJoint(c: Config, self: nat, j: Joint, x: JointStep)
    requires PidsOk(c) && JointInv(c, self, j) && JointLegal(c, self, j, x)
    ensures JointInv(c, self, Next(c, self, j, x))
  {
    hide Tracer.Inv, D.Inv, Adds, Forgets, Foreign, Caused, D.Handle, D.Legal, Apply, Legal;
    StepKeeps(c, j.tr, x.a);
    D.HandleKeeps(j.dr, Caused(c, self, j.tr, x));
    forall key | key in Next(c, self, j, x).dr.table ensures Foreign(self, key) { StepMirrors(c, self, j, x, key); }
  }

  // ---- Whole runs ----

  ghost predicate JointRun(c: Config, self: nat, j: Joint, xs: seq<JointStep>)
    decreases |xs|
  {
    xs != [] ==> JointLegal(c, self, j, xs[0]) && JointRun(c, self, Next(c, self, j, xs[0]), xs[1..])
  }

  ghost function After(c: Config, self: nat, j: Joint, xs: seq<JointStep>): Joint
    requires JointRun(c, self, j, xs)
    decreases |xs|
  {
    if xs == [] then j else After(c, self, Next(c, self, j, xs[0]), xs[1..])
  }

  ghost predicate NeverForgotten(c: Config, self: nat, j: Joint, xs: seq<JointStep>, key: int)
    requires JointRun(c, self, j, xs)
    decreases |xs|
  {
    xs != [] ==> !Forgets(c, j.tr, xs[0].a, key) && NeverForgotten(c, self, Next(c, self, j, xs[0]), xs[1..], key)
  }

  ghost predicate AddedAndKept(c: Config, self: nat, j: Joint, xs: seq<JointStep>, key: int)
    requires JointRun(c, self, j, xs)
    decreases |xs|
  {
    xs != [] &&
    var j1 := Next(c, self, j, xs[0]);
    || (Adds(c, self, j, xs[0], key) && NeverForgotten(c, self, j1, xs[1..], key))
    || AddedAndKept(c, self, j1, xs[1..], key)
  }

  lemma {:induction false} RunMirrors(c: Config, self: nat, j: Joint, xs: seq<JointStep>, key: int)
    requires PidsOk(c) && JointInv(c, self, j) && JointRun(c, self, j, xs)
    ensures key in After(c, self, j, xs).dr.table <==>
            (key in j.dr.table && NeverForgotten(c, self, j, xs, key)) || AddedAndKept(c, self, j, xs, key)
    decreases |xs|
  {
    hide PidsOk, JointInv, JointLegal, Next, Adds, Forgets;
    if xs != [] {
      StepKeepsJoint(c, self, j, xs[0]);
      StepMirrors(c, self, j, xs[0], key);
      AddsOrForgets(c, self, j, xs[0], key);
      RunMirrors(c, self, Next(c, self, j, xs[0]), xs[1..], key);
    }
  }

  lemma AddsOrForgets(c: Config, self: nat, j: Joint, x: JointStep, key: int)
    ensures !(Adds(c, self, j, x, key) && Forgets(c, j.tr, x.a, key))
  {
  }

  function Start(size: nat): Joint { Joint(Init(map[]), D.Empty(size)) }

  lemma StartInv(c: Config, self: nat, size: nat)
    ensures JointInv(c, self, Start(size))
  {
  }

  /** Whatever the traced calls and the kernel's answers: the driver's table holds exactly the perf events
      it was told of with a descriptor while it had a slot left, and that the tracer did not forget since. */
  lemma TableIff(c: Config, self: nat, size: nat, xs: seq<JointStep>, key: int)
    requires PidsOk(c) && JointRun(c, self, Start(size), xs)
    ensures key in After(c, self, Start(size), xs).dr.table <==> AddedAndKept(c, self, Start(size), xs, key)
  {
    hide PidsOk, JointInv, JointRun, After, NeverForgotten, AddedAndKept;
    StartInv(c, self, size);
    RunMirrors(c, self, Start(size), xs, key);
  }

  // ---- Against the tracer's own table ----

  /** Every pair in the driver's table is a descriptor the tracer knows. */
  ghost predicate Within(j: Joint) { forall key :: key in j.dr.table ==> key in j.tr.tables.fds }

  /** And they are exactly those it knows as perf events. */
  ghost predicate Mirrored(j: Joint) {
    forall key :: key in j.dr.table <==> key in j.tr.tables.fds && j.tr.tables.fds[key].kind == PerfFd
  }

  lemma {:induction false} RunWithin(c: Config, self: nat, j: Joint, xs: seq<JointStep>)
    requires PidsOk(c) && JointInv(c, self, j) && Within(j) && JointRun(c, self, j, xs)
    ensures Within(After(c, self, j, xs))
    decreases |xs|
  {
    hide PidsOk, JointInv, JointLegal, Next;
    if xs != [] {
      StepKeepsJoint(c, self, j, xs[0]);
      StepWithin(c, self, j, xs[0]);
      RunWithin(c, self, Next(c, self, j, xs[0]), xs[1..]);
    }
  }

  lemma StepWithin(c: Config, self: nat, j: Joint, x: JointStep)
    requires PidsOk(c) && JointInv(c, self, j) && Within(j) && JointLegal(c, self, j, x)
    ensures Within(Next(c, self, j, x))
  {
    hide PidsOk, Tracer.Inv, D.Inv, Forgets, Records, Caused, D.Handle, D.Legal, Apply, Legal;
    forall key | key in Next(c, self, j, x).dr.table ensures key in Next(c, self, j, x).tr.tables.fds {
      StepMirrors(c, self, j, x, key);
      StepFds(c, j.tr, x.a, key);
    }
  }

  /** In every run the driver's table lies within the tracer's. */
  lemma TableWithin(c: Config, self: nat, size: nat, xs: seq<JointStep>)
    requires PidsOk(c) && JointRun(c, self, Start(size), xs)
    ensures Within(After(c, self, Start(size), xs))
  {
    hide PidsOk, JointInv, JointRun, After;
    StartInv(c, self, size);
    RunWithin(c, self, Start(size), xs);
  }

  /** What the step records under key it records for the driver too: a perf event that the driver adds or
      has already, or another object whose number the driver does not hold. */
  predicate Agrees(c: Config, self: nat, j: Joint, x: JointStep, key: int) {
    Records(c, j.tr, x.a, key) ==>
      if j.tr.inside[x.a.t].entry.call.PerfOpen? then Adds(c, self, j, x, key) || key in j.dr.table
      else key !in j.dr.table
  }

  /** The kind under which a step records a descriptor. */
  lemma RecordedKind(c: Config, s: State, a: Action, key: int)
    requires Tracer.Inv(c, s) && Legal(s, a) && Records(c, s, a, key)
    ensures var r := Apply(c, s, a).tables;
            key in r.fds && (r.fds[key].kind == PerfFd <==> s.inside[a.t].entry.call.PerfOpen?)
  {
    hide Apply, Tracer.Inv;
    ExitFds(c, s, a.t, a.ret, key);
  }

  lemma StepMirroredIff(c: Config, self: nat, j: Joint, x: JointStep)
    requires PidsOk(c) && JointInv(c, self, j) && Mirrored(j) && JointLegal(c, self, j, x)
    ensures Mirrored(Next(c, self, j, x)) <==> forall key :: Agrees(c, self, j, x, key)
  {
    hide PidsOk, Tracer.Inv, D.Inv, Forgets, Records, Caused, D.Handle, D.Legal, Apply, Legal;
    var r, r' := j.tr.tables.fds, Next(c, self, j, x).tr.tables.fds;
    forall key
      ensures (key in Next(c, self, j, x).dr.table <==> key in r' && r'[key].kind == PerfFd)
              <==> Agrees(c, self, j, x, key)
    {
      StepMirrors(c, self, j, x, key);
      StepFds(c, j.tr, x.a, key);
      RecordsOrForgets(c, j.tr, x.a, key);
      if Records(c, j.tr, x.a, key) { RecordedKind(c, j.tr, x.a, key); }
    }
  }

  ghost predicate AlwaysMirrored(c: Config, self: nat, j: Joint, xs: seq<JointStep>)
    requires JointRun(c, self, j, xs)
    decreases |xs|
  {
    Mirrored(j) && (xs != [] ==> AlwaysMirrored(c, self, Next(c, self, j, xs[0]), xs[1..]))
  }

  ghost predicate AlwaysAgrees(c: Config, self: nat, j: Joint, xs: seq<JointStep>)
    requires JointRun(c, self, j, xs)
    decreases |xs|
  {
    xs != [] ==>
      && (forall key :: Agrees(c, self, j, xs[0], key))
      && AlwaysAgrees(c, self, Next(c, self, j, xs[0]), xs[1..])
  }

  lemma {:induction false} RunMirroredIff(c: Config, self: nat, j: Joint, xs: seq<JointStep>)
    requires PidsOk(c) && JointInv(c, self, j) && Mirrored(j) && JointRun(c, self, j, xs)
    ensures AlwaysMirrored(c, self, j, xs) <==> AlwaysAgrees(c, self, j, xs)
    decreases |xs|
  {
    hide PidsOk, JointInv, JointLegal, Next, Mirrored, Agrees;
    if xs != [] {
      StepKeepsJoint(c, self, j, xs[0]);
      StepMirroredIff(c, self, j, xs[0]);
      if forall key :: Agrees(c, self, j, xs[0], key) {
        RunMirroredIff(c, self, Next(c, self, j, xs[0]), xs[1..]);
      } else {
        assert !Mirrored(Next(c, self, j, xs[0]));
      }
    }
  }

  /** Throughout a run the driver's table mirrors the tracer's perf events, if and only if every perf event
      recorded is one the driver adds or holds already, and no other object is recorded under a number the
      driver holds. */
  lemma MirroredIff(c: Config, self: nat, size: nat, xs: seq<JointStep>)
    requires PidsOk(c) && JointRun(c, self, Start(size), xs)
    ensures AlwaysMirrored(c, self, Start(size), xs) <==> AlwaysAgrees(c, self, Start(size), xs)
  {
    hide PidsOk, JointInv, JointRun, AlwaysMirrored, AlwaysAgrees;
    StartInv(c, self, size);
    RunMirroredIff(c, self, Start(size), xs);
  }

  function ProbeCall(): Entry { Entry(PerfOpen, [0, 0, 0, 0, 0, 0], 0, true) }

  /** A perf_event_open for the daemon that fails: the tracer takes its error for a descriptor, the driver
      does not, and the tables differ. */
  lemma FailedOpenKnown(c: Config, self: nat, size: nat, t: nat, k: Answer) returns (xs: seq<JointStep>)
    requires c.traced(t) && Process(t) != self
    ensures xs == [JointStep(Enter(t, ProbeCall()), k), JointStep(Exit(t, Return(-1, true, false, 0)), k)]
    ensures JointRun(c, self, Start(size), xs)
    ensures var j := After(c, self, Start(size), xs);
            && j.tr.tables.fds == map[Pfd(Process(t), TWO32 - 1) := FdData(PerfFd, 0)] && j.dr == D.Empty(size)
            && !Mirrored(j)
  {
    hide Keep, JointRun, After;
    var x, y := JointStep(Enter(t, ProbeCall()), k), JointStep(Exit(t, Return(-1, true, false, 0)), k);
    xs := [x, y];
    var j1 := Next(c, self, Start(size), x);
    assert Keep(ProbeCall()).forDaemon by { ProbeKept(); }
    var j2 := Next(c, self, j1, y);
    assert Pfd(Process(t), TWO32 - 1) in j2.tr.tables.fds;
    TwoSteps(c, self, Start(size), x, y);
  }

  lemma ProbeKept()
    ensures Keep(ProbeCall()).forDaemon
  {
  }

  lemma TwoSteps(c: Config, self: nat, j: Joint, x: JointStep, y: JointStep)
    requires JointLegal(c, self, j, x) && JointLegal(c, self, Next(c, self, j, x), y)
    ensures JointRun(c, self, j, [x, y])
    ensures After(c, self, j, [x, y]) == Next(c, self, Next(c, self, j, x), y)
  {
    hide JointLegal, Next;
    assert [x, y][1..] == [y] && [y][1..] == [];
    var j1 := Next(c, self, j, x);
    assert JointRun(c, self, j1, [y]);
    assert After(c, self, j1, [y]) == After(c, self, Next(c, self, j1, y), []) == Next(c, self, j1, y);
  }

  /** A program is attached by the kernel id it was made with: after its load, and calls that neither close
      nor make its descriptor again, the ioctl that attaches it has the driver attach that id. */
  lemma AttachForwarded(c: Config, self: nat, s: State, t: nat, x: Return, acts: seq<Action>,
                        u: nat, y: Return, k: Answer)
    requires MakesObject(s, t, x, PROG_LOAD) && Stays(c, s, t, x, acts)
    requires var s2 := Run(c, Apply(c, s, Exit(t, x)), acts);
             && u in s2.inside && s2.inside[u].noted && c.traced(u)
             && s2.inside[u].entry.call.Ioctl? && WellFormed(s2.inside[u].entry)
             && ToI32(s2.inside[u].entry.args[1]) == SET_BPF && ToI32(s2.inside[u].entry.args[2]) == x.value
    requires y.reserved && Process(u) == Process(t) != self
    ensures var s2 := Run(c, Apply(c, s, Exit(t, x)), acts);
            Caused(c, self, s2, JointStep(Exit(u, y), k))
            == D.SetBpf(Pid(u), ToI32(s2.inside[u].entry.args[0]), ToI32(x.id), k.prog, k.fake)
  {
    hide Run, LegalRun, Apply, Tracer.Inv, NoneRecords, NoneForgets, MakesFd, MakesObject;
    var s1 := Apply(c, s, Exit(t, x));
    var s2 := Run(c, s1, acts);
    StepKeeps(c, s, Exit(t, x));
    RunKeeps(c, s1, acts);
    ObjectIdKnown(c, s, t, x, acts, PROG_LOAD);
    AttachReportsId(c, s2, u, y);
  }
}
