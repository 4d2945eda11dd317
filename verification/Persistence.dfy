/** Export of the handler table to JSON, and import of that JSON into an empty table. */
module Persistence {
  import opened Words
  import opened Hex

  datatype Json = Null | Num(n: int) | Bool(b: bool) | Str(s: string) | Obj(fields: map<string, Json>)

  datatype Cookie = NoCookie | WithCookie(value: u64)

  /** Map attributes; gpuThreads is the one that export leaves out. */
  datatype Attr = Attr(
    mapType: i32, keySize: u32, valueSize: u32, maxEntries: u32, flags: u64, ifindex: u32,
    btfVmlinuxValueType: u32, btf: u32, btfKeyType: u32, btfValueType: u32, extra: u64,
    kernelId: u32, gpuThreads: u32)

  /** `progType` is whatever the handler's type field holds: its constructor does not set it.
      OtherPerf stands for uprobes, software events and the rest. */
  datatype Handler =
    | Unused
    | Prog(insns: seq<u8>, name: string, progType: int)
    | Map(name: string, attr: Attr)
    | Tracepoint(pid: i32, id: i32, enabled: bool)
    | OtherPerf(perfType: int, pid: i32, enabled: bool)
    | Epoll
    | Link(prog: u32, target: u32, cookie: Cookie)

  type Table = seq<Handler>

  const DEFAULT_GPU_THREADS: u32 := 1000
  const PERF_TYPE_TRACEPOINT: int := 2

  // ---- Export ----

  function AttrJson(a: Attr): Json {
    Obj(map[
      "map_type" := Num(a.mapType), "key_size" := Num(a.keySize), "value_size" := Num(a.valueSize),
      "max_entries" := Num(a.maxEntries), "flags" := Num(a.flags), "ifindex" := Num(a.ifindex),
      "btf_vmlinux_value_type_id" := Num(a.btfVmlinuxValueType), "btf_id" := Num(a.btf),
      "btf_key_type_id" := Num(a.btfKeyType), "btf_value_type_id" := Num(a.btfValueType),
      "map_extra" := Num(a.extra), "kernel_bpf_map_id" := Num(a.kernelId)])
  }

  function HandlerJson(h: Handler): Json {
    match h
    case Unused => Null
    case Prog(insns, name, ty) =>
      Obj(map["type" := Str("bpf_prog_handler"), "name" := Str(name),
              "attr" := Obj(map["type" := Num(ty), "insns" := Str(HexOf(insns)), "cnt" := Num(|insns| / 8)])])
    case Map(name, attr) =>
      Obj(map["type" := Str("bpf_map_handler"), "name" := Str(name), "attr" := AttrJson(attr)])
    case Tracepoint(pid, id, enabled) =>
      Obj(map["type" := Str("bpf_perf_event_handler"), "enabled" := Bool(enabled),
              "attr" := Obj(map["type" := Num(PERF_TYPE_TRACEPOINT), "pid" := Num(pid), "tracepoint_id" := Num(id)])])
    case OtherPerf(ty, pid, enabled) =>
      Obj(map["type" := Str("bpf_perf_event_handler"), "enabled" := Bool(enabled),
              "attr" := Obj(map["type" := Num(ty), "pid" := Num(pid)])])
    case Epoll => Obj(map["type" := Str("epoll_handler")])
    case Link(prog, target, _) =>
      Obj(map["type" := Str("bpf_link_handler"),
              "attr" := Obj(map["prog_fd" := Num(prog), "target_fd" := Num(target)])])
  }

  predicate ExportedAt(t: Table, j: map<string, Json>, i: nat)
    requires i < |t|
  {
    Decimal(i) in j && j[Decimal(i)] == HandlerJson(t[i])
  }

  predicate KeyOf(t: Table, n: nat, k: string)
    requires n <= |t|
  {
    IsDecimal(k) && var i := DecimalValue(k); i < n && t[i] != Unused && k == Decimal(i)
  }

  /** The exported object has exactly one entry for each handler, under its decimal index. */
  ghost predicate Exports(t: Table, n: nat, j: map<string, Json>)
    requires n <= |t|
  {
    && (forall i :: 0 <= i < n && t[i] != Unused ==> ExportedAt(t, j, i))
    && (forall k :: k in j ==> KeyOf(t, n, k))
  }

  method Export(t: Table) returns (j: map<string, Json>)
    ensures Exports(t, |t|, j)
  {
    hide ExportedAt, KeyOf;
    j := map[];
    for i := 0 to |t|
      invariant Exports(t, i, j)
    {
      if t[i] == Unused {
        ExportSkip(t, i, j);
        continue;
      }
      ExportStep(t, i, j);
      j := j[Decimal(i) := HandlerJson(t[i])];
    }
  }

  lemma ExportStep(t: Table, i: nat, j: map<string, Json>)
    requires i < |t| && t[i] != Unused && Exports(t, i, j)
    ensures Exports(t, i + 1, j[Decimal(i) := HandlerJson(t[i])])
  {
    hide HandlerJson, Decimal, DecimalValue, IsDecimal;
    var j' := j[Decimal(i) := HandlerJson(t[i])];
    forall m: nat | m < i + 1 && t[m] != Unused ensures ExportedAt(t, j', m) {
      if m < i {
        assert ExportedAt(t, j, m);
        DecimalInjective(m, i);
      }
    }
    forall k | k in j' ensures KeyOf(t, i + 1, k) {
      DecimalRoundTrip(i);
      if k in j { assert KeyOf(t, i, k); }
    }
  }

  lemma ExportSkip(t: Table, i: nat, j: map<string, Json>)
    requires i < |t| && t[i] == Unused && Exports(t, i, j)
    ensures Exports(t, i + 1, j)
  {
    hide HandlerJson, Decimal, DecimalValue, IsDecimal, ExportedAt;
  }

  lemma DecimalInjective(a: nat, b: nat)
    requires a != b
    ensures Decimal(a) != Decimal(b)
  {
    DecimalRoundTrip(a);
    DecimalRoundTrip(b);
  }

  // ---- Import of one handler ----

  /** A missing field reads as null. */
  function Field(j: Json, k: string): Json { if j.Obj? && k in j.fields then j.fields[k] else Null }

  datatype Imported = Done(table: Table) | Failed

  function AttrNum(j: Json, k: string): int { if Field(j, k).Num? then Field(j, k).n else 0 }

  predicate AttrComplete(j: Json) {
    && Field(j, "map_type").Num? && Field(j, "key_size").Num? && Field(j, "value_size").Num?
    && Field(j, "max_entries").Num? && Field(j, "flags").Num? && Field(j, "ifindex").Num?
    && Field(j, "btf_vmlinux_value_type_id").Num? && Field(j, "btf_id").Num?
    && Field(j, "btf_key_type_id").Num? && Field(j, "btf_value_type_id").Num?
    && Field(j, "map_extra").Num? && Field(j, "kernel_bpf_map_id").Num?
  }

  function JsonAttr(j: Json): Attr
    requires AttrComplete(j)
  {
    Attr(ToI32(AttrNum(j, "map_type")), ToU32(AttrNum(j, "key_size")), ToU32(AttrNum(j, "value_size")),
         ToU32(AttrNum(j, "max_entries")), ToU64(AttrNum(j, "flags")), ToU32(AttrNum(j, "ifindex")),
         ToU32(AttrNum(j, "btf_vmlinux_value_type_id")), ToU32(AttrNum(j, "btf_id")),
         ToU32(AttrNum(j, "btf_key_type_id")), ToU32(AttrNum(j, "btf_value_type_id")),
         ToU64(AttrNum(j, "map_extra")), ToU32(AttrNum(j, "kernel_bpf_map_id")), DEFAULT_GPU_THREADS)
  }

  /** A slot that is taken keeps what it has. */
  function Put(t: Table, fd: nat, h: Handler): (r: Table)
    requires fd < |t|
    ensures |r| == |t|
  {
    if t[fd] == Unused then t[fd := h] else t
  }

  predicate IsProg(t: Table, fd: int) { 0 <= fd < |t| && t[fd].Prog? }

  /** `junk` is what the uninitialised type field of a new program handler holds. */
  function ImportProg(t: Table, fd: nat, v: Json, junk: int): Imported
    requires fd < |t|
  {
    var attr := Field(v, "attr");
    var insns, name, ty, cnt := Field(attr, "insns"), Field(v, "name"), Field(attr, "type"), Field(attr, "cnt");
    if !insns.Str? || !name.Str? || !ty.Num? || !cnt.Num? || cnt.n < 0 then Failed
    else
      var p := Unhex(insns.s, 8 * cnt.n);
      if p.Ok? then Done(Put(t, fd, Prog(p.bytes, name.s, junk))) else Failed
  }

  function ImportPerf(t: Table, fd: nat, v: Json): Imported
    requires fd < |t|
  {
    var attr := Field(v, "attr");
    var ty, pid, id := Field(attr, "type"), Field(attr, "pid"), Field(attr, "tracepoint_id");
    var enabled := Field(v, "enabled");
    if !ty.Num? || !pid.Num? || !id.Num? || ty.n != PERF_TYPE_TRACEPOINT || !enabled.Bool? then Failed
    else Done(Put(t, fd, Tracepoint(ToI32(pid.n), ToI32(id.n), enabled.b)))
  }

  /** A link whose program is not there yet is dropped without an error. */
  function ImportLink(t: Table, fd: nat, v: Json): Imported
    requires fd < |t|
  {
    var attr := Field(v, "attr");
    var prog, target := Field(attr, "prog_fd"), Field(attr, "target_fd");
    if !prog.Num? || !target.Num? then Failed
    else if !IsProg(t, ToI32(ToU32(prog.n))) then Done(t)
    else Done(Put(t, fd, Link(ToU32(prog.n), ToU32(target.n), NoCookie)))
  }

  /** Importing one value; a failure is an error return or an exception. */
  function ImportOne(t: Table, fd: nat, v: Json, junk: int): (r: Imported)
    requires fd < |t|
    ensures r.Done? ==> |r.table| == |t|
  {
    var ty := Field(v, "type");
    if ty == Str("bpf_prog_handler") then ImportProg(t, fd, v, junk)
    else if ty == Str("bpf_map_handler") then
      var name, attr := Field(v, "name"), Field(v, "attr");
      if name.Str? && AttrComplete(attr) then Done(t[fd := Map(name.s, JsonAttr(attr))]) else Failed
    else if ty == Str("bpf_perf_event_handler") then ImportPerf(t, fd, v)
    else if ty == Str("bpf_link_handler") then ImportLink(t, fd, v)
    else Failed
  }

  // ---- What one exported handler becomes ----

  predicate Supported(h: Handler) { h.Prog? || h.Map? || h.Tracepoint? || h.Link? }

  predicate WellFormed(h: Handler) {
    && (h.Prog? ==> |h.insns| % 8 == 0)
    && (h.OtherPerf? ==> h.perfType != PERF_TYPE_TRACEPOINT)
    && (h.Link? ==> h.prog < TWO31)
  }

  /** The handler as it comes back, given whether a link finds its program. */
  function Restored(h: Handler, junk: int, progThere: bool): Handler {
    match h
    case Prog(insns, name, _) => Prog(insns, name, junk)
    case Map(name, attr) => Map(name, attr.(gpuThreads := DEFAULT_GPU_THREADS))
    case Link(prog, target, _) => if progThere then Link(prog, target, NoCookie) else Unused
    case _ => h
  }

  predicate HasNum(j: Json, k: string, n: int) { Field(j, k) == Num(n) }

  lemma AttrSizes(a: Attr)
    ensures var j := AttrJson(a);
            && HasNum(j, "map_type", a.mapType) && HasNum(j, "key_size", a.keySize)
            && HasNum(j, "value_size", a.valueSize) && HasNum(j, "max_entries", a.maxEntries)
            && HasNum(j, "flags", a.flags) && HasNum(j, "ifindex", a.ifindex)
  {
  }

  lemma AttrTypes(a: Attr)
    ensures var j := AttrJson(a);
            && HasNum(j, "btf_vmlinux_value_type_id", a.btfVmlinuxValueType) && HasNum(j, "btf_id", a.btf)
            && HasNum(j, "btf_key_type_id", a.btfKeyType) && HasNum(j, "btf_value_type_id", a.btfValueType)
            && HasNum(j, "map_extra", a.extra) && HasNum(j, "kernel_bpf_map_id", a.kernelId)
  {
  }

  /** Every attribute but the GPU thread count survives. */
  lemma AttrRoundTrip(a: Attr)
    ensures AttrComplete(AttrJson(a)) && JsonAttr(AttrJson(a)) == a.(gpuThreads := DEFAULT_GPU_THREADS)
  {
    hide AttrJson, Field;
    AttrSizes(a);
    AttrTypes(a);
  }

  lemma ImportsProg(t: Table, fd: nat, h: Handler, junk: int)
    requires fd < |t| && t[fd] == Unused && WellFormed(h) && h.Prog?
    ensures ImportOne(t, fd, HandlerJson(h), junk) == Done(t[fd := Prog(h.insns, h.name, junk)])
  {
    hide HexOf, Unhex;
    HexRoundTrip(h.insns);
    assert 8 * (|h.insns| / 8) == |h.insns|;
  }

  lemma ImportsMap(t: Table, fd: nat, h: Handler, junk: int)
    requires fd < |t| && h.Map?
    ensures ImportOne(t, fd, HandlerJson(h), junk)
            == Done(t[fd := Map(h.name, h.attr.(gpuThreads := DEFAULT_GPU_THREADS))])
  {
    hide AttrJson, JsonAttr, AttrComplete, ImportProg, ImportPerf, ImportLink;
    AttrRoundTrip(h.attr);
  }

  lemma ImportsPerf(t: Table, fd: nat, h: Handler, junk: int)
    requires fd < |t| && t[fd] == Unused && WellFormed(h) && (h.Tracepoint? || h.OtherPerf?)
    ensures ImportOne(t, fd, HandlerJson(h), junk) == if h.Tracepoint? then Done(t[fd := h]) else Failed
  {
    hide ImportProg, ImportLink, AttrComplete, JsonAttr;
  }

  lemma ImportsLink(t: Table, fd: nat, h: Handler, junk: int)
    requires fd < |t| && t[fd] == Unused && WellFormed(h) && h.Link?
    ensures ImportOne(t, fd, HandlerJson(h), junk)
            == Done(if IsProg(t, h.prog) then t[fd := Link(h.prog, h.target, NoCookie)] else t)
  {
    hide ImportProg, ImportPerf, AttrComplete, JsonAttr;
  }

  lemma ImportExported(t: Table, fd: nat, h: Handler, junk: int)
    requires fd < |t| && t[fd] == Unused && WellFormed(h) && h != Unused
    ensures ImportOne(t, fd, HandlerJson(h), junk)
            == if Supported(h) then Done(t[fd := Restored(h, junk, h.Link? && IsProg(t, h.prog))]) else Failed
  {
    if h.Epoll? { return; }
    hide ImportOne, HandlerJson;
    match h
    case Prog(_, _, _) => ImportsProg(t, fd, h, junk);
    case Map(_, _) => ImportsMap(t, fd, h, junk);
    case Tracepoint(_, _, _) => ImportsPerf(t, fd, h, junk);
    case OtherPerf(_, _, _) => ImportsPerf(t, fd, h, junk);
    case Link(_, _, _) => ImportsLink(t, fd, h, junk);
  }

  // ---- Import of a whole object ----

  /** The keys of the object, each once, in the order of the visit. */
  ghost predicate Visits(j: map<string, Json>, keys: seq<string>) {
    && (forall p :: 0 <= p < |keys| ==> keys[p] in j)
    && (forall k :: k in j ==> k in keys)
    && (forall p, q :: 0 <= p < q < |keys| ==> keys[p] != keys[q])
  }

  /** A key that is no number throws; an index outside the table is not defined. */
  function ImportKey(t: Table, k: string, v: Json, junk: nat -> int): (r: Imported)
    ensures r.Done? ==> |r.table| == |t|
  {
    if IsDecimal(k) && DecimalValue(k) < |t| then ImportOne(t, DecimalValue(k), v, junk(DecimalValue(k))) else Failed
  }

  function ImportFrom(t: Table, j: map<string, Json>, keys: seq<string>, n: nat, junk: nat -> int): Imported
    requires n <= |keys| && forall p :: 0 <= p < |keys| ==> keys[p] in j
    decreases |keys| - n
  {
    if n == |keys| then Done(t)
    else
      var r := ImportKey(t, keys[n], j[keys[n]], junk);
      if r.Done? then ImportFrom(r.table, j, keys, n + 1, junk) else Failed
  }

  method Import(t: Table, j: map<string, Json>, keys: seq<string>, junk: nat -> int) returns (r: Imported)
    requires forall p :: 0 <= p < |keys| ==> keys[p] in j
    ensures r == ImportFrom(t, j, keys, 0, junk)
  {
    hide ImportKey;
    r := Done(t);
    for n := 0 to |keys|
      invariant r.Done? && ImportFrom(r.table, j, keys, n, junk) == ImportFrom(t, j, keys, 0, junk)
    {
      r := ImportKey(r.table, keys[n], j[keys[n]], junk);
      if r.Failed? { return; }
    }
  }

  predicate Earlier(keys: seq<string>, a: string, b: string) {
    exists p, q :: 0 <= p < q < |keys| && keys[p] == a && keys[q] == b
  }

  /** A link finds its program when that was visited first. */
  predicate FindsProg(t: Table, keys: seq<string>, i: nat)
    requires i < |t|
  {
    t[i].Link? && IsProg(t, t[i].prog) && Earlier(keys, Decimal(t[i].prog), Decimal(i))
  }

  predicate Visited(t: Table, keys: seq<string>, n: nat, i: nat)
    requires n <= |keys|
  {
    i < |t| && t[i] != Unused && Decimal(i) in keys[..n]
  }

  function Expected(t: Table, keys: seq<string>, n: nat, junk: nat -> int, i: nat): Handler
    requires n <= |keys|
  {
    if Visited(t, keys, n, i) then Restored(t[i], junk(i), FindsProg(t, keys, i)) else Unused
  }

  /** The table after the first n keys. */
  ghost predicate Partial(t: Table, keys: seq<string>, n: nat, junk: nat -> int, cur: Table)
    requires n <= |keys|
  {
    |cur| >= |t| && forall i: nat :: i < |cur| ==> cur[i] == Expected(t, keys, n, junk, i)
  }

  /** What export promises about the key visited n-th. */
  lemma KeyVisited(t: Table, j: map<string, Json>, keys: seq<string>, n: nat) returns (i: nat)
    requires Exports(t, |t|, j) && Visits(j, keys) && n < |keys|
    ensures i < |t| && t[i] != Unused && keys[n] == Decimal(i)
    ensures IsDecimal(keys[n]) && DecimalValue(keys[n]) == i && j[keys[n]] == HandlerJson(t[i])
    ensures keys[n] !in keys[..n]
  {
    hide HandlerJson, Decimal, DecimalValue, IsDecimal;
    assert KeyOf(t, |t|, keys[n]);
    i := DecimalValue(keys[n]);
    assert ExportedAt(t, j, i);
  }

  lemma VisitedNext(t: Table, keys: seq<string>, n: nat, i: nat, m: nat)
    requires n < |keys| && i < |t| && t[i] != Unused && keys[n] == Decimal(i)
    ensures Visited(t, keys, n + 1, m) == (m == i || Visited(t, keys, n, m))
  {
    assert keys[..n + 1] == keys[..n] + [keys[n]];
    if m != i { DecimalInjective(m, i); }
  }

  lemma ProgVisited(t: Table, keys: seq<string>, n: nat, junk: nat -> int, cur: Table, i: nat)
    requires n < |keys| && Partial(t, keys, n, junk, cur)
    requires forall p, q :: 0 <= p < q < |keys| ==> keys[p] != keys[q]
    requires i < |t| && t[i].Link? && keys[n] == Decimal(i)
    ensures IsProg(cur, t[i].prog) == FindsProg(t, keys, i)
  {
    hide Decimal;
    var g := t[i].prog;
    var k := Decimal(g);
    if g < |t| && t[g].Prog? {
      assert (k in keys[..n]) == Earlier(keys, k, keys[n]) by { EarlierIff(keys, n, k); }
      assert cur[g] == Expected(t, keys, n, junk, g);
    } else if g < |cur| {
      assert cur[g] == Expected(t, keys, n, junk, g);
    }
  }

  lemma EarlierIff(keys: seq<string>, n: nat, a: string)
    requires n < |keys| && forall p, q :: 0 <= p < q < |keys| ==> keys[p] != keys[q]
    ensures a in keys[..n] <==> Earlier(keys, a, keys[n])
  {
    if a in keys[..n] {
      var p :| 0 <= p < n && keys[..n][p] == a;
      assert keys[p] == a && keys[n] == keys[n];
    }
    if Earlier(keys, a, keys[n]) {
      var p, q :| 0 <= p < q < |keys| && keys[p] == a && keys[q] == keys[n];
      assert q == n;
      assert keys[..n][p] == a;
    }
  }

  lemma ImportStep(t: Table, j: map<string, Json>, keys: seq<string>, n: nat, junk: nat -> int, cur: Table)
    returns (i: nat)
    requires Exports(t, |t|, j) && Visits(j, keys) && n < |keys| && Partial(t, keys, n, junk, cur)
    requires forall k :: 0 <= k < |t| ==> WellFormed(t[k])
    ensures i < |t| && t[i] != Unused && keys[n] == Decimal(i)
    ensures var r := ImportKey(cur, keys[n], j[keys[n]], junk);
            r.Done? == Supported(t[i]) && (r.Done? ==> Partial(t, keys, n + 1, junk, r.table))
  {
    hide HandlerJson, Decimal, DecimalValue, IsDecimal, ImportOne, FindsProg, Visited;
    i := KeyVisited(t, j, keys, n);
    var h := t[i];
    assert cur[i] == Unused by { NotVisited(t, keys, n, i); }
    ImportExported(cur, i, h, junk(i));
    if h.Link? { ProgVisited(t, keys, n, junk, cur, i); }
    forall m: nat | m < |cur| ensures Visited(t, keys, n + 1, m) == (m == i || Visited(t, keys, n, m)) {
      VisitedNext(t, keys, n, i, m);
    }
  }

  lemma NotVisited(t: Table, keys: seq<string>, n: nat, i: nat)
    requires n < |keys| && keys[n] == Decimal(i) && keys[n] !in keys[..n]
    ensures !Visited(t, keys, n, i)
  {
  }

  ghost predicate RestSupported(t: Table, keys: seq<string>, n: nat)
    requires n <= |keys|
  {
    forall i: nat :: i < |t| && t[i] != Unused && Decimal(i) in keys[n..] ==> Supported(t[i])
  }

  lemma RestNext(t: Table, keys: seq<string>, n: nat, i: nat)
    requires n < |keys| && i < |t| && t[i] != Unused && keys[n] == Decimal(i)
    ensures RestSupported(t, keys, n) <==> Supported(t[i]) && RestSupported(t, keys, n + 1)
  {
    hide Decimal;
    assert keys[n..] == [keys[n]] + keys[n + 1..];
    forall m: nat | m < |t| && m != i ensures Decimal(m) != Decimal(i) { DecimalInjective(m, i); }
  }

  lemma {:induction false} ImportFinishes(t: Table, j: map<string, Json>, keys: seq<string>, n: nat,
                                          junk: nat -> int, cur: Table)
    requires Exports(t, |t|, j) && Visits(j, keys) && n <= |keys| && Partial(t, keys, n, junk, cur)
    requires forall k :: 0 <= k < |t| ==> WellFormed(t[k])
    ensures var r := ImportFrom(cur, j, keys, n, junk);
            && (r.Done? <==> RestSupported(t, keys, n))
            && (r.Done? ==> Partial(t, keys, |keys|, junk, r.table) && |r.table| == |cur|)
    decreases |keys| - n
  {
    hide Partial, RestSupported, Exports, ImportKey, WellFormed, Supported, Decimal;
    if n == |keys| {
      assert RestSupported(t, keys, n) by { NoRest(t, keys); }
    } else {
      var i := ImportStep(t, j, keys, n, junk, cur);
      RestNext(t, keys, n, i);
      var r := ImportKey(cur, keys[n], j[keys[n]], junk);
      if r.Done? { ImportFinishes(t, j, keys, n + 1, junk, r.table); }
    }
  }

  lemma NoRest(t: Table, keys: seq<string>)
    ensures RestSupported(t, keys, |keys|)
  {
  }

  /** Export, then import into an empty table that is large enough, whatever the order in which
      the keys are visited. Import succeeds exactly when every handler is a program, a map, a
      tracepoint or a link. It then gives back, each at its index: programs with their code and
      name, maps with their name and every exported attribute, tracepoints; a link exactly when
      its program is one of the handlers and was visited first, without its cookie; and nothing
      else. */
  lemma ExportThenImport(t: Table, j: map<string, Json>, keys: seq<string>, empty: Table, junk: nat -> int)
    requires Exports(t, |t|, j) && Visits(j, keys)
    requires |empty| >= |t| && forall i :: 0 <= i < |empty| ==> empty[i] == Unused
    requires forall k :: 0 <= k < |t| ==> WellFormed(t[k])
    ensures var r := ImportFrom(empty, j, keys, 0, junk);
            && (r.Done? <==> forall i :: 0 <= i < |t| ==> t[i] == Unused || Supported(t[i]))
            && (r.Done? ==>
                  && |r.table| == |empty|
                  && forall i: nat :: i < |empty| ==>
                       r.table[i] == if i < |t| && t[i] != Unused then Restored(t[i], junk(i), FindsProg(t, keys, i))
                                     else Unused)
  {
    hide Decimal, ImportFrom, Supported, Restored, FindsProg, WellFormed;
    assert keys[..0] == [] && keys[0..] == keys && keys[..|keys|] == keys;
    assert Partial(t, keys, 0, junk, empty);
    ImportFinishes(t, j, keys, 0, junk, empty);
    forall i: nat | i < |t| && t[i] != Unused ensures Decimal(i) in keys {
      assert ExportedAt(t, j, i);
    }
  }

  // ---- Keys visited in string order ----

  ghost predicate InOrder(keys: seq<string>) {
    forall p, q :: 0 <= p < q < |keys| ==> Before(keys[p], keys[q])
  }

  /** In string order, a link is re-created exactly when its program's decimal index sorts before
      its own. */
  lemma LinkRestoredIff(t: Table, j: map<string, Json>, keys: seq<string>, i: nat)
    requires Exports(t, |t|, j) && Visits(j, keys) && InOrder(keys)
    requires i < |t| && t[i].Link?
    ensures FindsProg(t, keys, i) <==> IsProg(t, t[i].prog) && Before(Decimal(t[i].prog), Decimal(i))
  {
    hide Decimal, Before;
    var g := t[i].prog;
    assert ExportedAt(t, j, i);
    var a, b := Decimal(g), Decimal(i);
    if IsProg(t, g) {
      assert ExportedAt(t, j, g);
      var p :| 0 <= p < |keys| && keys[p] == a;
      var q :| 0 <= q < |keys| && keys[q] == b;
      OrderIs(keys, p, q);
    }
  }

  lemma OrderIs(keys: seq<string>, p: nat, q: nat)
    requires InOrder(keys) && p < |keys| && q < |keys|
    requires forall p, q :: 0 <= p < q < |keys| ==> keys[p] != keys[q]
    ensures Earlier(keys, keys[p], keys[q]) <==> p < q
    ensures Before(keys[p], keys[q]) <==> p < q
  {
    hide Before;
    if Earlier(keys, keys[p], keys[q]) {
      var p', q' :| 0 <= p' < q' < |keys| && keys[p'] == keys[p] && keys[q'] == keys[q];
      assert p' == p && q' == q;
    }
    if q < p { BeforeAsymmetric(keys[q], keys[p]); } else if q == p { NotBeforeItself(keys[p]); }
  }
}
