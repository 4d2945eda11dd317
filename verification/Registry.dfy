/** The handler table shared by the daemon and the agents. */
module Registry {
  datatype Probe = Probe(pid: int, name: string, offset: nat, retprobe: bool, refCtr: nat)

  datatype Handler =
    | Unused
    | MapHandler(id: int)
    | ProgHandler(id: int)
    | PerfHandler(probe: Probe, enabled: bool)
    | LinkHandler(prog: int, target: int)

  type Slots = seq<Handler>

  const EEXIST: int := 17
  const ENOSPC: int := 28
  const ENOTSUP: int := 95

  predicate Allocated(s: Slots, fd: int) { 0 <= fd < |s| && s[fd] != Unused }
  predicate IsMap(s: Slots, fd: int) { 0 <= fd < |s| && s[fd].MapHandler? }
  predicate IsProg(s: Slots, fd: int) { 0 <= fd < |s| && s[fd].ProgHandler? }
  predicate IsPerf(s: Slots, fd: int) { 0 <= fd < |s| && s[fd].PerfHandler? }

  /** Slot i holds a link that goes when slot fd goes. */
  predicate Hangs(s: Slots, fd: int, i: int) {
    && 0 <= i < |s| && s[i].LinkHandler?
    && ((IsPerf(s, fd) && s[i].target == fd) || (IsProg(s, fd) && s[i].prog == fd))
  }

  /** The table after slot fd is freed: the slot and the links that hang on it are empty, all
      else is as before. */
  function Cleared(s: Slots, fd: int): (r: Slots)
    ensures |r| == |s|
    ensures forall i :: 0 <= i < |s| ==> r[i] == if i == fd || Hangs(s, fd, i) then Unused else s[i]
  {
    seq(|s|, i requires 0 <= i < |s| => if i == fd || Hangs(s, fd, i) then Unused else s[i])
  }

  /** The least empty slot, or -1 in a full table. */
  predicate IsMinUnused(s: Slots, id: int) {
    || (id == -1 && forall i :: 0 <= i < |s| ==> s[i] != Unused)
    || (0 <= id < |s| && s[id] == Unused && forall i :: 0 <= i < id ==> s[i] != Unused)
  }

  function MinUnused(s: Slots): (id: int)
    ensures IsMinUnused(s, id)
  {
    MinUnusedFrom(s, 0)
  }

  function MinUnusedFrom(s: Slots, k: nat): (id: int)
    requires k <= |s| && forall i :: 0 <= i < k ==> s[i] != Unused
    ensures IsMinUnused(s, id)
    decreases |s| - k
  {
    if k == |s| then -1 else if s[k] == Unused then k else MinUnusedFrom(s, k + 1)
  }

  function MapAdded(s: Slots, fd: int): (r: Slots)
    requires 0 <= fd < |s|
    ensures |r| == |s|
  {
    Cleared(s, fd)[fd := MapHandler(fd)]
  }

  /** No link outlives its program or its perf event. */
  ghost predicate NoDangling(s: Slots) {
    forall i :: 0 <= i < |s| && s[i].LinkHandler? ==> IsProg(s, s[i].prog) && IsPerf(s, s[i].target)
  }

  lemma ClearedNoDangling(s: Slots, fd: int)
    requires NoDangling(s)
    ensures NoDangling(Cleared(s, fd))
  {
  }

  lemma MapAddedNoDangling(s: Slots, fd: int)
    requires NoDangling(s) && 0 <= fd < |s|
    ensures NoDangling(MapAdded(s, fd))
  {
  }

  class Manager {
    var slots: Slots

    constructor (size: nat)
      ensures slots == seq(size, _ => Unused)
    {
      slots := seq(size, _ => Unused);
    }

    /** Refuses an allocated slot and the unused handler; otherwise fills the slot and returns it. */
    method SetHandler(fd: int, h: Handler) returns (r: int)
      requires h == Unused || 0 <= fd < |slots|
      modifies this
      ensures r == if Allocated(old(slots), fd) then -EEXIST else if h == Unused then -ENOTSUP else fd
      ensures slots == if Allocated(old(slots), fd) || h == Unused then old(slots) else old(slots)[fd := h]
    {
      if Allocated(slots, fd) { return -EEXIST; }
      if h == Unused { return -ENOTSUP; }
      slots := slots[fd := h];
      return fd;
    }

    method ClearIdAt(fd: int)
      modifies this
      ensures slots == if 0 <= fd < |old(slots)| then Cleared(old(slots), fd) else old(slots)
    {
      if fd < 0 || fd >= |slots| { return; }
      ghost var was := slots;
      if slots[fd].PerfHandler? {
        for i := 0 to |slots|
          invariant |slots| == |was|
          invariant forall j :: 0 <= j < |was| ==> slots[j] == if j < i && Hangs(was, fd, j) then Unused else was[j]
        {
          if slots[i].LinkHandler? && slots[i].target == fd { slots := slots[i := Unused]; }
        }
      } else if slots[fd].ProgHandler? {
        for i := 0 to |slots|
          invariant |slots| == |was|
          invariant forall j :: 0 <= j < |was| ==> slots[j] == if j < i && Hangs(was, fd, j) then Unused else was[j]
        {
          if slots[i].LinkHandler? && slots[i].prog == fd { slots := slots[i := Unused]; }
        }
      }
      slots := slots[fd := Unused];
    }

    method FindMinimalUnused() returns (id: int)
      ensures id == MinUnused(slots)
    {
      for i := 0 to |slots|
        invariant forall j :: 0 <= j < i ==> slots[j] != Unused
      {
        if !Allocated(slots, i) { return i; }
      }
      return -1;
    }

    /** A map replaces whatever its slot held. */
    method AddMap(fd: int) returns (r: int)
      requires 0 <= fd < |slots|
      modifies this
      ensures r == fd && slots == MapAdded(old(slots), fd)
    {
      if slots[fd] != Unused { ClearIdAt(fd); }
      r := SetHandler(fd, MapHandler(fd));
    }
  }
}
