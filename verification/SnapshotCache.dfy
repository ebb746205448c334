/**
 The caches of analysed modules and projects, and the reference counts of the snapshots that
 they share with the requests that hold them.
 */
module SnapshotCache {
  import Nonlinear
  import opened Options

  type Snapshot = nat
  type Text = seq<nat>

  /** `source` stands for everything a module's snapshot is compared by. */
  datatype ModuleEntry = ModuleEntry(path: Text, source: Text, snapshot: Snapshot, bytes: nat)

  datatype ProjectEntry = ProjectEntry(root: Text, snapshot: Snapshot, bytes: nat, used: nat)

  const MaxModules: nat := 64
  const MaxModuleBytes: nat := 16 * 1024 * 1024
  const MaxProjects: nat := 4
  const MaxProjectBytes: nat := 32 * 1024 * 1024
  const MaxProjectSource: nat := 8 * 1024 * 1024

  // ----- sizes -----

  const SizeMax: nat := 0xffff_ffff_ffff_ffff

  /** Adds the size of `count` items; an overflow sticks at the largest size, which every limit refuses. */
  function RetainedAdd(total: nat, count: nat, width: nat): (r: nat)
    requires total <= SizeMax
    ensures r == if total + count * width > SizeMax then SizeMax else total + count * width
  {
    if width != 0 && count > (SizeMax - total) / width then
      Nonlinear.DivMod(SizeMax - total, width);
      Nonlinear.Monotone((SizeMax - total) / width + 1, width, count, width);
      SizeMax
    else
      Nonlinear.ProductFits(width, count, SizeMax - total);
      total + count * width
  }

  // ----- totals -----

  function ModuleBytes(entries: seq<ModuleEntry>): nat {
    if entries == [] then 0 else entries[0].bytes + ModuleBytes(entries[1..])
  }

  function ProjectBytes(entries: seq<ProjectEntry>): nat {
    if entries == [] then 0 else entries[0].bytes + ProjectBytes(entries[1..])
  }

  /** How often a snapshot occurs among the entries. */
  function InModules(entries: seq<ModuleEntry>, s: Snapshot): nat {
    if entries == [] then 0 else (if entries[0].snapshot == s then 1 else 0) + InModules(entries[1..], s)
  }

  function InProjects(entries: seq<ProjectEntry>, s: Snapshot): nat {
    if entries == [] then 0 else (if entries[0].snapshot == s then 1 else 0) + InProjects(entries[1..], s)
  }

  lemma {:induction false} ModulesSplit(a: seq<ModuleEntry>, e: ModuleEntry, b: seq<ModuleEntry>, s: Snapshot)
    ensures ModuleBytes(a + [e] + b) == e.bytes + ModuleBytes(a + b)
    ensures InModules(a + [e] + b, s) == (if e.snapshot == s then 1 else 0) + InModules(a + b, s)
  {
    if a == [] {
      assert a + [e] + b == [e] + b && a + b == b && ([e] + b)[1..] == b;
    } else {
      assert (a + [e] + b)[1..] == a[1..] + [e] + b && (a + b)[1..] == a[1..] + b;
      ModulesSplit(a[1..], e, b, s);
    }
  }

  lemma {:induction false} ProjectsSplit(a: seq<ProjectEntry>, e: ProjectEntry, b: seq<ProjectEntry>, s: Snapshot)
    ensures ProjectBytes(a + [e] + b) == e.bytes + ProjectBytes(a + b)
    ensures InProjects(a + [e] + b, s) == (if e.snapshot == s then 1 else 0) + InProjects(a + b, s)
  {
    if a == [] {
      assert a + [e] + b == [e] + b && a + b == b && ([e] + b)[1..] == b;
    } else {
      assert (a + [e] + b)[1..] == a[1..] + [e] + b && (a + b)[1..] == a[1..] + b;
      ProjectsSplit(a[1..], e, b, s);
    }
  }

  function Without<T>(entries: seq<T>, i: nat): seq<T>
    requires i < |entries|
  {
    entries[..i] + entries[i + 1..]
  }

  lemma ModulesWithout(entries: seq<ModuleEntry>, i: nat)
    requires i < |entries|
    ensures ModuleBytes(entries) == entries[i].bytes + ModuleBytes(Without(entries, i))
    ensures forall s :: InModules(entries, s) == (if entries[i].snapshot == s then 1 else 0) + InModules(Without(entries, i), s)
  {
    assert entries == entries[..i] + [entries[i]] + entries[i + 1..];
    forall s: Snapshot
      ensures InModules(entries, s) == (if entries[i].snapshot == s then 1 else 0) + InModules(Without(entries, i), s)
    {
      ModulesSplit(entries[..i], entries[i], entries[i + 1..], s);
    }
    ModulesSplit(entries[..i], entries[i], entries[i + 1..], 0);
  }

  lemma ProjectsWithout(entries: seq<ProjectEntry>, i: nat)
    requires i < |entries|
    ensures ProjectBytes(entries) == entries[i].bytes + ProjectBytes(Without(entries, i))
    ensures forall s :: InProjects(entries, s) == (if entries[i].snapshot == s then 1 else 0) + InProjects(Without(entries, i), s)
  {
    assert entries == entries[..i] + [entries[i]] + entries[i + 1..];
    forall s: Snapshot
      ensures InProjects(entries, s) == (if entries[i].snapshot == s then 1 else 0) + InProjects(Without(entries, i), s)
    {
      ProjectsSplit(entries[..i], entries[i], entries[i + 1..], s);
    }
    ProjectsSplit(entries[..i], entries[i], entries[i + 1..], 0);
  }

  lemma ModulesFront(e: ModuleEntry, entries: seq<ModuleEntry>)
    ensures ModuleBytes([e] + entries) == e.bytes + ModuleBytes(entries)
    ensures forall s :: InModules([e] + entries, s) == (if e.snapshot == s then 1 else 0) + InModules(entries, s)
  {
    assert ([e] + entries)[1..] == entries;
  }

  lemma ProjectsFront(e: ProjectEntry, entries: seq<ProjectEntry>)
    ensures ProjectBytes([e] + entries) == e.bytes + ProjectBytes(entries)
    ensures forall s :: InProjects([e] + entries, s) == (if e.snapshot == s then 1 else 0) + InProjects(entries, s)
  {
    assert ([e] + entries)[1..] == entries;
  }

  // ----- reference counts -----

  /** Everyone who still needs a snapshot: entries of both caches and requests. */
  ghost function Needs(modules: seq<ModuleEntry>, projects: seq<ProjectEntry>, holders: multiset<Snapshot>, s: Snapshot): nat {
    InModules(modules, s) + InProjects(projects, s) + holders[s]
  }

  /** A snapshot exists as long as someone needs it, and counts who does. */
  ghost predicate Counted(references: map<Snapshot, nat>, modules: seq<ModuleEntry>, projects: seq<ProjectEntry>, holders: multiset<Snapshot>) {
    forall s :: if s in references then references[s] == Needs(modules, projects, holders, s) > 0
                else Needs(modules, projects, holders, s) == 0
  }

  /** References after one is given up; the last one frees the snapshot. */
  function Released(references: map<Snapshot, nat>, s: Snapshot): map<Snapshot, nat>
    requires s in references
  {
    if references[s] <= 1 then references - {s} else references[s := references[s] - 1]
  }

  /** Stamps of last use are different and in the past. */
  predicate Stamped(projects: seq<ProjectEntry>, clock: nat) {
    && (forall i :: 0 <= i < |projects| ==> projects[i].used <= clock)
    && (forall i, j :: 0 <= i < j < |projects| ==> projects[i].used != projects[j].used)
  }

  lemma StampedFront(projects: seq<ProjectEntry>, clock: nat, e: ProjectEntry)
    requires Stamped(projects, clock) && e.used == clock + 1
    ensures Stamped([e] + projects, clock + 1)
  {
  }

  lemma StampedWithout(projects: seq<ProjectEntry>, clock: nat, k: nat)
    requires Stamped(projects, clock) && k < |projects|
    ensures Stamped(Without(projects, k), clock)
  {
    var rest := Without(projects, k);
    forall i | 0 <= i < |rest|
      ensures rest[i] == projects[if i < k then i else i + 1]
    {
    }
  }

  class Cache {
    var modules: seq<ModuleEntry>
    var moduleCount: nat
    var moduleBytes: nat
    var projects: seq<ProjectEntry>
    var projectCount: nat
    var projectBytes: nat
    var clock: nat
    /** Reference counts of the snapshots that exist; a freed one is gone. */
    var references: map<Snapshot, nat>
    /** The references that requests hold. */
    ghost var holders: multiset<Snapshot>

    ghost predicate Sized()
      reads this
    {
      && moduleCount == |modules| <= MaxModules && moduleBytes == ModuleBytes(modules) <= MaxModuleBytes
      && projectCount == |projects| <= MaxProjects && projectBytes == ProjectBytes(projects) <= MaxProjectBytes
    }

    ghost predicate Valid()
      reads this
    {
      Sized() && Stamped(projects, clock) && Counted(references, modules, projects, holders)
    }

    constructor ()
      ensures Valid() && modules == [] && projects == [] && references == map[] && holders == multiset{}
    {
      modules, moduleCount, moduleBytes, projects, projectCount, projectBytes, clock := [], 0, 0, [], 0, 0, 0;
      references, holders := map[], multiset{};
    }

    /** A request gives back a snapshot; it is freed exactly if nobody else needs it. */
    method Release(s: Snapshot)
      requires Valid() && s in holders
      modifies this
      ensures Valid() && modules == old(modules) && projects == old(projects) && clock == old(clock)
      ensures holders == old(holders) - multiset{s}
      ensures s !in references <==> InModules(modules, s) + InProjects(projects, s) + holders[s] == 0
    {
      Exists(references, modules, projects, holders, s);
      references := Released(references, s);
      holders := holders - multiset{s};
    }

    /** A module's snapshot moves to the front and gets another holder. */
    method GetModule(source: Text) returns (r: Option<Snapshot>)
      requires Valid()
      modifies this
      ensures Valid() && projects == old(projects) && clock == old(clock)
      ensures r.Some? <==> exists e :: e in old(modules) && e.source == source
      ensures r.Some? ==> modules != [] && modules[0].source == source && modules[0].snapshot == r.value
      ensures multiset(modules) == multiset(old(modules))
      ensures holders == if r.Some? then old(holders) + multiset{r.value} else old(holders)
    {
      hide ModuleBytes, InModules, Counted, Without, Stamped, ProjectBytes;
      var i := 0;
      while i < |modules|
        invariant i <= |modules| && forall j :: 0 <= j < i ==> modules[j].source != source
      {
        if modules[i].source == source {
          var e, rest := modules[i], Without(modules, i);
          SameMembers(modules, i);
          ModulesWithout(modules, i);
          ModulesFront(e, rest);
          ModuleHeld(references, modules, i, projects, holders);
          modules := [e] + rest;
          references := references[e.snapshot := references[e.snapshot] + 1];
          holders := holders + multiset{e.snapshot};
          return Some(e.snapshot);
        }
        i := i + 1;
      }
      r := None;
    }

    method DropModule(i: nat)
      requires Valid() && i < |modules|
      modifies this
      ensures Valid() && projects == old(projects) && clock == old(clock) && holders == old(holders)
      ensures modules == Without(old(modules), i) && references.Keys <= old(references).Keys
    {
      hide ModuleBytes, InModules, Counted;
      ModulesWithout(modules, i);
      ModuleDropped(references, modules, i, projects, holders);
      var e := modules[i];
      moduleCount, moduleBytes := moduleCount - 1, moduleBytes - e.bytes;
      modules := Without(modules, i);
      references := Released(references, e.snapshot);
    }

    /** Drops all entries of a path. */
    method DropPath(path: Text)
      requires Valid()
      modifies this
      ensures Valid() && projects == old(projects) && clock == old(clock) && holders == old(holders)
      ensures references.Keys <= old(references).Keys && modules == OtherPaths(old(modules), path)
    {
      hide ModuleBytes, InModules, Counted, OtherPaths;
      var i := 0;
      while i < |modules|
        invariant i <= |modules| && Valid() && projects == old(projects) && clock == old(clock) && holders == old(holders)
        invariant references.Keys <= old(references).Keys
        invariant forall k :: 0 <= k < i ==> modules[k].path != path
        invariant OtherPaths(modules, path) == OtherPaths(old(modules), path)
        decreases |modules| - i
      {
        if modules[i].path == path {
          PathDropped(modules, path, i);
          DropModule(i);
        } else {
          i := i + 1;
        }
      }
      AllOthers(modules, path);
    }

    /** Drops the least recently used entries until there is room for another. */
    method TrimModules(bytes: nat)
      requires Valid() && bytes <= MaxModuleBytes
      modifies this
      ensures Valid() && projects == old(projects) && clock == old(clock) && holders == old(holders)
      ensures references.Keys <= old(references).Keys && modules == Trimmed(old(modules), bytes)
      ensures moduleCount < MaxModules && moduleBytes + bytes <= MaxModuleBytes
    {
      hide ModuleBytes, InModules, Counted;
      while modules != [] && (moduleCount >= MaxModules || bytes > MaxModuleBytes - moduleBytes)
        invariant Valid() && projects == old(projects) && clock == old(clock) && holders == old(holders)
        invariant references.Keys <= old(references).Keys
        invariant Trimmed(modules, bytes) == Trimmed(old(modules), bytes)
        decreases |modules|
      {
        assert Without(modules, |modules| - 1) == modules[..|modules| - 1];
        DropModule(|modules| - 1);
      }
      NoBytes();
    }

    /**
     Stores a new snapshot, which the caller also holds. Entries of the same path go, then the
     least recently used ones until there is room; what is too large or was not `checked` to the
     end is refused without a change.
     */
    method PutModule(path: Text, source: Text, checked: bool, length: nat, bytes: nat, s: Snapshot) returns (stored: bool)
      requires Valid() && s !in references
      modifies this
      ensures Valid() && projects == old(projects) && clock == old(clock)
      ensures stored <==> checked && length <= MaxModuleBytes && bytes <= MaxModuleBytes
      ensures !stored ==> modules == old(modules) && references == old(references) && holders == old(holders)
      ensures stored ==>
                && modules == [ModuleEntry(path, source, s, bytes)] + Trimmed(OtherPaths(old(modules), path), bytes)
                && holders == old(holders) + multiset{s} && s in references && references[s] == 2
    {
      hide ModuleBytes, InModules, Counted, Trimmed, OtherPaths, Stamped;
      if !checked || length > MaxModuleBytes || bytes > MaxModuleBytes {
        return false;
      }
      DropPath(path);
      TrimModules(bytes);
      var e := ModuleEntry(path, source, s, bytes);
      ModulesFront(e, modules);
      ModuleStored(references, modules, projects, holders, e);
      modules := [e] + modules;
      moduleCount, moduleBytes := moduleCount + 1, moduleBytes + bytes;
      references := references[s := 2];
      holders := holders + multiset{s};
      stored := true;
    }

    method DropProject(i: nat)
      requires Valid() && i < |projects|
      modifies this
      ensures Valid() && modules == old(modules) && clock == old(clock) && holders == old(holders)
      ensures projects == Without(old(projects), i) && references.Keys <= old(references).Keys
    {
      hide ProjectBytes, InProjects, Counted, Stamped;
      ProjectsWithout(projects, i);
      ProjectDropped(references, modules, projects, i, holders);
      StampedWithout(projects, clock, i);
      var e := projects[i];
      projectCount, projectBytes := projectCount - 1, projectBytes - e.bytes;
      projects := Without(projects, i);
      references := Released(references, e.snapshot);
    }

    /** A project's snapshot, if its inputs are unchanged; otherwise the stale entry is dropped. */
    method GetProject(root: Text, upToDate: ProjectEntry -> bool) returns (r: Option<Snapshot>)
      requires Valid()
      modifies this
      ensures Valid() && modules == old(modules)
      ensures holders == if r.Some? then old(holders) + multiset{r.value} else old(holders)
      ensures var was, i := old(projects), RootAt(old(projects), root);
              if i == |was| then r == None && projects == was && clock == old(clock)
              else if upToDate(was[i])
              then r == Some(was[i].snapshot) && clock == old(clock) + 1 && projects == was[i := was[i].(used := clock)]
              else r == None && projects == Without(was, i) && clock == old(clock)
    {
      hide ProjectBytes, InProjects, Counted;
      var i := 0;
      while i < |projects|
        invariant i <= |projects| && forall k :: 0 <= k < i ==> projects[k].root != root
      {
        if projects[i].root == root {
          var e := projects[i];
          if upToDate(e) {
            ProjectTouched(references, modules, projects, i, clock + 1, holders);
            clock := clock + 1;
            projects := projects[i := e.(used := clock)];
            references := references[e.snapshot := references[e.snapshot] + 1];
            holders := holders + multiset{e.snapshot};
            return Some(e.snapshot);
          }
          DropProject(i);
          return None;
        }
        i := i + 1;
      }
      r := None;
    }

    /** The entry that was used longest ago. */
    method Oldest() returns (k: nat)
      requires projects != []
      ensures k == OldestOf(projects)
    {
      k := 0;
      var i := 0;
      while i < |projects|
        invariant i <= |projects| && if i == 0 then k == 0 else k == OldestOf(projects[..i])
      {
        assert i > 0 ==> projects[..i + 1][..i] == projects[..i];
        if projects[i].used < projects[k].used {
          k := i;
        }
        i := i + 1;
      }
      assert projects[..i] == projects;
    }

    /** Drops least recently used entries until there is room for another. */
    method MakeRoom(bytes: nat)
      requires Valid() && bytes <= MaxProjectBytes
      modifies this
      ensures Valid() && modules == old(modules) && clock == old(clock) && holders == old(holders)
      ensures references.Keys <= old(references).Keys
      ensures projectCount < MaxProjects && projectBytes + bytes <= MaxProjectBytes
      ensures projects == Evicted(old(projects), bytes) && MostRecent(old(projects), projects)
    {
      hide ProjectBytes, InProjects, Counted, MostRecent;
      NothingGone(projects);
      EvictedRecent(projects, projects, bytes, clock);
      while projects != [] && (projectCount >= MaxProjects || bytes > MaxProjectBytes - projectBytes)
        invariant Valid() && modules == old(modules) && clock == old(clock) && holders == old(holders)
        invariant references.Keys <= old(references).Keys && Evicted(projects, bytes) == Evicted(old(projects), bytes)
        decreases |projects|
      {
        var k := Oldest();
        DropProject(k);
      }
      NoBytes();
    }

    /** Drops the entry of a project, if there is one. */
    method DropRoot(root: Text)
      requires Valid()
      modifies this
      ensures Valid() && modules == old(modules) && clock == old(clock) && holders == old(holders)
      ensures references.Keys <= old(references).Keys && projects == OtherRoots(old(projects), root)
    {
      var i := 0;
      while i < |projects|
        invariant i <= |projects| && forall k :: 0 <= k < i ==> projects[k].root != root
      {
        if projects[i].root == root {
          DropProject(i);
          return;
        }
        i := i + 1;
      }
    }

    /** Stores a new snapshot, which the caller also holds, in place of the project's old entry. */
    method PutProject(root: Text, parsed: bool, length: nat, bytes: nat, s: Snapshot) returns (stored: bool)
      requires Valid() && s !in references
      modifies this
      ensures Valid() && modules == old(modules)
      ensures stored <==> parsed && length <= MaxProjectSource && bytes <= MaxProjectBytes
      ensures !stored ==> projects == old(projects) && references == old(references) && holders == old(holders) && clock == old(clock)
      ensures stored ==>
                && clock == old(clock) + 1
                && projects == [ProjectEntry(root, s, bytes, clock)] + Evicted(OtherRoots(old(projects), root), bytes)
                && MostRecent(OtherRoots(old(projects), root), Evicted(OtherRoots(old(projects), root), bytes))
                && holders == old(holders) + multiset{s} && s in references && references[s] == 2
    {
      hide ProjectBytes, InProjects, Counted, Stamped, Evicted, OtherRoots, RootAt, Without, MostRecent;
      if !parsed || length > MaxProjectSource || bytes > MaxProjectBytes {
        return false;
      }
      DropRoot(root);
      MakeRoom(bytes);
      clock := clock + 1;
      var e := ProjectEntry(root, s, bytes, clock);
      ProjectsFront(e, projects);
      StampedFront(projects, clock - 1, e);
      ProjectStored(references, modules, projects, holders, e);
      projects := [e] + projects;
      projectCount, projectBytes := projectCount + 1, projectBytes + bytes;
      references := references[s := 2];
      holders := holders + multiset{s};
      stored := true;
    }
  }

  // ----- what leaves a cache -----

  lemma SameMembers(entries: seq<ModuleEntry>, i: nat)
    requires i < |entries|
    ensures entries[i] in entries && multiset([entries[i]] + Without(entries, i)) == multiset(entries)
  {
    assert entries == entries[..i] + [entries[i]] + entries[i + 1..];
  }

  /** The entries of other paths. */
  function OtherPaths(entries: seq<ModuleEntry>, path: Text): seq<ModuleEntry> {
    if entries == [] then []
    else (if entries[0].path == path then [] else [entries[0]]) + OtherPaths(entries[1..], path)
  }

  lemma {:induction false} PathDropped(entries: seq<ModuleEntry>, path: Text, i: nat)
    requires i < |entries| && entries[i].path == path
    ensures OtherPaths(Without(entries, i), path) == OtherPaths(entries, path)
  {
    if i == 0 {
      assert Without(entries, 0) == entries[1..];
    } else {
      assert Without(entries, i)[0] == entries[0] && Without(entries, i)[1..] == Without(entries[1..], i - 1);
      PathDropped(entries[1..], path, i - 1);
    }
  }

  lemma {:induction false} AllOthers(entries: seq<ModuleEntry>, path: Text)
    requires forall k :: 0 <= k < |entries| ==> entries[k].path != path
    ensures OtherPaths(entries, path) == entries
  {
    if entries != [] {
      AllOthers(entries[1..], path);
    }
  }

  /** The longest initial part, most recently used first, that leaves room for another entry. */
  function Trimmed(entries: seq<ModuleEntry>, bytes: nat): seq<ModuleEntry>
    decreases |entries|
  {
    if entries == [] || (|entries| < MaxModules && bytes + ModuleBytes(entries) <= MaxModuleBytes) then entries
    else Trimmed(entries[..|entries| - 1], bytes)
  }

  /** Trimming keeps an initial part with room behind it, and a longer one would not have that. */
  lemma {:induction false} TrimmedLongest(entries: seq<ModuleEntry>, bytes: nat)
    requires bytes <= MaxModuleBytes
    ensures var r := Trimmed(entries, bytes);
            && r <= entries && |r| < MaxModules && bytes + ModuleBytes(r) <= MaxModuleBytes
            && forall n :: |r| < n <= |entries| ==> n >= MaxModules || bytes + ModuleBytes(entries[..n]) > MaxModuleBytes
    decreases |entries|
  {
    if entries != [] && (|entries| >= MaxModules || bytes + ModuleBytes(entries) > MaxModuleBytes) {
      var shorter := entries[..|entries| - 1];
      TrimmedLongest(shorter, bytes);
      forall n | |Trimmed(shorter, bytes)| < n <= |entries|
        ensures n >= MaxModules || bytes + ModuleBytes(entries[..n]) > MaxModuleBytes
      {
        assert entries[..n] == if n == |entries| then entries else shorter[..n];
      }
    } else {
      assert ModuleBytes([]) == 0;
    }
  }

  /** The first entry of a root, or the number of entries. */
  function RootAt(entries: seq<ProjectEntry>, root: Text): (i: nat)
    ensures i <= |entries| && (i < |entries| ==> entries[i].root == root)
    ensures forall k :: 0 <= k < i ==> entries[k].root != root
  {
    if entries == [] || entries[0].root == root then 0 else 1 + RootAt(entries[1..], root)
  }

  function OtherRoots(entries: seq<ProjectEntry>, root: Text): seq<ProjectEntry> {
    var i := RootAt(entries, root);
    if i < |entries| then Without(entries, i) else entries
  }

  function OldestOf(entries: seq<ProjectEntry>): (k: nat)
    requires entries != []
    ensures k < |entries| && forall i :: 0 <= i < |entries| ==> entries[k].used <= entries[i].used
  {
    var n := |entries| - 1;
    if n == 0 then 0
    else
      var k := OldestOf(entries[..n]);
      if entries[n].used < entries[k].used then n else k
  }

  /** What is left after dropping least recently used entries one by one, until there is room for another. */
  function Evicted(entries: seq<ProjectEntry>, bytes: nat): seq<ProjectEntry>
    decreases |entries|
  {
    if entries == [] || (|entries| < MaxProjects && bytes + ProjectBytes(entries) <= MaxProjectBytes) then entries
    else Evicted(Without(entries, OldestOf(entries)), bytes)
  }

  /** Eviction keeps the most recently used entries. */
  lemma {:induction false} EvictedRecent(was: seq<ProjectEntry>, entries: seq<ProjectEntry>, bytes: nat, clock: nat)
    requires MostRecent(was, entries) && Stamped(entries, clock)
    ensures MostRecent(was, Evicted(entries, bytes))
    decreases |entries|
  {
    hide MostRecent, Stamped;
    if !(entries == [] || (|entries| < MaxProjects && bytes + ProjectBytes(entries) <= MaxProjectBytes)) {
      OldestGone(was, entries, OldestOf(entries), clock);
      StampedWithout(entries, clock, OldestOf(entries));
      EvictedRecent(was, Without(entries, OldestOf(entries)), bytes, clock);
    }
  }

  /** Eviction goes no further than it must: with the last entry that it took there was no room. */
  lemma {:induction false} EvictedLeast(entries: seq<ProjectEntry>, bytes: nat, clock: nat) returns (e: ProjectEntry)
    requires Stamped(entries, clock) && Evicted(entries, bytes) != entries
    ensures var left := Evicted(entries, bytes);
            && e in entries && (|left| + 1 >= MaxProjects || bytes + ProjectBytes(left) + e.bytes > MaxProjectBytes)
            && (forall f :: f in left ==> e.used < f.used) && (forall f :: f in entries && f !in left ==> f.used <= e.used)
    decreases |entries|
  {
    hide Stamped, Without, ProjectBytes;
    var k := OldestOf(entries);
    var rest := Without(entries, k);
    OldestApart(entries, k, clock);
    ProjectsWithout(entries, k);
    FewerLeft(entries, k);
    if Evicted(rest, bytes) == rest {
      e := entries[k];
    } else {
      StampedWithout(entries, clock, k);
      e := EvictedLeast(rest, bytes, clock);
      EvictedAmong(rest, bytes);
    }
  }

  lemma FewerLeft(entries: seq<ProjectEntry>, k: nat)
    requires k < |entries|
    ensures |Without(entries, k)| == |entries| - 1
  {
  }

  lemma {:induction false} EvictedAmong(entries: seq<ProjectEntry>, bytes: nat)
    ensures forall f :: f in Evicted(entries, bytes) ==> f in entries
    decreases |entries|
  {
    hide ProjectBytes;
    if !(entries == [] || (|entries| < MaxProjects && bytes + ProjectBytes(entries) <= MaxProjectBytes)) {
      EvictedAmong(Without(entries, OldestOf(entries)), bytes);
    }
  }

  lemma NothingGone(entries: seq<ProjectEntry>)
    ensures MostRecent(entries, entries)
  {
  }

  /** What is left was all used after what is gone. */
  predicate MostRecent(was: seq<ProjectEntry>, left: seq<ProjectEntry>) {
    && (forall f :: f in left ==> f in was)
    && (forall e, f :: e in was && e !in left && f in left ==> e.used < f.used)
  }

  lemma OldestGone(was: seq<ProjectEntry>, left: seq<ProjectEntry>, k: nat, clock: nat)
    requires MostRecent(was, left) && Stamped(left, clock) && k < |left| && forall i :: 0 <= i < |left| ==> left[k].used <= left[i].used
    ensures MostRecent(was, Without(left, k))
  {
    hide Stamped, Without;
    var rest := Without(left, k);
    OldestApart(left, k, clock);
    forall e, f | e in was && e !in rest && f in rest
      ensures e.used < f.used
    {
      assert e == left[k] || e !in left;
    }
  }

  lemma OldestApart(left: seq<ProjectEntry>, k: nat, clock: nat)
    requires Stamped(left, clock) && k < |left| && forall i :: 0 <= i < |left| ==> left[k].used <= left[i].used
    ensures forall f :: f in Without(left, k) ==> f in left && left[k].used < f.used
    ensures forall e :: e in left ==> e == left[k] || e in Without(left, k)
  {
    var rest := Without(left, k);
    forall f | f in rest
      ensures f in left && left[k].used < f.used
    {
      var i :| 0 <= i < |rest| && rest[i] == f;
      assert rest[i] == left[if i < k then i else i + 1];
    }
    forall e | e in left && e != left[k]
      ensures e in rest
    {
      var i :| 0 <= i < |left| && left[i] == e;
      assert rest[if i < k then i else i - 1] == left[i];
    }
  }

  lemma NoBytes()
    ensures ModuleBytes([]) == 0 && ProjectBytes([]) == 0
  {
  }

  lemma Exists(references: map<Snapshot, nat>, modules: seq<ModuleEntry>, projects: seq<ProjectEntry>, holders: multiset<Snapshot>, s: Snapshot)
    requires Counted(references, modules, projects, holders) && Needs(modules, projects, holders, s) > 0
    ensures s in references
  {
  }

  lemma ModuleHeld(references: map<Snapshot, nat>, modules: seq<ModuleEntry>, i: nat, projects: seq<ProjectEntry>, holders: multiset<Snapshot>)
    requires Counted(references, modules, projects, holders) && i < |modules|
    ensures var e := modules[i];
            e.snapshot in references &&
            Counted(references[e.snapshot := references[e.snapshot] + 1], [e] + Without(modules, i), projects, holders + multiset{e.snapshot})
  {
    hide InModules, InProjects;
    var e := modules[i];
    ModulesWithout(modules, i);
    ModulesFront(e, Without(modules, i));
    Exists(references, modules, projects, holders, e.snapshot);
  }

  lemma ModuleDropped(references: map<Snapshot, nat>, modules: seq<ModuleEntry>, i: nat, projects: seq<ProjectEntry>, holders: multiset<Snapshot>)
    requires Counted(references, modules, projects, holders) && i < |modules|
    ensures modules[i].snapshot in references
    ensures Counted(Released(references, modules[i].snapshot), Without(modules, i), projects, holders)
  {
    hide InModules, InProjects;
    ModulesWithout(modules, i);
    Exists(references, modules, projects, holders, modules[i].snapshot);
  }

  lemma ModuleStored(references: map<Snapshot, nat>, modules: seq<ModuleEntry>, projects: seq<ProjectEntry>, holders: multiset<Snapshot>, e: ModuleEntry)
    requires Counted(references, modules, projects, holders) && e.snapshot !in references
    ensures Counted(references[e.snapshot := 2], [e] + modules, projects, holders + multiset{e.snapshot})
  {
    hide InModules, InProjects;
    ModulesFront(e, modules);
  }

  lemma ProjectDropped(references: map<Snapshot, nat>, modules: seq<ModuleEntry>, projects: seq<ProjectEntry>, i: nat, holders: multiset<Snapshot>)
    requires Counted(references, modules, projects, holders) && i < |projects|
    ensures projects[i].snapshot in references
    ensures Counted(Released(references, projects[i].snapshot), modules, Without(projects, i), holders)
  {
    hide InModules, InProjects;
    ProjectsWithout(projects, i);
    Exists(references, modules, projects, holders, projects[i].snapshot);
  }

  lemma ProjectStored(references: map<Snapshot, nat>, modules: seq<ModuleEntry>, projects: seq<ProjectEntry>, holders: multiset<Snapshot>, e: ProjectEntry)
    requires Counted(references, modules, projects, holders) && e.snapshot !in references
    ensures Counted(references[e.snapshot := 2], modules, [e] + projects, holders + multiset{e.snapshot})
  {
    hide InModules, InProjects;
    ProjectsFront(e, projects);
  }

  /** A new stamp changes neither bytes nor snapshots. */
  lemma ProjectTouched(references: map<Snapshot, nat>, modules: seq<ModuleEntry>, projects: seq<ProjectEntry>, i: nat, used: nat, holders: multiset<Snapshot>)
    requires Counted(references, modules, projects, holders) && i < |projects|
    ensures var e, touched := projects[i], projects[i := projects[i].(used := used)];
            && ProjectBytes(touched) == ProjectBytes(projects) && e.snapshot in references
            && Counted(references[e.snapshot := references[e.snapshot] + 1], modules, touched, holders + multiset{e.snapshot})
  {
    hide InModules, InProjects, ProjectBytes;
    var touched := projects[i := projects[i].(used := used)];
    assert Without(touched, i) == Without(projects, i);
    ProjectsWithout(projects, i);
    ProjectsWithout(touched, i);
    Exists(references, modules, projects, holders, projects[i].snapshot);
  }
}
