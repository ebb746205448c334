/**
 Section garbage collection: a worklist over relocations, and repeated scans of the unwind
 tables for the routines and tables that the frames of live code need.
 */
module GarbageCollection {
  import opened Options
  import opened Leb128
  import opened EhFrame

  /** `markable`: kept in the output and no unwind table; `frames`: an allocated unwind table. */
  datatype Input = Input(data: seq<Byte>, relas: seq<Rela>, markable: bool, frames: bool)

  /** `home` gives the section of each symbol that is defined in one. */
  datatype Graph = Graph(sections: seq<Input>, home: map<nat, nat>)

  const WholeSection: nat := 0xffff_ffff_ffff_ffff

  predicate WellFormed(g: Graph) {
    forall s :: s in g.home ==> g.home[s] < |g.sections|
  }

  predicate Markable(g: Graph, b: nat) {
    b < |g.sections| && g.sections[b].markable
  }

  predicate Names(g: Graph, rela: Rela, from: nat, to: nat, b: nat) {
    from <= rela.offset < to && rela.symbol in g.home && g.home[rela.symbol] == b
  }

  /** Some relocation of section `s` in a range of offsets names a symbol of section `b`. */
  predicate Refers(g: Graph, s: nat, from: nat, to: nat, b: nat) {
    s < |g.sections| && exists i :: 0 <= i < |g.sections[s].relas| && Names(g, g.sections[s].relas[i], from, to, b)
  }

  /** The FDE `r` of table `s` describes code of section `a`. */
  predicate Describes(g: Graph, s: nat, r: Record, a: nat)
    requires s < |g.sections|
  {
    var symbol := SymbolAt(g.sections[s].relas, r.start + 8);
    symbol.Some? && symbol.value in g.home && g.home[symbol.value] == a
  }

  /** What the FDE `r` refers to behind its address, or its CIE anywhere. */
  predicate FrameRefers(g: Graph, s: nat, records: seq<Record>, r: nat, b: nat)
    requires r < |records|
  {
    || Refers(g, s, records[r].start + 12, records[r].start + records[r].size, b)
    || exists c :: 0 <= c < |records| && CieRefers(g, s, records, r, c, b)
  }

  predicate CieRefers(g: Graph, s: nat, records: seq<Record>, r: nat, c: nat, b: nat)
    requires r < |records| && c < |records|
  {
    && !records[c].fde && records[c].start == records[r].cie
    && Refers(g, s, records[c].start, records[c].start + records[c].size, b)
  }

  /** Keeping the code of section `a` keeps `b`, because a frame of `a` in table `s` needs it. */
  predicate FrameEdge(g: Graph, s: nat, a: nat, b: nat) {
    && s < |g.sections| && g.sections[s].frames && Parse(g.sections[s].data, 0).Ok?
    && var records := Parse(g.sections[s].data, 0).value;
       exists r :: 0 <= r < |records| && records[r].fde && Describes(g, s, records[r], a) && FrameRefers(g, s, records, r, b)
  }

  ghost predicate DirectlyClosed(g: Graph, a: nat, live: set<nat>) {
    forall b :: Refers(g, a, 0, WholeSection, b) && Markable(g, b) ==> b in live
  }

  /** Frame `r` of table `s` asks for nothing that is not live. */
  ghost predicate FrameClosed(g: Graph, s: nat, records: seq<Record>, r: nat, live: set<nat>)
    requires s < |g.sections| && r < |records|
  {
    forall a, b :: records[r].fde && Describes(g, s, records[r], a) && a in live && FrameRefers(g, s, records, r, b) && Markable(g, b) ==>
      b in live
  }

  ghost predicate FramesClosed(g: Graph, s: nat, live: set<nat>) {
    forall a, b :: FrameEdge(g, s, a, b) && a in live && Markable(g, b) ==> b in live
  }

  ghost predicate HoldsRoots(g: Graph, roots: seq<nat>, live: set<nat>) {
    forall i :: 0 <= i < |roots| && Markable(g, roots[i]) ==> roots[i] in live
  }

  /** A set of sections that holds the roots and all that its members need. */
  ghost predicate Closed(g: Graph, roots: seq<nat>, live: set<nat>) {
    && HoldsRoots(g, roots, live)
    && (forall a :: a in live ==> DirectlyClosed(g, a, live))
    && (forall s :: 0 <= s < |g.sections| ==> FramesClosed(g, s, live))
  }

  /** Contained in every closed set. */
  ghost predicate Needed(g: Graph, roots: seq<nat>, live: set<nat>) {
    forall other: set<nat> :: Closed(g, roots, other) ==> live <= other
  }

  /** Sections added because of references from a range of `s`. */
  ghost predicate Adds(g: Graph, s: nat, from: nat, to: nat, was: set<nat>, now: set<nat>) {
    was <= now && forall b :: b in now && b !in was ==> Markable(g, b) && Refers(g, s, from, to, b)
  }

  lemma DirectNeeded(g: Graph, roots: seq<nat>, a: nat, was: set<nat>, now: set<nat>)
    requires Needed(g, roots, was) && a in was && Adds(g, a, 0, WholeSection, was, now)
    ensures Needed(g, roots, now)
  {
    forall other: set<nat> | Closed(g, roots, other)
      ensures now <= other
    {
      assert DirectlyClosed(g, a, other);
    }
  }

  lemma FrameNeeded(g: Graph, roots: seq<nat>, s: nat, a: nat, r: nat, from: nat, to: nat, was: set<nat>, now: set<nat>)
    requires Needed(g, roots, was) && a in was && Adds(g, s, from, to, was, now)
    requires s < |g.sections| && g.sections[s].frames && Parse(g.sections[s].data, 0).Ok?
    requires var records := Parse(g.sections[s].data, 0).value;
             r < |records| && records[r].fde && Describes(g, s, records[r], a) &&
             forall b :: Refers(g, s, from, to, b) ==> FrameRefers(g, s, records, r, b)
    ensures Needed(g, roots, now)
  {
    forall other: set<nat> | Closed(g, roots, other)
      ensures now <= other
    {
      forall b | b in now && b !in was
        ensures b in other
      {
        assert FrameEdge(g, s, a, b);
        assert FramesClosed(g, s, other);
      }
    }
  }

  /** The target of a relocation is kept, if it could be dropped at all. */
  predicate TargetKept(g: Graph, rela: Rela, live: set<nat>) {
    rela.symbol in g.home && Markable(g, g.home[rela.symbol]) ==> g.home[rela.symbol] in live
  }

  /**
   What marking keeps is what compaction needs: with the symbols of live sections as its alive
   ones, no relocation of a compacted table names a dropped section, but for those that an FDE
   has before the end of its code's address, the first of which names live code.
   */
  lemma NoDangling(g: Graph, roots: seq<nat>, live: set<nat>, s: nat, alive: set<nat>, now: Rela) returns (i: nat, was: Rela)
    requires WellFormed(g) && Closed(g, roots, live) && s < |g.sections| && g.sections[s].frames && Parse(g.sections[s].data, 0).Ok?
    requires forall symbol :: symbol in alive <==> symbol in g.home && g.home[symbol] in live
    requires var records := Parse(g.sections[s].data, 0).value;
             now in NewRelas(PlanOf(Section(g.sections[s].data, g.sections[s].relas), records, alive), |records|)
    ensures var records := Parse(g.sections[s].data, 0).value;
            && i < |records| && Inside(records[i], was) && was in g.sections[s].relas && now.symbol == was.symbol
            && (!records[i].fde || was.offset >= records[i].start + 12 ==> TargetKept(g, now, live))
            && (records[i].fde ==> exists a :: a in live && Describes(g, s, records[i], a))
  {
    hide Parse, NewRelas, Refers, DirectlyClosed;
    var records := Parse(g.sections[s].data, 0).value;
    var p := PlanOf(Section(g.sections[s].data, g.sections[s].relas), records, alive);
    i, was := RelasOrigin(p, |records|, now);
    var k := i;
    if !records[i].fde {
      k :| 0 <= k < |records| && records[k].fde && Covers(p.relas, alive, records[k]) && records[k].cie == records[i].start;
    }
    var a := g.home[SymbolAt(p.relas, records[k].start + 8).value];
    assert Describes(g, s, records[k], a) && a in live;
    if (k != i || was.offset >= records[i].start + 12) && was.symbol in g.home {
      var b := g.home[was.symbol];
      RelaRefers(g, s, was, if k == i then records[i].start + 12 else records[i].start, records[i].start + records[i].size, b);
      assert k != i ==> CieRefers(g, s, records, k, i, b);
      assert FrameRefers(g, s, records, k, b) && FrameEdge(g, s, a, b) && FramesClosed(g, s, live);
    }
  }

  /** Compaction keeps an FDE exactly if marking takes it to describe live code. */
  lemma SameFrames(g: Graph, live: set<nat>, s: nat, alive: set<nat>, r: Record)
    requires s < |g.sections| && forall symbol :: symbol in alive <==> symbol in g.home && g.home[symbol] in live
    ensures Covers(g.sections[s].relas, alive, r) <==> exists a :: a in live && Describes(g, s, r, a)
  {
    var symbol := SymbolAt(g.sections[s].relas, r.start + 8);
    if symbol.Some? && symbol.value in g.home {
      assert Describes(g, s, r, g.home[symbol.value]);
    }
  }

  lemma RelaRefers(g: Graph, s: nat, rela: Rela, from: nat, to: nat, b: nat)
    requires s < |g.sections| && rela in g.sections[s].relas && Names(g, rela, from, to, b)
    ensures Refers(g, s, from, to, b)
  {
  }

  /** Live sections are markable, and looked at, waiting on the stack, or among the excepted. */
  ghost predicate Tracked(g: Graph, live: set<nat>, stack: seq<nat>, except: set<nat>) {
    && (forall a :: a in live ==> Markable(g, a))
    && (forall i :: 0 <= i < |stack| ==> stack[i] in live)
    && (forall a :: a in live ==> a in stack || a in except || DirectlyClosed(g, a, live))
  }

  /** What became live was pushed, and nothing was popped. */
  ghost predicate Pushed(was: set<nat>, before: seq<nat>, now: set<nat>, after: seq<nat>) {
    && was <= now && before <= after
    && (forall b :: b in now && b !in was ==> b in after)
    && (forall i :: |before| <= i < |after| ==> after[i] in now && after[i] !in was)
  }

  lemma PushedTracked(g: Graph, was: set<nat>, before: seq<nat>, now: set<nat>, after: seq<nat>, except: set<nat>)
    requires Tracked(g, was, before, except) && Pushed(was, before, now, after)
    requires forall b :: b in now && b !in was ==> Markable(g, b)
    ensures Tracked(g, now, after, except)
  {
    forall i | 0 <= i < |after|
      ensures after[i] in now
    {
      if i < |before| {
        assert after[i] == before[i];
      }
    }
    forall a | a in now
      ensures a in after || a in except || DirectlyClosed(g, a, now)
    {
      if a in before {
        var i :| 0 <= i < |before| && before[i] == a;
        assert after[i] == a;
      }
    }
  }

  lemma PushedMore(s0: set<nat>, k0: seq<nat>, s1: set<nat>, k1: seq<nat>, s2: set<nat>, k2: seq<nat>)
    requires Pushed(s0, k0, s1, k1) && Pushed(s1, k1, s2, k2)
    ensures Pushed(s0, k0, s2, k2)
  {
    forall b | b in s2 && b !in s0
      ensures b in k2
    {
      if b in s1 {
        var i :| 0 <= i < |k1| && k1[i] == b;
        assert k2[i] == b;
      }
    }
    forall i | |k0| <= i < |k2|
      ensures k2[i] in s2 && k2[i] !in s0
    {
      if i < |k1| {
        assert k2[i] == k1[i];
      }
    }
  }

  class Collector {
    const g: Graph
    var live: set<nat>
    var stack: seq<nat>

    constructor (g: Graph)
      ensures this.g == g && live == {} && stack == []
    {
      this.g, live, stack := g, {}, [];
    }

    method Mark(b: nat)
      requires b < |g.sections|
      modifies this
      ensures live == if Markable(g, b) then old(live) + {b} else old(live)
      ensures Pushed(old(live), old(stack), live, stack)
    {
      if b !in live && g.sections[b].markable {
        live := live + {b};
        stack := stack + [b];
        assert stack[|stack| - 1] == b;
      }
    }

    /** Marks what the relocations of `s` in a range of offsets refer to. */
    method MarkRelocations(s: nat, from: nat, to: nat)
      requires WellFormed(g) && s < |g.sections|
      modifies this
      ensures Adds(g, s, from, to, old(live), live)
      ensures forall b :: Refers(g, s, from, to, b) && Markable(g, b) ==> b in live
      ensures Pushed(old(live), old(stack), live, stack)
    {
      var relas, i := g.sections[s].relas, 0;
      while i < |relas|
        invariant i <= |relas| && Pushed(old(live), old(stack), live, stack) && Adds(g, s, from, to, old(live), live)
        invariant forall k, b :: 0 <= k < i && Names(g, relas[k], from, to, b) && Markable(g, b) ==> b in live
      {
        ghost var was, before := live, stack;
        if from <= relas[i].offset < to && relas[i].symbol in g.home {
          var b := g.home[relas[i].symbol];
          assert Names(g, relas[i], from, to, b);
          Mark(b);
          PushedMore(old(live), old(stack), was, before, live, stack);
        }
        i := i + 1;
      }
    }

    /** Empties the stack, following the relocations of every section on it. */
    method Drain(ghost roots: seq<nat>)
      requires WellFormed(g) && Tracked(g, live, stack, {}) && Needed(g, roots, live)
      modifies this
      ensures Tracked(g, live, stack, {}) && Needed(g, roots, live) && stack == [] && old(live) <= live
    {
      while |stack| > 0
        invariant Tracked(g, live, stack, {}) && Needed(g, roots, live) && old(live) <= live
        decreases Unmarked(live, |g.sections|), |stack|
      {
        ghost var was := live;
        var a := stack[|stack| - 1];
        Popped(g, live, stack);
        stack := stack[..|stack| - 1];
        ghost var before := stack;
        MarkRelocations(a, 0, WholeSection);
        PushedTracked(g, was, before, live, stack, {a});
        assert DirectlyClosed(g, a, live);
        DirectNeeded(g, roots, a, was, live);
        Progress(g, was, live);
        PushedNothing(was, before, live, stack);
      }
    }

    /** Marks what the frames of one table need for the code that is live. */
    method ScanTable(s: nat, records: seq<Record>, ghost roots: seq<nat>)
      requires WellFormed(g) && s < |g.sections| && g.sections[s].frames && Parse(g.sections[s].data, 0) == Ok(records)
      requires Tracked(g, live, stack, {}) && Needed(g, roots, live)
      modifies this
      ensures Tracked(g, live, stack, {}) && Needed(g, roots, live)
      ensures Pushed(old(live), old(stack), live, stack)
      ensures live == old(live) ==> FramesClosed(g, s, live)
    {
      var r := 0;
      while r < |records|
        invariant r <= |records| && Tracked(g, live, stack, {}) && Needed(g, roots, live)
        invariant Pushed(old(live), old(stack), live, stack)
        invariant live == old(live) ==> forall k :: 0 <= k < r ==> FrameClosed(g, s, records, k, live)
      {
        ghost var was, before := live, stack;
        if records[r].fde {
          var target := FdeTarget(g.sections[s].relas, records[r]);
          if target.Some? && target.value in g.home && g.home[target.value] in live {
            ScanFrame(s, records, r, g.home[target.value], roots);
          }
        }
        PushedMore(old(live), old(stack), was, before, live, stack);
        if live == old(live) {
          assert was == live && FrameClosed(g, s, records, r, live);
        }
        r := r + 1;
      }
      if live == old(live) {
        TableClosed(g, s, records, live);
      }
    }

    method ScanFrame(s: nat, records: seq<Record>, r: nat, ghost a: nat, ghost roots: seq<nat>)
      requires WellFormed(g) && s < |g.sections| && g.sections[s].frames && Parse(g.sections[s].data, 0) == Ok(records)
      requires r < |records| && records[r].fde && Describes(g, s, records[r], a) && a in live
      requires Tracked(g, live, stack, {}) && Needed(g, roots, live)
      modifies this
      ensures Tracked(g, live, stack, {}) && Needed(g, roots, live)
      ensures Pushed(old(live), old(stack), live, stack)
      ensures forall b :: FrameRefers(g, s, records, r, b) && Markable(g, b) ==> b in live
    {
      ghost var was, before := live, stack;
      MarkRelocations(s, records[r].start + 12, records[r].start + records[r].size);
      PushedTracked(g, was, before, live, stack, {});
      FrameNeeded(g, roots, s, a, r, records[r].start + 12, records[r].start + records[r].size, was, live);
      var c := 0;
      while c < |records|
        invariant c <= |records| && Tracked(g, live, stack, {}) && Needed(g, roots, live)
        invariant Pushed(old(live), old(stack), live, stack)
        invariant forall b :: Refers(g, s, records[r].start + 12, records[r].start + records[r].size, b) && Markable(g, b) ==> b in live
        invariant forall k, b :: 0 <= k < c && CieRefers(g, s, records, r, k, b) && Markable(g, b) ==> b in live
      {
        if !records[c].fde && records[c].start == records[r].cie {
          was, before := live, stack;
          MarkRelocations(s, records[c].start, records[c].start + records[c].size);
          PushedTracked(g, was, before, live, stack, {});
          CieCounts(g, s, records, r, c);
          FrameNeeded(g, roots, s, a, r, records[c].start, records[c].start + records[c].size, was, live);
          PushedMore(old(live), old(stack), was, before, live, stack);
        }
        c := c + 1;
      }
    }

    method MarkRoots(roots: seq<nat>)
      requires live == {} && stack == [] && forall i :: 0 <= i < |roots| ==> roots[i] < |g.sections|
      modifies this
      ensures Tracked(g, live, stack, {}) && Needed(g, roots, live) && HoldsRoots(g, roots, live)
    {
      var i := 0;
      while i < |roots|
        invariant i <= |roots| && Tracked(g, live, stack, {})
        invariant Needed(g, roots, live) && HoldsRoots(g, roots[..i], live)
      {
        ghost var was, before := live, stack;
        Mark(roots[i]);
        PushedTracked(g, was, before, live, stack, {});
        RootNeeded(g, roots, i, was, live);
        i := i + 1;
      }
      assert roots[..i] == roots;
    }

    /** One scan of all tables; nothing was pushed exactly if they ask for nothing new. */
    method ScanTables(ghost roots: seq<nat>) returns (ok: bool)
      requires WellFormed(g) && Tracked(g, live, stack, {}) && Needed(g, roots, live) && stack == []
      modifies this
      ensures Tracked(g, live, stack, {}) && Needed(g, roots, live) && old(live) <= live
      ensures stack != [] ==> live != old(live)
      ensures ok && stack == [] ==> forall s :: 0 <= s < |g.sections| ==> FramesClosed(g, s, live)
      ensures ok <==> forall s :: 0 <= s < |g.sections| && g.sections[s].frames ==> Parse(g.sections[s].data, 0).Ok?
    {
      var s := 0;
      while s < |g.sections|
        invariant s <= |g.sections| && Tracked(g, live, stack, {}) && Needed(g, roots, live)
        invariant Pushed(old(live), [], live, stack)
        invariant live == old(live) ==> forall k :: 0 <= k < s ==> FramesClosed(g, k, live)
        invariant forall k :: 0 <= k < s && g.sections[k].frames ==> Parse(g.sections[k].data, 0).Ok?
      {
        ghost var was, before := live, stack;
        if g.sections[s].frames {
          var parsed := FrameRecords(g.sections[s].data);
          if parsed.Err? {
            PushedNothing(old(live), [], live, stack);
            return false;
          }
          ScanTable(s, parsed.value, roots);
          PushedMore(old(live), [], was, before, live, stack);
          assert live == old(live) ==> was == live;
        }
        s := s + 1;
      }
      PushedNothing(old(live), [], live, stack);
      ok := true;
    }

    /**
     The marking phase. Unless some unwind table is malformed, it ends with the least set of
     sections that holds the roots and everything its members refer to, directly or through
     the frames of their code.
     */
    method Collect(roots: seq<nat>) returns (ok: bool)
      requires WellFormed(g) && live == {} && stack == [] && forall i :: 0 <= i < |roots| ==> roots[i] < |g.sections|
      modifies this
      ensures ok <==> forall s :: 0 <= s < |g.sections| && g.sections[s].frames ==> Parse(g.sections[s].data, 0).Ok?
      ensures ok ==> Closed(g, roots, live)
      ensures forall other: set<nat> :: Closed(g, roots, other) ==> live <= other
      ensures forall a :: a in live ==> Markable(g, a)
    {
      MarkRoots(roots);
      var again := true;
      ok := true;
      while again
        invariant Tracked(g, live, stack, {}) && Needed(g, roots, live) && HoldsRoots(g, roots, live)
        invariant !again ==> stack == []
        invariant !again ==> forall s :: 0 <= s < |g.sections| ==> FramesClosed(g, s, live)
        invariant !again ==> forall s :: 0 <= s < |g.sections| && g.sections[s].frames ==> Parse(g.sections[s].data, 0).Ok?
        decreases Unmarked(live, |g.sections|), again
      {
        ghost var was := live;
        Drain(roots);
        Progress(g, was, live);
        ghost var drained := live;
        ok := ScanTables(roots);
        if !ok {
          return;
        }
        Progress(g, drained, live);
        again := stack != [];
      }
    }
  }

  lemma RootNeeded(g: Graph, roots: seq<nat>, i: nat, was: set<nat>, now: set<nat>)
    requires i < |roots| && roots[i] < |g.sections| && Needed(g, roots, was) && HoldsRoots(g, roots[..i], was)
    requires now == if Markable(g, roots[i]) then was + {roots[i]} else was
    ensures Needed(g, roots, now) && HoldsRoots(g, roots[..i + 1], now)
  {
    forall other: set<nat> | Closed(g, roots, other)
      ensures now <= other
    {
      assert HoldsRoots(g, roots, other);
    }
    var done, before := roots[..i + 1], roots[..i];
    forall k | 0 <= k < |done| && Markable(g, done[k])
      ensures done[k] in now
    {
      if k < i {
        assert done[k] == before[k];
      }
    }
  }

  ghost function Unmarked(live: set<nat>, n: nat): nat {
    if n == 0 then 0 else Unmarked(live, n - 1) + (if n - 1 in live then 0 else 1)
  }

  lemma {:induction false} FewerUnmarked(was: set<nat>, now: set<nat>, n: nat)
    requires was <= now
    ensures Unmarked(now, n) <= Unmarked(was, n)
    ensures (exists b :: 0 <= b < n && b in now && b !in was) ==> Unmarked(now, n) < Unmarked(was, n)
  {
    if n > 0 {
      FewerUnmarked(was, now, n - 1);
    }
  }

  lemma Progress(g: Graph, was: set<nat>, now: set<nat>)
    requires was <= now && forall b :: b in now ==> Markable(g, b)
    ensures was == now || Unmarked(now, |g.sections|) < Unmarked(was, |g.sections|)
  {
    FewerUnmarked(was, now, |g.sections|);
    if was != now {
      var b :| b in now && b !in was;
      assert Markable(g, b);
    }
  }

  lemma TableClosed(g: Graph, s: nat, records: seq<Record>, live: set<nat>)
    requires s < |g.sections| && Parse(g.sections[s].data, 0) == Ok(records)
    requires forall k :: 0 <= k < |records| ==> FrameClosed(g, s, records, k, live)
    ensures FramesClosed(g, s, live)
  {
    forall a, b | FrameEdge(g, s, a, b) && a in live && Markable(g, b)
      ensures b in live
    {
      var r :| 0 <= r < |records| && records[r].fde && Describes(g, s, records[r], a) && FrameRefers(g, s, records, r, b);
      assert FrameClosed(g, s, records, r, live);
    }
  }

  /** What the CIE of a frame refers to counts as what the frame refers to. */
  lemma CieCounts(g: Graph, s: nat, records: seq<Record>, r: nat, c: nat)
    requires r < |records| && c < |records| && !records[c].fde && records[c].start == records[r].cie
    ensures forall b :: Refers(g, s, records[c].start, records[c].start + records[c].size, b) ==> FrameRefers(g, s, records, r, b)
  {
    forall b | Refers(g, s, records[c].start, records[c].start + records[c].size, b)
      ensures FrameRefers(g, s, records, r, b)
    {
      assert CieRefers(g, s, records, r, c, b);
    }
  }

  lemma Popped(g: Graph, live: set<nat>, stack: seq<nat>)
    requires stack != [] && Tracked(g, live, stack, {})
    ensures Tracked(g, live, stack[..|stack| - 1], {stack[|stack| - 1]})
  {
    var rest := stack[..|stack| - 1];
    forall a | a in live
      ensures a in rest || a == stack[|stack| - 1] || DirectlyClosed(g, a, live)
    {
      if a in stack {
        var i :| 0 <= i < |stack| && stack[i] == a;
        if i < |rest| {
          assert rest[i] == a;
        }
      }
    }
  }

  lemma PushedNothing(was: set<nat>, before: seq<nat>, now: set<nat>, after: seq<nat>)
    requires Pushed(was, before, now, after) && forall i :: 0 <= i < |before| ==> before[i] in was
    ensures was == now <==> after == before
  {
    if |after| > |before| {
      assert after[|before|] !in was;
    } else {
      assert after == before;
      assert forall b :: b in now ==> b in was || b in before;
    }
  }
}
