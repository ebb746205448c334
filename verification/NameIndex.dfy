/**
 The index of declaration names: nothing below 32 names, then a hash table with chains that is
 extended on demand and rebuilt when half full. Names are only ever appended.
 */
module NameIndex {

  datatype Span = Span(text: seq<nat>, start: nat)

  datatype SourceMap = SourceMap(start: nat, end: nat, path: seq<nat>)

  datatype Source = Source(maps: seq<SourceMap>, path: seq<nat>)

  // ----- which declaration a use may see -----

  /** The path of the file a position belongs to, by binary search among maps `first` to `end`. */
  function PathAt(s: Source, offset: nat, first: nat, end: nat): seq<nat>
    requires first <= end <= |s.maps|
    decreases end - first
  {
    if first >= end then s.path
    else
      var middle := first + (end - first) / 2;
      var m := s.maps[middle];
      if offset < m.start then PathAt(s, offset, first, middle)
      else if offset > m.end then PathAt(s, offset, middle + 1, end)
      else m.path
  }

  const Slash: nat := 0x2f
  const ModulePrefix: seq<nat> := [0x64, 0x79, 0x6e, 0x5f, 0x6d]

  /** The directory part: what comes before the last slash. */
  function Directory(path: seq<nat>): seq<nat> {
    if path == [] then []
    else if path[|path| - 1] == Slash then path[..|path| - 1]
    else Directory(path[..|path| - 1])
  }

  /** Unqualified names see declarations of their own directory; qualified and generated ones all of equal text. */
  predicate ModuleEqual(use: Span, declaration: Span, s: Source) {
    && use.text == declaration.text
    && (|| (s.maps != [] && declaration.start < s.maps[0].start)
        || ModulePrefix <= use.text
        || Directory(PathAt(s, use.start, 0, |s.maps|)) == Directory(PathAt(s, declaration.start, 0, |s.maps|)))
  }

  predicate Matches(use: Span, declaration: Span, s: Source, module_: bool) {
    if module_ then ModuleEqual(use, declaration, s) else use.text == declaration.text
  }

  /** The lowest matching declaration, or the number of names. */
  function FirstMatch(names: seq<Span>, use: Span, s: Source, module_: bool): (k: nat)
    ensures k <= |names|
    ensures k < |names| ==> Matches(use, names[k], s, module_)
    ensures forall i :: 0 <= i < k ==> !Matches(use, names[i], s, module_)
  {
    if names == [] then 0
    else if Matches(use, names[0], s, module_) then 0
    else 1 + FirstMatch(names[1..], use, s, module_)
  }

  lemma FirstMatchUnique(names: seq<Span>, use: Span, s: Source, module_: bool, k: nat)
    requires k <= |names| && (k < |names| ==> Matches(use, names[k], s, module_))
    requires forall i :: 0 <= i < k ==> !Matches(use, names[i], s, module_)
    ensures k == FirstMatch(names, use, s, module_)
  {
  }

  // ----- chains -----

  function Bucket(hash: seq<nat> -> nat, capacity: nat, text: seq<nat>): nat
    requires capacity > 0
  {
    hash(text) % capacity
  }

  /** One more than the last of the first `n` names in a bucket, or zero. */
  function Last(names: seq<Span>, hash: seq<nat> -> nat, capacity: nat, b: nat, n: nat): (e: nat)
    requires capacity > 0 && n <= |names|
    ensures e <= n
    ensures e > 0 ==> Bucket(hash, capacity, names[e - 1].text) == b
    ensures forall i :: e <= i < n ==> Bucket(hash, capacity, names[i].text) != b
  {
    if n == 0 then 0
    else if Bucket(hash, capacity, names[n - 1].text) == b then n
    else Last(names, hash, capacity, b, n - 1)
  }

  /** The table reaches exactly the first `n` names: each bucket leads to its last name, each name to the one before it. */
  ghost predicate Chained(names: seq<Span>, hash: seq<nat> -> nat, capacity: nat, buckets: seq<nat>, next: seq<nat>, n: nat) {
    && n <= |names| && n <= |next| && |buckets| == capacity > 0
    && (forall b :: 0 <= b < capacity ==> buckets[b] == Last(names, hash, capacity, b, n))
    && (forall i :: 0 <= i < n ==> next[i] == Last(names, hash, capacity, Bucket(hash, capacity, names[i].text), i))
  }

  lemma {:induction false} LastPrefix(names: seq<Span>, more: seq<Span>, hash: seq<nat> -> nat, capacity: nat, b: nat, n: nat)
    requires capacity > 0 && n <= |names| && names <= more
    ensures Last(more, hash, capacity, b, n) == Last(names, hash, capacity, b, n)
  {
    if n > 0 {
      LastPrefix(names, more, hash, capacity, b, n - 1);
    }
  }

  lemma ChainedPrefix(names: seq<Span>, more: seq<Span>, hash: seq<nat> -> nat, capacity: nat, buckets: seq<nat>, next: seq<nat>, n: nat)
    requires Chained(names, hash, capacity, buckets, next, n) && names <= more
    ensures Chained(more, hash, capacity, buckets, next, n)
  {
    forall b | 0 <= b < capacity
      ensures buckets[b] == Last(more, hash, capacity, b, n)
    {
      LastPrefix(names, more, hash, capacity, b, n);
    }
    forall i | 0 <= i < n
      ensures next[i] == Last(more, hash, capacity, Bucket(hash, capacity, more[i].text), i)
    {
      LastPrefix(names, more, hash, capacity, Bucket(hash, capacity, names[i].text), i);
    }
  }

  lemma ChainSize(names: seq<Span>, hash: seq<nat> -> nat, capacity: nat, buckets: seq<nat>, next: seq<nat>, n: nat)
    requires Chained(names, hash, capacity, buckets, next, n)
    ensures |buckets| == capacity > 0 && n <= |names| && n <= |next|
    ensures forall b :: 0 <= b < capacity ==> buckets[b] == Last(names, hash, capacity, b, n)
    ensures forall text: seq<nat> :: Bucket(hash, capacity, text) < capacity
  {
  }

  /** One more name in front of its chain. */
  lemma ChainStep(names: seq<Span>, hash: seq<nat> -> nat, capacity: nat, buckets: seq<nat>, next: seq<nat>, i: nat)
    requires Chained(names, hash, capacity, buckets, next, i) && i < |names| && i < |next|
    ensures var b := Bucket(hash, capacity, names[i].text);
            b < capacity && Chained(names, hash, capacity, buckets[b := i + 1], next[i := buckets[b]], i + 1)
  {
    hide Bucket;
    ChainSize(names, hash, capacity, buckets, next, i);
  }

  /** Below `n` the chain goes on with the last name of the bucket; the names it passes do not match. */
  lemma LinkFollowed(names: seq<Span>, hash: seq<nat> -> nat, capacity: nat, buckets: seq<nat>, next: seq<nat>, count: nat,
                     use: Span, s: Source, module_: bool, n: nat)
    requires Chained(names, hash, capacity, buckets, next, count) && count == |names| && n <= |names|
    requires Last(names, hash, capacity, Bucket(hash, capacity, use.text), n) > 0
    ensures var b := Bucket(hash, capacity, use.text);
            var e := Last(names, hash, capacity, b, n);
            && e <= |next| && next[e - 1] == Last(names, hash, capacity, b, e - 1)
            && forall i :: e <= i < n ==> !Matches(use, names[i], s, module_)
  {
    hide Bucket;
  }

  lemma NoneBelow(names: seq<Span>, hash: seq<nat> -> nat, capacity: nat, use: Span, s: Source, module_: bool, n: nat)
    requires capacity > 0 && n <= |names| && Last(names, hash, capacity, Bucket(hash, capacity, use.text), n) == 0
    ensures forall i :: 0 <= i < n ==> !Matches(use, names[i], s, module_)
  {
  }

  class Index {
    const hash: seq<nat> -> nat
    var buckets: seq<nat>
    var next: seq<nat>
    var count: nat
    var capacity: nat
    /** The names indexed so far. */
    ghost var names: seq<Span>

    ghost predicate Valid()
      reads this
    {
      && capacity / 2 == |next| && count == |names|
      && (if capacity == 0 then count == 0 else Chained(names, hash, capacity, buckets, next, count))
    }

    constructor (hash: seq<nat> -> nat)
      ensures Valid() && this.hash == hash && names == []
    {
      this.hash, buckets, next, count, capacity, names := hash, [], [], 0, 0, [];
    }

    /** Makes room for twice as many names as there are, and forgets the chains, if the table is too small. */
    method Reserve(wanted: nat)
      requires Valid() && wanted > 0
      modifies this
      ensures Valid() && capacity / 2 >= wanted && names <= old(names)
    {
      if wanted > capacity / 2 {
        var c := 64;
        while c / 2 < wanted
          invariant c >= 64
          decreases wanted - c / 2
        {
          c := c * 2;
        }
        buckets, next, count, capacity, names := seq(c, _ => 0), seq(c / 2, _ => 0), 0, c, [];
      }
    }

    /** Puts the names that were appended since the last search in front of their chains. */
    method Extend(all: seq<Span>)
      requires Valid() && names <= all && capacity > 0 && capacity / 2 >= |all|
      modifies this
      ensures Valid() && names == all && capacity == old(capacity)
    {
      hide Chained, Bucket;
      ChainedPrefix(names, all, hash, capacity, buckets, next, count);
      ChainSize(all, hash, capacity, buckets, next, count);
      var i := count;
      while i < |all|
        invariant i <= |all| && capacity == old(capacity) && |next| == capacity / 2
        invariant |buckets| == capacity && Chained(all, hash, capacity, buckets, next, i)
      {
        var b := Bucket(hash, capacity, all[i].text);
        ChainStep(all, hash, capacity, buckets, next, i);
        next := next[i := buckets[b]];
        buckets := buckets[b := i + 1];
        i := i + 1;
      }
      count := |all|;
      names := all;
    }

    /** Walks the chain of the use's bucket; every entry is below the one before it. */
    method Search(all: seq<Span>, use: Span, s: Source, module_: bool) returns (found: nat)
      requires Valid() && names == all && capacity > 0
      ensures found == FirstMatch(all, use, s, module_)
    {
      hide Chained, Bucket, Last, Matches;
      ChainSize(all, hash, capacity, buckets, next, count);
      ghost var b := Bucket(hash, capacity, use.text);
      ghost var n: nat := |all|;
      found := |all|;
      var entry := buckets[Bucket(hash, capacity, use.text)];
      while entry != 0
        invariant n <= |all| && entry == Last(all, hash, capacity, b, n)
        invariant n <= found <= |all| && (found < |all| ==> Matches(use, all[found], s, module_))
        invariant forall i :: n <= i < found ==> !Matches(use, all[i], s, module_)
        decreases entry
      {
        LinkFollowed(all, hash, capacity, buckets, next, count, use, s, module_, n);
        n := entry - 1;
        if Matches(use, all[entry - 1], s, module_) && entry - 1 < found {
          found := entry - 1;
        }
        entry := next[entry - 1];
      }
      NoneBelow(all, hash, capacity, use, s, module_, n);
      FirstMatchUnique(all, use, s, module_, found);
    }

    /** The search: below 32 names, or without memory for a table, by looking at all of them. */
    method Find(all: seq<Span>, use: Span, s: Source, module_: bool, failed: bool) returns (found: nat)
      requires Valid() && names <= all
      modifies this
      ensures Valid() && names <= all
      ensures found == FirstMatch(all, use, s, module_)
    {
      if |all| >= 32 && !failed {
        Reserve(|all|);
        Extend(all);
        found := Search(all, use, s, module_);
        return;
      }
      found := 0;
      while found < |all| && !Matches(use, all[found], s, module_)
        invariant found <= |all| && forall i :: 0 <= i < found ==> !Matches(use, all[i], s, module_)
      {
        found := found + 1;
      }
      FirstMatchUnique(all, use, s, module_, found);
    }
  }
}
