/** The interval index that answers whether a name is a local at a position of the source text. */
module ScopeIndex {

  type Name = seq<nat>

  datatype Binding = Binding(name: Name, start: nat, end: nat, prefixEnd: nat)

  /** Byte-wise comparison, where a prefix comes first: negative, zero or positive. */
  function Compare(a: Name, b: Name): int {
    if a == [] then (if b == [] then 0 else -1)
    else if b == [] then 1
    else if a[0] < b[0] then -1
    else if a[0] > b[0] then 1
    else Compare(a[1..], b[1..])
  }

  lemma {:induction false} CompareZero(a: Name, b: Name)
    ensures Compare(a, b) == 0 <==> a == b
    ensures Compare(a, b) < 0 <==> Compare(b, a) > 0
  {
    if a != [] && b != [] {
      CompareZero(a[1..], b[1..]);
      assert a == [a[0]] + a[1..] && b == [b[0]] + b[1..];
    }
  }

  lemma {:induction false} CompareTransitive(a: Name, b: Name, c: Name)
    requires Compare(a, b) <= 0 && Compare(b, c) <= 0
    ensures Compare(a, c) <= 0
    ensures Compare(a, b) < 0 || Compare(b, c) < 0 ==> Compare(a, c) < 0
  {
    if a != [] && b != [] && c != [] && a[0] == b[0] == c[0] {
      CompareTransitive(a[1..], b[1..], c[1..]);
    }
  }

  /** The order of `dyn_scope_compare`: by name, then by start. */
  predicate InOrder(a: Binding, b: Binding) {
    Compare(a.name, b.name) < 0 || (Compare(a.name, b.name) == 0 && a.start <= b.start)
  }

  predicate Sorted(items: seq<Binding>) {
    forall i, j :: 0 <= i < j < |items| ==> InOrder(items[i], items[j])
  }

  /** A recorded binding of the name is visible at the byte. */
  predicate Visible(items: seq<Binding>, name: Name, byte: nat) {
    exists i :: 0 <= i < |items| && items[i].name == name && items[i].start <= byte < items[i].end
  }

  /** Of a binding and the same-named ones before it, the last end. */
  predicate Covers(items: seq<Binding>, i: nat)
    requires i < |items|
  {
    && (exists j :: 0 <= j <= i && items[j].name == items[i].name && items[j].end == items[i].prefixEnd)
    && (forall j :: 0 <= j <= i && items[j].name == items[i].name ==> items[j].end <= items[i].prefixEnd)
  }

  /** Bindings that start at or before a use, in the index's order. */
  predicate Before(b: Binding, name: Name, byte: nat) {
    Compare(b.name, name) < 0 || (Compare(b.name, name) == 0 && b.start <= byte)
  }

  lemma BeforeDownward(a: Binding, b: Binding, name: Name, byte: nat)
    requires InOrder(a, b) && Before(b, name, byte)
    ensures Before(a, name, byte)
  {
    CompareTransitive(a.name, b.name, name);
    CompareZero(a.name, b.name);
  }

  /** Between two bindings of one name there are only bindings of that name. */
  lemma SameNameBetween(items: seq<Binding>, i: nat, k: nat, j: nat)
    requires Sorted(items) && i <= k <= j < |items| && items[i].name == items[j].name
    ensures items[k].name == items[i].name
  {
    if i < k < j {
      var a, b, c := items[i], items[k], items[j];
      assert InOrder(a, b) && InOrder(b, c);
      CompareZero(a.name, b.name);
      CompareZero(b.name, c.name);
    }
  }

  class Index {
    var items: seq<Binding>
    /** The intervals recorded so far, in no particular order. */
    ghost var recorded: set<(Name, nat, nat)>

    ghost predicate Valid()
      reads this
    {
      Records(items, recorded) && forall i :: 0 <= i < |items| ==> items[i].prefixEnd == items[i].end
    }

    /** Ready for questions: sorted, every prefix end worked out. */
    ghost predicate Finished()
      reads this
    {
      Records(items, recorded) && Sorted(items) && forall i :: 0 <= i < |items| ==> Covers(items, i)
    }

    constructor ()
      ensures Valid() && items == [] && recorded == {}
    {
      items, recorded := [], {};
    }

    /** Records an interval; an empty one is left out. */
    method Add(name: Name, start: nat, end: nat)
      requires Valid()
      modifies this
      ensures Valid()
      ensures recorded == if start < end then old(recorded) + {(name, start, end)} else old(recorded)
    {
      if start < end {
        RecordsAppend(items, Binding(name, start, end, end), recorded);
        items := items + [Binding(name, start, end, end)];
        recorded := recorded + {(name, start, end)};
      }
    }

    /** Takes the library's sorted arrangement of the items, whichever it is, and propagates ends. */
    method Finish(sorted: seq<Binding>)
      requires Valid() && Sorted(sorted) && multiset(sorted) == multiset(items)
      modifies this
      ensures Finished() && recorded == old(recorded)
    {
      hide Covers, Records, InOrder;
      RecordsSorted(items, sorted, recorded);
      items := sorted;
      FirstCovers(sorted);
      var i := 1;
      while i < |items|
        invariant recorded == old(recorded) && |items| == |sorted| && (items == [] || 1 <= i <= |items|)
        invariant forall k :: 0 <= k < |items| ==> items[k] == sorted[k].(prefixEnd := items[k].prefixEnd)
        invariant forall k :: i <= k < |items| ==> items[k] == sorted[k]
        invariant forall k :: 0 <= k < i && k < |items| ==> Covers(items, k)
      {
        ghost var was := items;
        StaysSorted(sorted, items);
        if Compare(items[i - 1].name, items[i].name) == 0 && items[i - 1].prefixEnd > items[i].prefixEnd {
          items := items[i := items[i].(prefixEnd := items[i - 1].prefixEnd)];
        }
        CoversNext(was, items, i);
        i := i + 1;
      }
      StaysSorted(sorted, items);
      RecordsKept(sorted, items, recorded);
    }

    /** Binary search for the last binding that starts at or before the byte. */
    method LocalAt(byte: nat, name: Name) returns (r: bool)
      requires Finished()
      ensures r <==> exists start, end :: (name, start, end) in recorded && start <= byte < end
    {
      var first, end := 0, |items|;
      while first < end
        invariant first <= end <= |items|
        invariant forall i :: 0 <= i < first ==> Before(items[i], name, byte)
        invariant forall i :: end <= i < |items| ==> !Before(items[i], name, byte)
      {
        var middle := first + (end - first) / 2;
        if Before(items[middle], name, byte) {
          forall i | 0 <= i < middle
            ensures Before(items[i], name, byte)
          {
            BeforeDownward(items[i], items[middle], name, byte);
          }
          first := middle + 1;
        } else {
          forall i | middle < i < |items|
            ensures !Before(items[i], name, byte)
          {
            if Before(items[i], name, byte) {
              BeforeDownward(items[middle], items[i], name, byte);
            }
          }
          end := middle;
        }
      }
      r := first > 0 && Compare(items[first - 1].name, name) == 0 && byte < items[first - 1].prefixEnd;
      Answer(items, first, name, byte);
      VisibleRecorded(items, recorded, name, byte);
    }
  }

  /** What the search found decides visibility. */
  lemma Answer(items: seq<Binding>, first: nat, name: Name, byte: nat)
    requires Sorted(items) && first <= |items| && forall i :: 0 <= i < |items| ==> Covers(items, i)
    requires forall i :: 0 <= i < |items| ==> (Before(items[i], name, byte) <==> i < first)
    ensures Visible(items, name, byte) <==>
            first > 0 && Compare(items[first - 1].name, name) == 0 && byte < items[first - 1].prefixEnd
  {
    CompareZero(name, name);
    if Visible(items, name, byte) {
      var i :| 0 <= i < |items| && items[i].name == name && items[i].start <= byte < items[i].end;
      assert Before(items[i], name, byte);
      var last := items[first - 1];
      assert Before(last, name, byte) && Covers(items, first - 1);
      if i < first - 1 {
        assert InOrder(items[i], last);
        CompareZero(items[i].name, last.name);
      }
      CompareZero(last.name, name);
    }
    if first > 0 && Compare(items[first - 1].name, name) == 0 && byte < items[first - 1].prefixEnd {
      CompareZero(items[first - 1].name, name);
      assert Covers(items, first - 1);
      var j :| 0 <= j <= first - 1 && items[j].name == items[first - 1].name && items[j].end == items[first - 1].prefixEnd;
      assert Before(items[j], name, byte);
    }
  }

  lemma StaysSorted(sorted: seq<Binding>, items: seq<Binding>)
    requires Sorted(sorted) && |items| == |sorted|
    requires forall k :: 0 <= k < |items| ==> items[k] == sorted[k].(prefixEnd := items[k].prefixEnd)
    ensures Sorted(items)
  {
    forall i, j | 0 <= i < j < |items|
      ensures InOrder(items[i], items[j])
    {
      assert InOrder(sorted[i], sorted[j]);
    }
  }

  lemma FirstCovers(items: seq<Binding>)
    requires forall i :: 0 <= i < |items| ==> items[i].prefixEnd == items[i].end
    ensures items != [] ==> Covers(items, 0)
  {
    if items != [] {
      assert items[0].end == items[0].prefixEnd;
    }
  }

  /** One step of the propagation. */
  lemma CoversNext(was: seq<Binding>, now: seq<Binding>, i: nat)
    requires Sorted(was) && 1 <= i < |was| && was[i].prefixEnd == was[i].end
    requires forall k :: 0 <= k < i ==> Covers(was, k)
    requires now == if Compare(was[i - 1].name, was[i].name) == 0 && was[i - 1].prefixEnd > was[i].prefixEnd
                    then was[i := was[i].(prefixEnd := was[i - 1].prefixEnd)] else was
    ensures forall k :: 0 <= k <= i ==> Covers(now, k)
  {
    forall k | 0 <= k < i
      ensures Covers(now, k)
    {
      assert Covers(was, k);
      var j :| 0 <= j <= k && was[j].name == was[k].name && was[j].end == was[k].prefixEnd;
      assert now[j] == was[j];
    }
    CompareZero(was[i - 1].name, was[i].name);
    assert Covers(was, i - 1);
    forall j | 0 <= j <= i && now[j].name == now[i].name
      ensures now[j].end <= now[i].prefixEnd
    {
      if j < i {
        SameNameBetween(was, j, i - 1, i);
      }
    }
    if was[i - 1].name == was[i].name && was[i - 1].prefixEnd > was[i].end {
      var j :| 0 <= j <= i - 1 && was[j].name == was[i - 1].name && was[j].end == was[i - 1].prefixEnd;
      assert now[j].name == now[i].name && now[j].end == now[i].prefixEnd;
    } else {
      assert now[i].end == now[i].prefixEnd;
    }
  }

  // ----- what is recorded -----

  function Interval(b: Binding): (Name, nat, nat) {
    (b.name, b.start, b.end)
  }

  ghost predicate Records(items: seq<Binding>, recorded: set<(Name, nat, nat)>) {
    && (forall i :: 0 <= i < |items| ==> Interval(items[i]) in recorded)
    && (forall x :: x in recorded ==> exists i :: 0 <= i < |items| && Interval(items[i]) == x)
  }

  lemma RecordsAppend(items: seq<Binding>, b: Binding, recorded: set<(Name, nat, nat)>)
    requires Records(items, recorded)
    ensures Records(items + [b], recorded + {Interval(b)})
  {
    forall x | x in recorded + {Interval(b)}
      ensures exists i :: 0 <= i < |items + [b]| && Interval((items + [b])[i]) == x
    {
      if x in recorded {
        var i :| 0 <= i < |items| && Interval(items[i]) == x;
        assert (items + [b])[i] == items[i];
      } else {
        assert (items + [b])[|items|] == b;
      }
    }
  }

  /** Sorting keeps what is recorded. */
  lemma RecordsSorted(items: seq<Binding>, sorted: seq<Binding>, recorded: set<(Name, nat, nat)>)
    requires Records(items, recorded) && multiset(sorted) == multiset(items)
    requires forall i :: 0 <= i < |items| ==> items[i].prefixEnd == items[i].end
    ensures Records(sorted, recorded) && forall i :: 0 <= i < |sorted| ==> sorted[i].prefixEnd == sorted[i].end
  {
    forall i | 0 <= i < |sorted|
      ensures Interval(sorted[i]) in recorded && sorted[i].prefixEnd == sorted[i].end
    {
      assert sorted[i] in multiset(sorted);
      assert sorted[i] in items;
    }
    forall x | x in recorded
      ensures exists i :: 0 <= i < |sorted| && Interval(sorted[i]) == x
    {
      var i :| 0 <= i < |items| && Interval(items[i]) == x;
      assert items[i] in multiset(items);
      assert items[i] in sorted;
    }
  }

  lemma RecordsKept(sorted: seq<Binding>, items: seq<Binding>, recorded: set<(Name, nat, nat)>)
    requires Records(sorted, recorded) && |items| == |sorted|
    requires forall k :: 0 <= k < |items| ==> items[k] == sorted[k].(prefixEnd := items[k].prefixEnd)
    ensures Records(items, recorded)
  {
    forall i | 0 <= i < |items|
      ensures Interval(items[i]) == Interval(sorted[i])
    {
    }
    forall x | x in recorded
      ensures exists i :: 0 <= i < |items| && Interval(items[i]) == x
    {
      var i :| 0 <= i < |sorted| && Interval(sorted[i]) == x;
      assert Interval(items[i]) == x;
    }
  }

  lemma VisibleRecorded(items: seq<Binding>, recorded: set<(Name, nat, nat)>, name: Name, byte: nat)
    requires Records(items, recorded)
    ensures Visible(items, name, byte) <==> exists start, end :: (name, start, end) in recorded && start <= byte < end
  {
    if Visible(items, name, byte) {
      var i :| 0 <= i < |items| && items[i].name == name && items[i].start <= byte < items[i].end;
      assert Interval(items[i]) in recorded;
    }
    if exists start, end :: (name, start, end) in recorded && start <= byte < end {
      var start, end :| (name, start, end) in recorded && start <= byte < end;
      var i :| 0 <= i < |items| && Interval(items[i]) == (name, start, end);
    }
  }
}
