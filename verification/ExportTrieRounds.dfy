/**
 Rounds of numbering. A node's position depends on how many bytes the positions of other nodes
 take, so the linker numbers again until nothing changes. Positions only grow from round to
 round, and there is a last round that changes any.
 */
module ExportTrieRounds {
  import opened Nonlinear
  import opened Leb128
  import opened ExportTrie

  function Rounds(t: Trie, k: nat): Trie {
    if k == 0 then t else Renumber(Rounds(t, k - 1), 0)
  }

  /** As built, before any numbering. */
  predicate Unnumbered(t: Trie) {
    t.offset == 0 && forall i :: 0 <= i < |t.edges| ==> Unnumbered(t.edges[i].child)
  }

  predicate UnnumberedAll(edges: seq<Edge>) {
    forall i :: 0 <= i < |edges| ==> Unnumbered(edges[i].child)
  }

  // ----- growth -----

  /** The same trie, with no position above that in the other. */
  predicate Below(t: Trie, u: Trie)
    decreases t, 0
  {
    t.terminal == u.terminal && t.address == u.address && t.offset <= u.offset && BelowAll(t.edges, u.edges)
  }

  predicate BelowAll(a: seq<Edge>, b: seq<Edge>)
    decreases a, 1
  {
    |a| == |b| && (a == [] || (a[0].text == b[0].text && Below(a[0].child, b[0].child) && BelowAll(a[1..], b[1..])))
  }

  lemma {:induction false} UlebMonotone(a: nat, b: nat)
    requires a <= b
    ensures UlebSize(a) <= UlebSize(b)
    decreases a
  {
    hide Uleb;
    if a >= 0x80 {
      UlebMonotone(a / 0x80, b / 0x80);
    }
  }

  lemma {:induction false} LabelsGrow(a: seq<Edge>, b: seq<Edge>)
    requires BelowAll(a, b)
    ensures LabelsSize(a) <= LabelsSize(b)
  {
    hide UlebSize;
    if a != [] {
      UlebMonotone(a[0].child.offset, b[0].child.offset);
      LabelsGrow(a[1..], b[1..]);
    }
  }

  lemma {:induction false} SizeGrows(t: Trie, u: Trie)
    requires Below(t, u)
    ensures NodeSize(t) <= NodeSize(u) && Size(t) <= Size(u)
    decreases t, 0
  {
    hide UlebSize;
    LabelsGrow(t.edges, u.edges);
    SizesGrow(t.edges, u.edges);
  }

  lemma {:induction false} SizesGrow(a: seq<Edge>, b: seq<Edge>)
    requires BelowAll(a, b)
    ensures SizeAll(a) <= SizeAll(b)
    decreases a, 1
  {
    if a != [] {
      SizeGrows(a[0].child, b[0].child);
      SizesGrow(a[1..], b[1..]);
    }
  }

  /** Numbering keeps the order of two numberings. */
  lemma {:induction false} RenumberGrows(t: Trie, u: Trie, at: nat, from: nat)
    requires Below(t, u) && at <= from
    ensures Below(Renumber(t, at), Renumber(u, from))
    decreases t, 0
  {
    hide NodeSize, Size;
    SizeGrows(t, u);
    RenumberAllGrows(t.edges, u.edges, at + NodeSize(t), from + NodeSize(u));
  }

  lemma {:induction false} RenumberAllGrows(a: seq<Edge>, b: seq<Edge>, at: nat, from: nat)
    requires BelowAll(a, b) && at <= from
    ensures BelowAll(RenumberAll(a, at), RenumberAll(b, from))
    decreases a, 1
  {
    hide Size, Renumber;
    if a != [] {
      RenumberGrows(a[0].child, b[0].child, at, from);
      SizeGrows(a[0].child, b[0].child);
      RenumberAllGrows(a[1..], b[1..], at + Size(a[0].child), from + Size(b[0].child));
      RenumberFirst(a, at);
      RenumberFirst(b, from);
    }
  }

  lemma RenumberFirst(edges: seq<Edge>, at: nat)
    requires edges != []
    ensures var r := RenumberAll(edges, at);
            && r[0] == edges[0].(child := Renumber(edges[0].child, at))
            && r[1..] == RenumberAll(edges[1..], at + Size(edges[0].child))
  {
    hide Renumber, Size;
  }

  lemma {:induction false} FirstRound(t: Trie, at: nat)
    requires Unnumbered(t)
    ensures Below(t, Renumber(t, at))
    decreases t, 0
  {
    FirstRoundAll(t.edges, at + NodeSize(t));
  }

  lemma {:induction false} FirstRoundAll(edges: seq<Edge>, at: nat)
    requires UnnumberedAll(edges)
    ensures BelowAll(edges, RenumberAll(edges, at))
    decreases edges, 1
  {
    hide Size, Renumber;
    if edges != [] {
      FirstRound(edges[0].child, at);
      UnnumberedRest(edges);
      FirstRoundAll(edges[1..], at + Size(edges[0].child));
      RenumberFirst(edges, at);
    }
  }

  lemma UnnumberedRest(edges: seq<Edge>)
    requires UnnumberedAll(edges) && edges != []
    ensures UnnumberedAll(edges[1..])
  {
    assert forall i :: 0 <= i < |edges[1..]| ==> edges[1..][i] == edges[i + 1];
  }

  /** From round to round no position goes down. */
  lemma {:induction false} RoundsGrow(t: Trie, k: nat)
    requires Unnumbered(t)
    ensures Below(Rounds(t, k), Rounds(t, k + 1))
  {
    hide Below, Renumber;
    if k == 0 {
      FirstRound(t, 0);
    } else {
      RoundsGrow(t, k - 1);
      RenumberGrows(Rounds(t, k - 1), Rounds(t, k), 0, 0);
    }
  }

  // ----- what changes -----

  /** The number of edges, the bytes that numbering leaves alone, and the bytes that hold positions. */
  function Edges(t: Trie): nat
    decreases t, 0
  {
    EdgesAll(t.edges)
  }

  function EdgesAll(edges: seq<Edge>): nat
    decreases edges, 1
  {
    if edges == [] then 0 else 1 + Edges(edges[0].child) + EdgesAll(edges[1..])
  }

  function Fixed(t: Trie): nat
    decreases t, 0
  {
    UlebSize(InfoSize(t)) + InfoSize(t) + 1 + FixedAll(t.edges)
  }

  function FixedAll(edges: seq<Edge>): nat
    decreases edges, 1
  {
    if edges == [] then 0 else |edges[0].text| + 1 + Fixed(edges[0].child) + FixedAll(edges[1..])
  }

  function Widths(t: Trie): nat
    decreases t, 0
  {
    WidthsAll(t.edges)
  }

  function WidthsAll(edges: seq<Edge>): nat
    decreases edges, 1
  {
    if edges == [] then 0 else UlebSize(edges[0].child.offset) + Widths(edges[0].child) + WidthsAll(edges[1..])
  }

  lemma {:induction false} SizeParts(t: Trie)
    ensures Size(t) == Fixed(t) + Widths(t)
    decreases t, 0
  {
    hide UlebSize;
    SizeAllParts(t.edges);
  }

  lemma {:induction false} SizeAllParts(edges: seq<Edge>)
    ensures LabelsSize(edges) + SizeAll(edges) == FixedAll(edges) + WidthsAll(edges)
    decreases edges, 1
  {
    hide UlebSize;
    if edges != [] {
      SizeParts(edges[0].child);
      SizeAllParts(edges[1..]);
    }
  }

  lemma {:induction false} FixedKept(t: Trie, at: nat)
    ensures Fixed(Renumber(t, at)) == Fixed(t) && Edges(Renumber(t, at)) == Edges(t)
    decreases t, 0
  {
    hide UlebSize;
    FixedAllKept(t.edges, at + NodeSize(t));
  }

  lemma {:induction false} FixedAllKept(edges: seq<Edge>, at: nat)
    ensures FixedAll(RenumberAll(edges, at)) == FixedAll(edges) && EdgesAll(RenumberAll(edges, at)) == EdgesAll(edges)
    decreases edges, 1
  {
    hide Size, Renumber, Fixed, Edges;
    if edges != [] {
      FixedKept(edges[0].child, at);
      FixedAllKept(edges[1..], at + Size(edges[0].child));
      RenumberFirst(edges, at);
    }
  }

  /** Positions that take as many bytes in sum take as many each, and the next round puts every node at the same place. */
  lemma {:induction false} SameWidths(t: Trie, u: Trie, at: nat)
    requires Below(t, u)
    ensures Widths(t) <= Widths(u)
    ensures Widths(t) == Widths(u) ==> Size(t) == Size(u) && NodeSize(t) == NodeSize(u) && Renumber(t, at) == Renumber(u, at)
    decreases t, 0
  {
    hide UlebSize, RenumberAll, SizeAll;
    SameWidthsAll(t.edges, u.edges, at + NodeSize(t));
  }

  lemma {:induction false} SameWidthsAll(a: seq<Edge>, b: seq<Edge>, at: nat)
    requires BelowAll(a, b)
    ensures WidthsAll(a) <= WidthsAll(b)
    ensures WidthsAll(a) == WidthsAll(b) ==>
              LabelsSize(a) == LabelsSize(b) && SizeAll(a) == SizeAll(b) && RenumberAll(a, at) == RenumberAll(b, at)
    decreases a, 1
  {
    hide UlebSize, Renumber, Size, Widths;
    if a != [] {
      UlebMonotone(a[0].child.offset, b[0].child.offset);
      SameWidths(a[0].child, b[0].child, at);
      SameWidthsAll(a[1..], b[1..], at + Size(a[0].child));
    }
  }

  // ----- the last round -----

  lemma {:induction false} StaysSettled(t: Trie, r: nat, k: nat)
    requires Settled(Rounds(t, r), 0) && r <= k
    ensures Rounds(t, k) == Rounds(t, r)
    decreases k
  {
    hide Settled, Renumber;
    if r < k {
      StaysSettled(t, r, k - 1);
      SettledFixed(Rounds(t, r), 0);
    }
  }

  /** As long as the numbering has not settled, each round adds a byte. */
  lemma {:induction false} EachRoundAdds(t: Trie, k: nat)
    requires Unnumbered(t)
    ensures Settled(Rounds(t, k), 0) || Widths(Rounds(t, k)) >= Edges(t) + k
  {
    hide Settled, Renumber, Widths, Edges, Unnumbered, Below;
    if k == 0 {
      FirstWidths(t);
    } else {
      EachRoundAdds(t, k - 1);
      var was, now := Rounds(t, k - 1), Rounds(t, k);
      RoundsGrow(t, k - 1);
      SameWidths(was, now, 0);
      SettledFixed(was, 0);
      SettledFixed(now, 0);
    }
  }

  lemma {:induction false} FirstWidths(t: Trie)
    requires Unnumbered(t)
    ensures Widths(t) == Edges(t)
    decreases t, 0
  {
    FirstWidthsAll(t.edges);
  }

  lemma {:induction false} FirstWidthsAll(edges: seq<Edge>)
    requires UnnumberedAll(edges)
    ensures WidthsAll(edges) == EdgesAll(edges)
    decreases edges, 1
  {
    if edges != [] {
      FirstWidths(edges[0].child);
      UnnumberedRest(edges);
      FirstWidthsAll(edges[1..]);
    }
  }

  /** Numbered within `limit` bytes, no position takes more bytes than `limit` itself. */
  lemma {:induction false} WidthsBounded(t: Trie, at: nat, limit: nat)
    requires at + Size(t) <= limit
    ensures Widths(Renumber(t, at)) <= Edges(t) * UlebSize(limit) && Renumber(t, at).offset <= limit
    decreases t, 0
  {
    hide UlebSize;
    WidthsAllBounded(t.edges, at + NodeSize(t), limit);
  }

  lemma {:induction false} WidthsAllBounded(edges: seq<Edge>, at: nat, limit: nat)
    requires at + SizeAll(edges) <= limit
    ensures WidthsAll(RenumberAll(edges, at)) <= EdgesAll(edges) * UlebSize(limit)
    decreases edges, 1
  {
    hide UlebSize, Size, Renumber, Widths, Edges;
    if edges != [] {
      var child, w := edges[0].child, UlebSize(limit);
      WidthsBounded(child, at, limit);
      WidthsAllBounded(edges[1..], at + Size(child), limit);
      RenumberFirst(edges, at);
      UlebMonotone(Renumber(child, at).offset, limit);
      assert (1 + Edges(child) + EdgesAll(edges[1..])) * w == w + Edges(child) * w + EdgesAll(edges[1..]) * w;
    }
  }

  /** In no round do positions take more than `w` bytes each, if `w` bytes suffice for the size that gives. */
  lemma {:induction false} RoundsBounded(t: Trie, w: nat, k: nat)
    requires Unnumbered(t) && UlebSize(Fixed(t) + Edges(t) * w) <= w
    ensures Widths(Rounds(t, k)) <= Edges(t) * w && Fixed(Rounds(t, k)) == Fixed(t) && Edges(Rounds(t, k)) == Edges(t)
  {
    hide UlebSize, Renumber, Widths, Edges, Fixed, Unnumbered, Size;
    if k == 0 {
      FirstWidths(t);
      Grows(Edges(t), w);
    } else {
      RoundsBounded(t, w, k - 1);
      var was, limit := Rounds(t, k - 1), Fixed(t) + Edges(t) * w;
      SizeParts(was);
      FixedKept(was, 0);
      WidthsBounded(was, 0, limit);
      Monotone(Edges(t), UlebSize(limit), Edges(t), w);
    }
  }

  /** With positions of at most `w` bytes the numbering settles within `w - 1` rounds for each edge. */
  lemma SettlesWithin(t: Trie, w: nat, k: nat)
    requires Unnumbered(t) && UlebSize(Fixed(t) + Edges(t) * w) <= w && k > Edges(t) * (w - 1)
    ensures Settled(Rounds(t, k), 0)
  {
    hide UlebSize, Settled, Rounds, Widths, Edges, Fixed, Unnumbered;
    EachRoundAdds(t, k);
    RoundsBounded(t, w, k);
    OneLess(Edges(t), w);
  }

  /** Every numbering settles: so many bytes always suffice. */
  lemma Settles(t: Trie, k: nat)
    requires Unnumbered(t) && k > Edges(t) * (Fixed(t) + Edges(t))
    ensures Settled(Rounds(t, k), 0)
  {
    hide UlebSize, Settled, Rounds, Edges, Unnumbered, Fixed;
    var n, m := Edges(t), Fixed(t) + Edges(t);
    NotEmpty(t);
    WideEnough(Fixed(t), n, m);
    OneLess(n, m);
    SettlesWithin(t, m, k);
  }

  lemma NotEmpty(t: Trie)
    ensures Fixed(t) > 0
  {
  }

  lemma OneLess(n: nat, m: nat)
    requires m > 0
    ensures n * (m - 1) == n * m - n
  {
  }

  lemma WideEnough(f: nat, n: nat, m: nat)
    requires m == f + n && m > 0
    ensures UlebSize(f + n * m) <= m
  {
    hide UlebSize;
    Monotone(n, m, m, m);
    CapLarge(m);
    UlebFits(f + n * m, m);
  }

  /** The numbers that fit so many bytes. */
  function Cap(k: nat): nat {
    if k == 0 then 1 else 0x80 * Cap(k - 1)
  }

  lemma {:induction false} UlebFits(n: nat, k: nat)
    requires 0 < k && n < Cap(k)
    ensures UlebSize(n) <= k
  {
    hide Uleb;
    if n >= 0x80 {
      UlebFits(n / 0x80, k - 1);
    }
  }

  lemma {:induction false} CapLarge(m: nat)
    ensures m + m * m < Cap(m)
  {
    if m > 0 {
      CapLarge(m - 1);
      var p := m - 1;
      assert m * m == p * p + 2 * p + 1;
      assert p * p >= 0;
    }
  }
}
