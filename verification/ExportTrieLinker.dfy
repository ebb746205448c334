/** The linker's loops over export tries: building from sorted names, numbering, writing and reading. */
module ExportTrieLinker {
  import opened Leb128
  import opened ExportTrie
  import opened ExportTrieRounds

  // ----- sorted names -----

  /** The order of `strcmp`. */
  predicate Before(a: Name, b: Name) {
    b != [] && (a == [] || a[0] < b[0] || (a[0] == b[0] && Before(a[1..], b[1..])))
  }

  /** What C finds at an index: the byte, or the terminating zero. */
  function CharAt(name: Name, i: nat): Byte {
    if i < |name| then name[i] else 0
  }

  predicate Listed(exports: seq<Export>) {
    && (forall i :: 0 <= i < |exports| ==> ZeroFree(exports[i].name))
    && (forall i, j :: 0 <= i < j < |exports| ==> Before(exports[i].name, exports[j].name))
  }

  /** The exports from `first` on share the first `depth` bytes of their names. */
  predicate Shared(exports: seq<Export>, first: nat, last: nat, depth: nat) {
    && first < last <= |exports| && depth <= |exports[first].name|
    && forall k :: first <= k < last ==> depth <= |exports[k].name| && exports[k].name[..depth] == exports[first].name[..depth]
  }

  /** Behind a common prefix, sorted names continue in order, and only the first may end. */
  lemma {:induction false} CharOrder(a: Name, b: Name, depth: nat)
    requires depth <= |a| && depth <= |b| && a[..depth] == b[..depth] && Before(a, b)
    ensures depth < |b| && CharAt(a, depth) <= CharAt(b, depth)
  {
    if depth > 0 {
      assert a[0] == a[..depth][0] == b[..depth][0] == b[0];
      assert a[1..][..depth - 1] == a[..depth][1..] == b[..depth][1..] == b[1..][..depth - 1];
      CharOrder(a[1..], b[1..], depth - 1);
    }
  }

  lemma SharedOrder(exports: seq<Export>, first: nat, last: nat, depth: nat, i: nat, j: nat)
    requires Listed(exports) && Shared(exports, first, last, depth) && first <= i < j < last
    ensures depth < |exports[j].name| && CharAt(exports[i].name, depth) <= CharAt(exports[j].name, depth)
    ensures CharAt(exports[j].name, depth) != 0
  {
    CharOrder(exports[i].name, exports[j].name, depth);
  }

  // ----- building -----

  /** The end of the run of names that continue like the one at `i`. */
  method GroupEnd(exports: seq<Export>, i: nat, last: nat, depth: nat) returns (j: nat)
    requires i < last <= |exports|
    ensures i < j <= last
    ensures forall k :: i <= k < j ==> CharAt(exports[k].name, depth) == CharAt(exports[i].name, depth)
    ensures j < last ==> CharAt(exports[j].name, depth) != CharAt(exports[i].name, depth)
  {
    j := i + 1;
    while j < last && CharAt(exports[j].name, depth) == CharAt(exports[i].name, depth)
      invariant i < j <= last
      invariant forall k :: i <= k < j ==> CharAt(exports[k].name, depth) == CharAt(exports[i].name, depth)
    {
      j := j + 1;
    }
  }

  /** How far two names agree, looking no further than `common`. */
  method Agreement(a: Name, b: Name, depth: nat, common: nat) returns (n: nat)
    requires depth <= common <= |a| && depth <= |b| && a[..depth] == b[..depth] && ZeroFree(a)
    ensures depth <= n <= common && n <= |b| && a[..n] == b[..n]
    ensures depth < common && CharAt(a, depth) == CharAt(b, depth) ==> depth < n
    ensures n < common ==> CharAt(a, n) != CharAt(b, n)
  {
    n := depth;
    while n < common && CharAt(b, n) == CharAt(a, n)
      invariant depth <= n <= common && n <= |b| && a[..n] == b[..n]
      decreases common - n
    {
      assert a[n] != 0;
      n := n + 1;
    }
  }

  method CommonPrefix(exports: seq<Export>, i: nat, j: nat, depth: nat) returns (common: nat)
    requires Listed(exports) && Shared(exports, i, j, depth) && depth < |exports[i].name|
    requires forall k :: i <= k < j ==> CharAt(exports[k].name, depth) == CharAt(exports[i].name, depth)
    ensures depth < common <= |exports[i].name| && Shared(exports, i, j, common)
    ensures forall n :: n > common ==> !Shared(exports, i, j, n)
  {
    hide Differs, Before;
    common := |exports[i].name|;
    var k := i + 1;
    while k < j
      invariant i < k <= j && depth < common <= |exports[i].name| && Shared(exports, i, k, common)
      invariant common < |exports[i].name| ==> Differs(exports, i, k, common)
    {
      var n := Agreement(exports[i].name, exports[k].name, depth, common);
      SharedStep(exports, i, k, common, n);
      common, k := n, k + 1;
    }
    if common < |exports[i].name| {
      NoLonger(exports, i, j, common);
    }
  }

  /** One more name, which shares `n` bytes with the first. */
  lemma SharedStep(exports: seq<Export>, i: nat, k: nat, common: nat, n: nat)
    requires i < k < |exports| && Shared(exports, i, k, common) && n <= common && n <= |exports[k].name|
    requires exports[k].name[..n] == exports[i].name[..n] && (n < common ==> CharAt(exports[i].name, n) != CharAt(exports[k].name, n))
    requires common < |exports[i].name| ==> Differs(exports, i, k, common)
    ensures Shared(exports, i, k + 1, n) && (n < |exports[i].name| ==> Differs(exports, i, k + 1, n))
  {
    forall m | i <= m < k
      ensures exports[m].name[..n] == exports[i].name[..n]
    {
      assert exports[m].name[..n] == exports[m].name[..common][..n];
      assert exports[i].name[..n] == exports[i].name[..common][..n];
    }
    if n < common {
      assert CharAt(exports[k].name, n) != CharAt(exports[i].name, n);
    }
  }

  /** Some name of the group goes on differently. */
  predicate Differs(exports: seq<Export>, i: nat, j: nat, at: nat)
    requires i < j <= |exports|
  {
    exists k :: i <= k < j && CharAt(exports[k].name, at) != CharAt(exports[i].name, at)
  }

  lemma NoLonger(exports: seq<Export>, i: nat, j: nat, at: nat)
    requires i < j <= |exports| && Differs(exports, i, j, at)
    ensures forall n :: n > at ==> !Shared(exports, i, j, n)
  {
    var k :| i <= k < j && CharAt(exports[k].name, at) != CharAt(exports[i].name, at);
    forall n | n > at
      ensures !Shared(exports, i, j, n)
    {
      if Shared(exports, i, j, n) {
        SharedByte(exports, i, j, n, k, at);
        assert false;
      }
    }
  }

  lemma SharedByte(exports: seq<Export>, i: nat, j: nat, n: nat, k: nat, at: nat)
    requires Shared(exports, i, j, n) && i <= k < j && at < n
    ensures CharAt(exports[k].name, at) == CharAt(exports[i].name, at)
  {
    assert exports[k].name[..n][at] == exports[i].name[..n][at];
  }

  lemma {:induction false} ExportsAppend(edges: seq<Edge>, e: Edge, prefix: Name)
    ensures ExportsAll(edges + [e], prefix) == ExportsAll(edges, prefix) + Exports(e.child, prefix + e.text)
  {
    if edges == [] {
      assert [] + [e] == [e];
    } else {
      assert (edges + [e])[1..] == edges[1..] + [e];
      ExportsAppend(edges[1..], e, prefix);
    }
  }

  predicate ProperEdges(edges: seq<Edge>) {
    forall i :: 0 <= i < |edges| ==> ZeroFree(edges[i].text) && Proper(edges[i].child)
  }

  predicate CompressedEdges(edges: seq<Edge>) {
    forall i :: 0 <= i < |edges| ==> (edges[i].child.terminal || |edges[i].child.edges| >= 2) && Compressed(edges[i].child)
  }

  /** Names that continue alike share one byte more. */
  lemma SharedFurther(exports: seq<Export>, first: nat, last: nat, depth: nat)
    requires Listed(exports) && Shared(exports, first, last, depth) && depth < |exports[first].name|
    requires forall k :: first <= k < last ==> CharAt(exports[k].name, depth) == CharAt(exports[first].name, depth)
    ensures Shared(exports, first, last, depth + 1)
  {
    forall k | first <= k < last
      ensures depth + 1 <= |exports[k].name| && exports[k].name[..depth + 1] == exports[first].name[..depth + 1]
    {
      var a, b := exports[first].name, exports[k].name;
      assert ZeroFree(a) && a[depth] != 0;
      assert b[..depth + 1] == b[..depth] + [b[depth]] && a[..depth + 1] == a[..depth] + [a[depth]];
    }
  }

  method Build(exports: seq<Export>, first: nat, last: nat, depth: nat) returns (t: Trie)
    requires Listed(exports) && Shared(exports, first, last, depth)
    ensures Proper(t) && Unnumbered(t) && Exports(t, exports[first].name[..depth]) == exports[first..last]
    ensures Compressed(t) && (!t.terminal && |t.edges| == 1 ==> Shared(exports, first, last, depth + 1))
    decreases last - first, |exports[first].name| - depth
  {
    hide Before, ExportsAll, Proper, ProperEdges, Unnumbered, UnnumberedAll, CompressedEdges, Compressed;
    var name := exports[first].name;
    var terminal := |name| == depth;
    var start := if terminal then first + 1 else first;
    var i := start;
    var edges: seq<Edge> := [];
    ghost var prefix := name[..depth];
    NoEdges(prefix);
    while i < last
      invariant start <= i <= last && ProperEdges(edges) && UnnumberedAll(edges) && CompressedEdges(edges) && |edges| < 0x100
      invariant |edges| == 1 ==> forall k :: start <= k < i ==> CharAt(exports[k].name, depth) == CharAt(exports[start].name, depth)
      invariant edges != [] ==> i > first && |edges| <= CharAt(exports[i - 1].name, depth)
      invariant edges != [] && i < last ==> CharAt(exports[i - 1].name, depth) < CharAt(exports[i].name, depth)
      invariant i > start ==> edges != []
      invariant ExportsAll(edges, prefix) == exports[start..i]
    {
      if i > first {
        SharedOrder(exports, first, last, depth, first, i);
      }
      var e, j := BuildEdge(exports, first, i, last, depth);
      AddEdge(exports, edges, e, prefix, start, i, j);
      edges, i := edges + [e], j;
    }
    t := Node(terminal, if terminal then exports[first].address else 0, 0, edges);
    if !terminal && |edges| == 1 {
      SharedFurther(exports, first, last, depth);
    }
    Built(exports, first, last, start, t, prefix);
  }

  lemma NoEdges(prefix: Name)
    ensures ExportsAll([], prefix) == [] && ProperEdges([]) && UnnumberedAll([]) && CompressedEdges([])
  {
  }

  lemma AddEdge(exports: seq<Export>, edges: seq<Edge>, e: Edge, prefix: Name, start: nat, i: nat, j: nat)
    requires start <= i <= j <= |exports| && ProperEdges(edges) && ZeroFree(e.text) && Proper(e.child)
    requires UnnumberedAll(edges) && Unnumbered(e.child)
    requires CompressedEdges(edges) && Compressed(e.child) && (e.child.terminal || |e.child.edges| >= 2)
    requires ExportsAll(edges, prefix) == exports[start..i] && Exports(e.child, prefix + e.text) == exports[i..j]
    ensures ProperEdges(edges + [e]) && UnnumberedAll(edges + [e]) && CompressedEdges(edges + [e]) && ExportsAll(edges + [e], prefix) == exports[start..j]
  {
    ExportsAppend(edges, e, prefix);
    assert exports[start..i] + exports[i..j] == exports[start..j];
  }

  lemma Built(exports: seq<Export>, first: nat, last: nat, start: nat, t: Trie, prefix: Name)
    requires first < last <= |exports| && start == (if t.terminal then first + 1 else first)
    requires t.terminal ==> exports[first] == Export(prefix, t.address)
    requires ProperEdges(t.edges) && CompressedEdges(t.edges) && UnnumberedAll(t.edges) && t.offset == 0 && |t.edges| < 0x100 && (t.edges == [] ==> t.terminal)
    requires ExportsAll(t.edges, prefix) == exports[start..last]
    ensures Proper(t) && Unnumbered(t) && Compressed(t) && Exports(t, prefix) == exports[first..last]
  {
    if t.terminal {
      assert exports[first..last] == [exports[first]] + exports[start..last];
    }
  }

  method BuildEdge(exports: seq<Export>, first: nat, i: nat, last: nat, depth: nat) returns (e: Edge, j: nat)
    requires Listed(exports) && Shared(exports, first, last, depth) && first <= i < last
    requires depth < |exports[i].name|
    ensures i < j <= last && ZeroFree(e.text) && Proper(e.child) && Unnumbered(e.child)
    ensures Compressed(e.child) && (e.child.terminal || |e.child.edges| >= 2)
    ensures forall k :: i <= k < j ==> CharAt(exports[k].name, depth) == CharAt(exports[i].name, depth)
    ensures CharAt(exports[j - 1].name, depth) == CharAt(exports[i].name, depth)
    ensures j < last ==> CharAt(exports[i].name, depth) < CharAt(exports[j].name, depth)
    ensures Exports(e.child, exports[first].name[..depth] + e.text) == exports[i..j]
    decreases last - i, |exports[i].name| - depth, 0
  {
    j := GroupEnd(exports, i, last, depth);
    var common := CommonPrefix(exports, i, j, depth);
    var child := Build(exports, i, j, common);
    var name := exports[i].name;
    e := Edge(name[depth..common], child);
    assert exports[first].name[..depth] + name[depth..common] == name[..common];
    if j < last {
      SharedOrder(exports, first, last, depth, i, j);
    }
  }

  // ----- numbering and writing -----

  /** One more edge of a numbering in progress. */
  lemma NumberStep(edges: seq<Edge>, done: seq<Edge>, i: nat, at: nat, from: nat)
    requires i < |edges| && |done| == i
    requires done + RenumberAll(edges[i..], at) == RenumberAll(edges, from)
    requires at + SizeAll(edges[i..]) == from + SizeAll(edges)
    ensures var e' := edges[i].(child := Renumber(edges[i].child, at));
            var next := at + Size(edges[i].child);
            && (done + [e']) + RenumberAll(edges[i + 1..], next) == RenumberAll(edges, from)
            && next + SizeAll(edges[i + 1..]) == from + SizeAll(edges)
            && (done + [e'] == edges[..i + 1] <==> done == edges[..i] && e' == edges[i])
  {
    hide Renumber, Size;
    var e, rest := edges[i], edges[i + 1..];
    assert edges[i..][0] == e && edges[i..][1..] == rest;
    var e' := e.(child := Renumber(e.child, at));
    assert (done + [e']) + RenumberAll(rest, at + Size(e.child)) == done + ([e'] + RenumberAll(rest, at + Size(e.child)));
    assert edges[..i + 1] == edges[..i] + [e];
    assert (done + [e'])[i] == e' && (done + [e'])[..i] == done;
    assert edges[..i + 1][i] == e && edges[..i + 1][..i] == edges[..i];
  }

  method Number(t: Trie, at: nat) returns (r: Trie, end: nat, changed: bool)
    ensures r == Renumber(t, at) && end == at + Size(t) && (changed <==> r != t)
    decreases t
  {
    hide RenumberAll, SizeAll, NodeSize;
    changed, end := t.offset != at, at + NodeSize(t);
    var edges: seq<Edge> := [];
    var i := 0;
    ghost var from := end;
    assert t.edges[0..] == t.edges && [] + RenumberAll(t.edges, from) == RenumberAll(t.edges, from);
    while i < |t.edges|
      invariant i <= |t.edges| && |edges| == i
      invariant edges + RenumberAll(t.edges[i..], end) == RenumberAll(t.edges, from)
      invariant end + SizeAll(t.edges[i..]) == from + SizeAll(t.edges)
      invariant changed <==> t.offset != at || edges != t.edges[..i]
    {
      NumberStep(t.edges, edges, i, end, from);
      var child, next, moved := Number(t.edges[i].child, end);
      edges := edges + [t.edges[i].(child := child)];
      end, changed, i := next, changed || moved, i + 1;
    }
    assert t.edges[i..] == [] && t.edges[..i] == t.edges;
    NumberEnd(edges, end);
    r := t.(offset := at, edges := edges);
  }

  lemma NumberEnd(edges: seq<Edge>, at: nat)
    ensures edges + RenumberAll([], at) == edges && SizeAll([]) == 0
  {
  }

  method Write(t: Trie, out: seq<Byte>) returns (r: seq<Byte>)
    requires Narrow(t)
    ensures r == out + Bytes(t)
    decreases t
  {
    hide Uleb, UlebSize;
    r := WriteHead(t, out);
    ghost var head := r;
    var i := 0;
    assert t.edges[0..] == t.edges;
    while i < |t.edges|
      invariant i <= |t.edges|
      invariant r + BytesAll(t.edges[i..]) == head + BytesAll(t.edges)
    {
      var e := t.edges[i];
      assert t.edges[i..][0] == e && t.edges[i..][1..] == t.edges[i + 1..];
      Regroup(r, Bytes(e.child), BytesAll(t.edges[i + 1..]));
      r := Write(e.child, r);
      i := i + 1;
    }
    assert t.edges[i..] == [];
    Regroup(out, NodeBytes(t), BytesAll(t.edges));
  }

  lemma Regroup(a: seq<Byte>, b: seq<Byte>, c: seq<Byte>)
    ensures a + (b + c) == (a + b) + c
  {
  }

  method WriteHead(t: Trie, out: seq<Byte>) returns (r: seq<Byte>)
    requires |t.edges| < 0x100
    ensures r == out + NodeBytes(t)
  {
    hide Uleb, UlebSize, InfoSize, LabelsSize;
    r := PutUleb(out, InfoSize(t));
    ghost var r1 := r;
    var n := |t.edges|;
    if t.terminal {
      r := PutUleb(r, 0);
      Regroup(r1, Uleb(0), Uleb(t.address));
      r := PutUleb(r, t.address);
    }
    assert r == r1 + InfoBytes(t);
    ghost var r2 := r;
    r := r + [n];
    ghost var r3 := r;
    var i := 0;
    assert t.edges[0..] == t.edges;
    while i < n
      invariant i <= n
      invariant r + LabelsBytes(t.edges[i..]) == r3 + LabelsBytes(t.edges)
    {
      var e := t.edges[i];
      assert t.edges[i..][0] == e && t.edges[i..][1..] == t.edges[i + 1..];
      ghost var number, rest := Uleb(e.child.offset), LabelsBytes(t.edges[i + 1..]);
      Regroup(r, e.text + [0], number + rest);
      Regroup(r + (e.text + [0]), number, rest);
      r := PutUleb(r + (e.text + [0]), e.child.offset);
      i := i + 1;
    }
    assert t.edges[i..] == [];
    HeadGroups(t, out, r1, r2, r3, r);
  }

  lemma HeadGroups(t: Trie, out: seq<Byte>, r1: seq<Byte>, r2: seq<Byte>, r3: seq<Byte>, r: seq<Byte>)
    requires |t.edges| < 0x100
    requires r1 == out + Uleb(InfoSize(t)) && r2 == r1 + InfoBytes(t) && r3 == r2 + [|t.edges|] && r == r3 + LabelsBytes(t.edges)
    ensures r == out + NodeBytes(t)
  {
    hide Uleb, InfoBytes, LabelsBytes;
    var count, labels := [|t.edges|], LabelsBytes(t.edges);
    Regroup(r2, count, labels);
    Regroup(r1, InfoBytes(t), count + labels);
    Regroup(out, Uleb(InfoSize(t)), InfoBytes(t) + (count + labels));
  }

  // ----- reading -----

  method ScanLabel(data: seq<Byte>, start: nat) returns (p: nat)
    ensures p == LabelEnd(data, start)
  {
    p := start;
    while p < |data| && data[p] != 0
      invariant start <= p && LabelEnd(data, p) == LabelEnd(data, start)
      decreases |data| - p
    {
      p := p + 1;
    }
  }

  /** Appends the names below the node at `at` to those already found. */
  method WalkTrie(data: seq<Byte>, at: nat, prefix: Name, depth: nat, found: seq<Name>) returns (r: seq<Name>)
    ensures r == found + Walk(data, at, prefix, depth)
    decreases MaxDepth + 1 - depth, 0x100
  {
    hide ReadUleb, WalkEdges;
    r := found;
    if at >= |data| || depth > MaxDepth {
      return;
    }
    var info, p := GetUleb(data, at);
    if info != 0 {
      r := r + [prefix];
    }
    if p + info >= |data| {
      return;
    }
    r := WalkChildren(data, p + info + 1, data[p + info], prefix, depth, r);
  }

  method WalkChildren(data: seq<Byte>, start: nat, children: nat, prefix: Name, depth: nat, found: seq<Name>) returns (r: seq<Name>)
    requires children < 0x100 && depth <= MaxDepth
    ensures r == found + WalkEdges(data, start, children, prefix, depth)
    decreases MaxDepth + 1 - depth, 0
  {
    hide ReadUleb, LabelEnd, Walk;
    r := found;
    var p, c := start, 0;
    while c < children && p < |data|
      invariant c <= children && start <= p
      invariant r + WalkEdges(data, p, children - c, prefix, depth) == found + WalkEdges(data, start, children, prefix, depth)
    {
      var e := ScanLabel(data, p);
      var text := data[p..e];
      var child, q := GetUleb(data, e + 1);
      if |prefix| + |text| < MaxName {
        r := WalkTrie(data, child, prefix + text, depth + 1, r);
      }
      p, c := q, c + 1;
    }
  }

  // ----- a whole image -----

  /** The same shape and names, whatever the numbering. */
  ghost predicate Holds(t: Trie, exports: seq<Export>, height: nat) {
    Proper(t) && Exports(t, []) == exports && Height(t) == height
  }

  lemma RenumberHolds(t: Trie, at: nat, exports: seq<Export>, height: nat)
    requires Holds(t, exports, height)
    ensures Holds(Renumber(t, at), exports, height)
  {
    RenumberKeeps(t, at, [], 0);
    RenumberHeight(t, at);
  }

  lemma {:induction false} RenumberHeight(t: Trie, at: nat)
    ensures Height(Renumber(t, at)) == Height(t)
    decreases t, 0
  {
    RenumberAllHeight(t.edges, at + NodeSize(t));
  }

  lemma {:induction false} RenumberAllHeight(edges: seq<Edge>, at: nat)
    ensures HeightAll(RenumberAll(edges, at)) == HeightAll(edges)
    decreases edges, 1
  {
    if edges != [] {
      RenumberHeight(edges[0].child, at);
      RenumberAllHeight(edges[1..], at + Size(edges[0].child));
      assert RenumberAll(edges, at)[1..] == RenumberAll(edges[1..], at + Size(edges[0].child));
    }
  }

  /**
   A reader of the bytes of a settled trie finds exactly the exported names, in order, and a
   reader of entries also their addresses and no flags, if and only if no name and no chain of
   nodes is longer than they follow.
   */
  lemma RoundTrip(data: seq<Byte>, t: Trie, exports: seq<Export>)
    requires Proper(t) && Exports(t, []) == exports && Settled(t, 0) && Narrow(t) && At(data, 0, Bytes(t))
    ensures Walk(data, 0, [], 0) == Names(exports) <==> Height(t) <= MaxDepth && ShortNames(exports)
    ensures Entries(data, 0, [], 0) == Ordinary(exports) <==> Height(t) <= MaxDepth && ShortNames(exports)
  {
    SettledStored(data, t, 0);
    WalkFinds(data, t, [], 0);
    EntriesFind(data, t, [], 0);
    VisibleLimits(t, [], 0);
  }

  /** At most 64 rounds of numbering; `settled` says that the last one changed nothing. */
  method Settle(t0: Trie, ghost exports: seq<Export>, ghost height: nat) returns (t: Trie, settled: bool)
    requires Holds(t0, exports, height)
    ensures Holds(t, exports, height) && t == Rounds(t0, 64) && (settled <==> Settled(Rounds(t0, 63), 0)) && (settled ==> Settled(t, 0))
  {
    hide Renumber, Settled, Holds, Size;
    t, settled := t0, false;
    var round := 0;
    while round < 64 && !settled
      invariant round <= 64 && Holds(t, exports, height) && t == Rounds(t0, round)
      invariant (settled ==> round > 0) && (round > 0 ==> (settled <==> Settled(Rounds(t0, round - 1), 0)))
      decreases 64 - round
    {
      RenumberHolds(t, 0, exports, height);
      SettledFixed(t, 0);
      var r, _, changed := Number(t, 0);
      t, settled, round := r, !changed, round + 1;
    }
    if settled {
      StaysSettled(t0, round - 1, round);
      StaysSettled(t0, round - 1, 63);
      StaysSettled(t0, round - 1, 64);
    }
  }

  /** As few zeros as make the length a multiple of eight. */
  predicate Padded(bytes: seq<Byte>, data: seq<Byte>) {
    && |data| % 8 == 0 && |bytes| <= |data| < |bytes| + 8 && data[..|bytes|] == bytes
    && forall i :: |bytes| <= i < |data| ==> data[i] == 0
  }

  method Pad(bytes: seq<Byte>) returns (data: seq<Byte>)
    ensures Padded(bytes, data) && |data| % 8 == 0 && At(data, 0, bytes)
  {
    data := bytes;
    ghost var target := (|bytes| + 7) / 8;
    while |data| % 8 != 0
      invariant At(data, 0, bytes) && |data| <= 8 * target && forall i :: |bytes| <= i < |data| ==> data[i] == 0
      decreases 8 * target - |data|
    {
      data := data + [0];
    }
  }

  /** The bytes are those of the trie after 64 rounds; `settled` says that the last of them changed nothing. */
  ghost predicate Numbered(root: Trie, data: seq<Byte>, settled: bool, exports: seq<Export>, height: nat) {
    && Holds(root, exports, height) && Unnumbered(root) && (settled <==> Settled(Rounds(root, 63), 0))
    && Narrow(Rounds(root, 64)) && Padded(Bytes(Rounds(root, 64)), data)
  }

  ghost predicate Tabled(data: seq<Byte>, settled: bool, exports: seq<Export>, height: nat) {
    exists root :: Numbered(root, data, settled, exports, height)
  }

  /** The trie section of an image: the numbered trie's bytes, padded to a multiple of eight. */
  method ExportTable(exports: seq<Export>) returns (data: seq<Byte>, settled: bool, height: nat)
    requires exports != [] && Listed(exports)
    ensures |data| % 8 == 0 && Tabled(data, settled, exports, height)
    ensures settled ==> (Walk(data, 0, [], 0) == Names(exports) <==> height <= MaxDepth && ShortNames(exports))
    ensures settled ==> (Entries(data, 0, [], 0) == Ordinary(exports) <==> height <= MaxDepth && ShortNames(exports))
  {
    hide Walk, Names, Entries, Ordinary, Bytes, Settled, ShortNames, At, Padded;
    var root := Build(exports, 0, |exports|, 0);
    height := Height(root);
    assert exports[0..|exports|] == exports && exports[0].name[..0] == [];
    var t;
    t, settled := Settle(root, exports, height);
    ProperNarrow(t);
    data := Write(t, []);
    assert data == Bytes(t);
    data := Pad(data);
    assert Numbered(root, data, settled, exports, height);
    if settled {
      RoundTrip(data, t, exports);
    }
  }
}
