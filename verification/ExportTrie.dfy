/** The export trie of a Mach-O image: its writer, and the reader for other images' tries. */
module ExportTrie {
  import opened Leb128

  type Name = seq<Byte>

  datatype Edge = Edge(text: Name, child: Trie)

  /** `address` counts only for terminal nodes; `offset` is the position the last numbering gave. */
  datatype Trie = Node(terminal: bool, address: nat, offset: nat, edges: seq<Edge>)

  const MaxDepth: nat := 128
  const MaxName: nat := 4096

  // ----- sizes and positions -----

  function InfoSize(t: Trie): nat {
    if t.terminal then 1 + UlebSize(t.address) else 0
  }

  function LabelsSize(edges: seq<Edge>): nat {
    if edges == [] then 0
    else |edges[0].text| + 1 + UlebSize(edges[0].child.offset) + LabelsSize(edges[1..])
  }

  function NodeSize(t: Trie): nat {
    UlebSize(InfoSize(t)) + InfoSize(t) + 1 + LabelsSize(t.edges)
  }

  function Size(t: Trie): nat
    decreases t, 0
  {
    NodeSize(t) + SizeAll(t.edges)
  }

  function SizeAll(edges: seq<Edge>): nat
    decreases edges, 1
  {
    if edges == [] then 0 else Size(edges[0].child) + SizeAll(edges[1..])
  }

  /** One round of numbering: nodes in depth-first order, sized by the offsets of the round before. */
  function Renumber(t: Trie, at: nat): Trie
    decreases t, 0
  {
    t.(offset := at, edges := RenumberAll(t.edges, at + NodeSize(t)))
  }

  function RenumberAll(edges: seq<Edge>, at: nat): (r: seq<Edge>)
    ensures |r| == |edges|
    decreases edges, 1
  {
    if edges == [] then []
    else [edges[0].(child := Renumber(edges[0].child, at))] + RenumberAll(edges[1..], at + Size(edges[0].child))
  }

  // ----- the writer -----

  function LabelsBytes(edges: seq<Edge>): (b: seq<Byte>)
    ensures |b| == LabelsSize(edges)
  {
    if edges == [] then []
    else (edges[0].text + [0]) + (Uleb(edges[0].child.offset) + LabelsBytes(edges[1..]))
  }

  /** Flags, always zero, and the address of an exported symbol. */
  function InfoBytes(t: Trie): (b: seq<Byte>)
    ensures |b| == InfoSize(t)
  {
    if t.terminal then Uleb(0) + Uleb(t.address) else []
  }

  function NodeBytes(t: Trie): (b: seq<Byte>)
    requires |t.edges| < 0x100
    ensures |b| == NodeSize(t)
  {
    Uleb(InfoSize(t)) + (InfoBytes(t) + ([|t.edges|] + LabelsBytes(t.edges)))
  }

  /** Every node's number of children fits the byte that holds it. */
  predicate Narrow(t: Trie) {
    |t.edges| < 0x100 && forall i :: 0 <= i < |t.edges| ==> Narrow(t.edges[i].child)
  }

  function Bytes(t: Trie): (b: seq<Byte>)
    requires Narrow(t)
    ensures |b| == Size(t)
    decreases t, 0
  {
    NodeBytes(t) + BytesAll(t.edges)
  }

  function BytesAll(edges: seq<Edge>): (b: seq<Byte>)
    requires forall i :: 0 <= i < |edges| ==> Narrow(edges[i].child)
    ensures |b| == SizeAll(edges)
    decreases edges, 1
  {
    if edges == [] then [] else Bytes(edges[0].child) + BytesAll(edges[1..])
  }

  // ----- the reader -----

  /** The end of the text at `p`: a zero byte or the end of the data. */
  function LabelEnd(data: seq<Byte>, p: nat): (e: nat)
    ensures p <= e && (p <= |data| ==> e <= |data|)
    decreases |data| - p
  {
    if p < |data| && data[p] != 0 then LabelEnd(data, p + 1) else p
  }

  /** The names that a reader finds from the node at `at`, in order. */
  function Walk(data: seq<Byte>, at: nat, prefix: Name, depth: nat): seq<Name>
    decreases MaxDepth + 1 - depth, 0x100
  {
    if at >= |data| || depth > MaxDepth then []
    else
      var (info, p) := ReadUleb(data, at);
      (if info != 0 then [prefix] else []) +
      (if p + info >= |data| then [] else WalkEdges(data, p + info + 1, data[p + info], prefix, depth))
  }

  function WalkEdges(data: seq<Byte>, p: nat, n: nat, prefix: Name, depth: nat): seq<Name>
    requires n < 0x100 && depth <= MaxDepth
    decreases MaxDepth + 1 - depth, n
  {
    if n == 0 || p >= |data| then []
    else
      var e := LabelEnd(data, p);
      var text := data[p..e];
      var (child, q) := ReadUleb(data, e + 1);
      (if |prefix| + |text| >= MaxName then [] else Walk(data, child, prefix + text, depth + 1)) +
      WalkEdges(data, q, n - 1, prefix, depth)
  }

  // ----- a reader of whole entries -----

  datatype Entry = Entry(name: Name, flags: nat, address: nat)

  /** What a dynamic linker reads: a node's information is flags and an address, both variable-length. */
  function Entries(data: seq<Byte>, at: nat, prefix: Name, depth: nat): seq<Entry>
    decreases MaxDepth + 1 - depth, 0x100
  {
    if at >= |data| || depth > MaxDepth then []
    else
      var (info, p) := ReadUleb(data, at);
      (if info != 0 then [EntryAt(data, p, prefix)] else []) +
      (if p + info >= |data| then [] else EntriesEdges(data, p + info + 1, data[p + info], prefix, depth))
  }

  function EntryAt(data: seq<Byte>, p: nat, name: Name): Entry {
    var (flags, q) := ReadUleb(data, p);
    Entry(name, flags, ReadUleb(data, q).0)
  }

  function EntriesEdges(data: seq<Byte>, p: nat, n: nat, prefix: Name, depth: nat): seq<Entry>
    requires n < 0x100 && depth <= MaxDepth
    decreases MaxDepth + 1 - depth, n
  {
    if n == 0 || p >= |data| then []
    else
      var e := LabelEnd(data, p);
      var text := data[p..e];
      var (child, q) := ReadUleb(data, e + 1);
      (if |prefix| + |text| >= MaxName then [] else Entries(data, child, prefix + text, depth + 1)) +
      EntriesEdges(data, q, n - 1, prefix, depth)
  }

  function EntryNames(entries: seq<Entry>): seq<Name> {
    if entries == [] then [] else [entries[0].name] + EntryNames(entries[1..])
  }

  lemma {:induction false} EntryNamesAppend(a: seq<Entry>, b: seq<Entry>)
    ensures EntryNames(a + b) == EntryNames(a) + EntryNames(b)
  {
    if a == [] {
      assert a + b == b;
    } else {
      assert (a + b)[0] == a[0] && (a + b)[1..] == a[1..] + b;
      EntryNamesAppend(a[1..], b);
    }
  }

  /** On any data, the linker's reader finds the names of the entries. */
  lemma {:induction false} WalkNames(data: seq<Byte>, at: nat, prefix: Name, depth: nat)
    ensures Walk(data, at, prefix, depth) == EntryNames(Entries(data, at, prefix, depth))
    decreases MaxDepth + 1 - depth, 0x100
  {
    hide EntryAt, EntriesEdges, WalkEdges, ReadUleb, EntryNames;
    if at < |data| && depth <= MaxDepth {
      var (info, p) := ReadUleb(data, at);
      var own := if info != 0 then [EntryAt(data, p, prefix)] else [];
      OwnName(data, p, prefix, info != 0);
      if p + info < |data| {
        WalkEdgesNames(data, p + info + 1, data[p + info], prefix, depth);
        EntryNamesAppend(own, EntriesEdges(data, p + info + 1, data[p + info], prefix, depth));
      } else {
        assert own + [] == own;
      }
    } else {
      NoNames();
    }
  }

  lemma NoNames()
    ensures EntryNames([]) == []
  {
  }

  lemma OwnName(data: seq<Byte>, p: nat, name: Name, terminal: bool)
    ensures EntryNames(if terminal then [EntryAt(data, p, name)] else []) == if terminal then [name] else []
  {
    hide ReadUleb;
    var e := EntryAt(data, p, name);
    assert [e][1..] == [] && EntryNames([]) == [];
  }

  lemma {:induction false} WalkEdgesNames(data: seq<Byte>, p: nat, n: nat, prefix: Name, depth: nat)
    requires n < 0x100 && depth <= MaxDepth
    ensures WalkEdges(data, p, n, prefix, depth) == EntryNames(EntriesEdges(data, p, n, prefix, depth))
    decreases MaxDepth + 1 - depth, n
  {
    hide Walk, Entries, EntryNames, LabelEnd, ReadUleb;
    NoNames();
    if n > 0 && p < |data| {
      var e := LabelEnd(data, p);
      var text := data[p..e];
      var (child, q) := ReadUleb(data, e + 1);
      var here := if |prefix| + |text| >= MaxName then [] else Entries(data, child, prefix + text, depth + 1);
      WalkEdgesNames(data, q, n - 1, prefix, depth);
      if |prefix| + |text| < MaxName {
        WalkNames(data, child, prefix + text, depth + 1);
      }
      EntryNamesAppend(here, EntriesEdges(data, q, n - 1, prefix, depth));
    }
  }

  // ----- what a trie holds -----

  datatype Export = Export(name: Name, address: nat)

  /** The entries of ordinary exports, without flags. */
  function Ordinary(exports: seq<Export>): (r: seq<Entry>)
    ensures |r| == |exports|
  {
    if exports == [] then [] else [Entry(exports[0].name, 0, exports[0].address)] + Ordinary(exports[1..])
  }

  lemma {:induction false} OrdinaryAppend(a: seq<Export>, b: seq<Export>)
    ensures Ordinary(a + b) == Ordinary(a) + Ordinary(b)
  {
    if a == [] {
      assert a + b == b;
    } else {
      assert (a + b)[0] == a[0] && (a + b)[1..] == a[1..] + b;
      OrdinaryAppend(a[1..], b);
    }
  }

  lemma {:induction false} OrdinaryNames(exports: seq<Export>)
    ensures EntryNames(Ordinary(exports)) == Names(exports)
  {
    if exports != [] {
      OrdinaryNames(exports[1..]);
    }
  }

  /** The terminal nodes of a trie, depth first. */
  function Exports(t: Trie, prefix: Name): seq<Export>
    decreases t, 0
  {
    (if t.terminal then [Export(prefix, t.address)] else []) + ExportsAll(t.edges, prefix)
  }

  function ExportsAll(edges: seq<Edge>, prefix: Name): seq<Export>
    decreases edges, 1
  {
    if edges == [] then [] else Exports(edges[0].child, prefix + edges[0].text) + ExportsAll(edges[1..], prefix)
  }

  function Names(exports: seq<Export>): (r: seq<Name>)
    ensures |r| == |exports|
  {
    if exports == [] then [] else [exports[0].name] + Names(exports[1..])
  }

  /** The exports a reader sees that stops at its depth and length limits. */
  function Visible(t: Trie, prefix: Name, depth: nat): seq<Export>
    decreases t, 0
  {
    if depth > MaxDepth then []
    else (if t.terminal then [Export(prefix, t.address)] else []) + VisibleAll(t.edges, prefix, depth)
  }

  function VisibleAll(edges: seq<Edge>, prefix: Name, depth: nat): seq<Export>
    decreases edges, 1
  {
    if edges == [] then []
    else
      (if |prefix| + |edges[0].text| >= MaxName then [] else Visible(edges[0].child, prefix + edges[0].text, depth + 1)) +
      VisibleAll(edges[1..], prefix, depth)
  }

  predicate ZeroFree(name: Name) {
    forall i :: 0 <= i < |name| ==> name[i] != 0
  }

  /** Tries as the builder makes them: labels are strings, children few, and no branch ends without a name. */
  predicate Proper(t: Trie) {
    && |t.edges| < 0x100
    && (t.edges == [] ==> t.terminal)
    && forall i :: 0 <= i < |t.edges| ==> ZeroFree(t.edges[i].text) && Proper(t.edges[i].child)
  }

  /** Below the root every node has a name or branches: no chain of labels could be one label. */
  predicate Compressed(t: Trie) {
    forall i :: 0 <= i < |t.edges| ==>
      (t.edges[i].child.terminal || |t.edges[i].child.edges| >= 2) && Compressed(t.edges[i].child)
  }

  lemma {:induction false} ProperNarrow(t: Trie)
    requires Proper(t)
    ensures Narrow(t)
  {
    forall i | 0 <= i < |t.edges|
      ensures Narrow(t.edges[i].child)
    {
      ProperNarrow(t.edges[i].child);
    }
  }

  /** The numbering is settled: each node is where the bytes before it end. */
  predicate Settled(t: Trie, at: nat)
    decreases t, 0
  {
    t.offset == at && SettledAll(t.edges, at + NodeSize(t))
  }

  predicate SettledAll(edges: seq<Edge>, at: nat)
    decreases edges, 1
  {
    edges == [] || (Settled(edges[0].child, at) && SettledAll(edges[1..], at + Size(edges[0].child)))
  }

  // ----- numbering -----

  /** A round that changes nothing finds the numbering settled, and the other way round. */
  lemma {:induction false} SettledFixed(t: Trie, at: nat)
    ensures Renumber(t, at) == t <==> Settled(t, at)
    decreases t, 0
  {
    SettledAllFixed(t.edges, at + NodeSize(t));
  }

  lemma {:induction false} SettledAllFixed(edges: seq<Edge>, at: nat)
    ensures RenumberAll(edges, at) == edges <==> SettledAll(edges, at)
    decreases edges, 1
  {
    if edges != [] {
      SettledFixed(edges[0].child, at);
      SettledAllFixed(edges[1..], at + Size(edges[0].child));
      var first, rest := edges[0].(child := Renumber(edges[0].child, at)), RenumberAll(edges[1..], at + Size(edges[0].child));
      assert RenumberAll(edges, at) == [first] + rest;
      assert edges == [edges[0]] + edges[1..];
      assert ([first] + rest)[0] == first && ([first] + rest)[1..] == rest;
    }
  }

  /** Numbering keeps names, addresses and shape. */
  lemma {:induction false} RenumberKeeps(t: Trie, at: nat, prefix: Name, depth: nat)
    ensures Exports(Renumber(t, at), prefix) == Exports(t, prefix)
    ensures Visible(Renumber(t, at), prefix, depth) == Visible(t, prefix, depth)
    ensures Proper(t) ==> Proper(Renumber(t, at))
    decreases t, 0
  {
    RenumberAllKeeps(t.edges, at + NodeSize(t), prefix, depth);
  }

  lemma {:induction false} RenumberAllKeeps(edges: seq<Edge>, at: nat, prefix: Name, depth: nat)
    ensures var r := RenumberAll(edges, at);
            && ExportsAll(r, prefix) == ExportsAll(edges, prefix)
            && VisibleAll(r, prefix, depth) == VisibleAll(edges, prefix, depth)
            && |r| == |edges|
            && forall i :: 0 <= i < |edges| && ZeroFree(edges[i].text) && Proper(edges[i].child) ==>
                 ZeroFree(r[i].text) && Proper(r[i].child)
    decreases edges, 1
  {
    hide Renumber, Size, Exports, Visible, Proper, ZeroFree;
    if edges != [] {
      var e := edges[0];
      RenumberKeeps(e.child, at, prefix + e.text, depth + 1);
      RenumberAllKeeps(edges[1..], at + Size(e.child), prefix, depth);
      var rest := RenumberAll(edges[1..], at + Size(e.child));
      assert RenumberAll(edges, at)[1..] == rest;
      forall i | 0 <= i < |edges| && ZeroFree(edges[i].text) && Proper(edges[i].child)
        ensures ZeroFree(RenumberAll(edges, at)[i].text) && Proper(RenumberAll(edges, at)[i].child)
      {
        if i > 0 {
          assert edges[i] == edges[1..][i - 1];
        }
      }
    }
  }

  // ----- the reader on the writer's bytes -----

  lemma {:induction false} LabelFound(data: seq<Byte>, p: nat, text: Name)
    requires At(data, p, text + [0]) && ZeroFree(text)
    ensures LabelEnd(data, p) == p + |text|
    decreases |text|
  {
    AtSplit(data, p, text, [0]);
    assert data[p + |text|..p + |text| + 1][0] == 0;
    if text != [] {
      assert data[p] == data[p..p + |text|][0] == text[0];
      assert text + [0] == [text[0]] + (text[1..] + [0]);
      AtSplit(data, p, [text[0]], text[1..] + [0]);
      LabelFound(data, p + 1, text[1..]);
    }
  }

  /** A subtree's bytes are in the data, each node where its offset says. */
  predicate Stored(data: seq<Byte>, t: Trie)
    decreases t, 0
  {
    Proper(t) && At(data, t.offset, NodeBytes(t)) && StoredAll(data, t.edges)
  }

  predicate StoredAll(data: seq<Byte>, edges: seq<Edge>)
    decreases edges, 1
  {
    forall i :: 0 <= i < |edges| ==> ZeroFree(edges[i].text) && Stored(data, edges[i].child)
  }

  /** Settled numbering puts every node where its parent says. */
  lemma {:induction false} SettledStored(data: seq<Byte>, t: Trie, at: nat)
    requires Proper(t) && Settled(t, at)
    requires Narrow(t) && At(data, at, Bytes(t))
    ensures Stored(data, t)
    decreases t, 0
  {
    AtSplit(data, at, NodeBytes(t), BytesAll(t.edges));
    SettledAllStored(data, t.edges, at + NodeSize(t));
  }

  lemma {:induction false} SettledAllStored(data: seq<Byte>, edges: seq<Edge>, at: nat)
    requires forall i :: 0 <= i < |edges| ==> ZeroFree(edges[i].text) && Proper(edges[i].child) && Narrow(edges[i].child)
    requires SettledAll(edges, at) && At(data, at, BytesAll(edges))
    ensures StoredAll(data, edges)
    decreases edges, 1
  {
    if edges != [] {
      AtSplit(data, at, Bytes(edges[0].child), BytesAll(edges[1..]));
      SettledStored(data, edges[0].child, at);
      SettledAllStored(data, edges[1..], at + Size(edges[0].child));
      forall i | 0 <= i < |edges|
        ensures ZeroFree(edges[i].text) && Stored(data, edges[i].child)
      {
        if i > 0 {
          assert edges[i] == edges[1..][i - 1];
        }
      }
    }
  }

  /** What the reader takes from the bytes of a node before its edges. */
  lemma HeaderRead(data: seq<Byte>, t: Trie)
    requires |t.edges| < 0x100 && At(data, t.offset, NodeBytes(t))
    ensures t.offset < |data|
    ensures var (info, p) := ReadUleb(data, t.offset);
            && (info != 0 <==> t.terminal) && p + info < |data| && data[p + info] == |t.edges|
            && At(data, p + info + 1, LabelsBytes(t.edges))
            && forall name :: t.terminal ==> EntryAt(data, p, name) == Entry(name, 0, t.address)
  {
    hide ReadUleb, LabelsBytes, At, Uleb, UlebSize, NodeBytes;
    var at, info := t.offset, InfoSize(t);
    HeaderParts(data, t);
    UlebRoundTrip(data, at, info);
    if t.terminal {
      InfoRead(data, at + |Uleb(info)|, t);
    }
    AtByte(data, at + |Uleb(info)| + info, |t.edges|);
    AtInside(data, at, Uleb(info));
  }

  /** The information of a terminal node: no flags, and its address. */
  lemma InfoRead(data: seq<Byte>, p: nat, t: Trie)
    requires t.terminal && At(data, p, InfoBytes(t))
    ensures ReadUleb(data, p).0 == 0 && ReadUleb(data, ReadUleb(data, p).1).0 == t.address
  {
    hide ReadUleb, At, Uleb;
    AtSplit(data, p, Uleb(0), Uleb(t.address));
    UlebRoundTrip(data, p, 0);
    UlebRoundTrip(data, p + |Uleb(0)|, t.address);
  }

  lemma HeaderParts(data: seq<Byte>, t: Trie)
    requires |t.edges| < 0x100 && At(data, t.offset, NodeBytes(t))
    ensures var at, info := t.offset, InfoSize(t);
            && At(data, at, Uleb(info)) && At(data, at + |Uleb(info)|, InfoBytes(t)) && At(data, at + |Uleb(info)| + info, [|t.edges|])
            && At(data, at + |Uleb(info)| + info + 1, LabelsBytes(t.edges))
  {
    hide LabelsBytes, LabelsSize, At, Uleb, InfoBytes, UlebSize;
    var at, info := t.offset, InfoSize(t);
    var head, body, labels := Uleb(info), InfoBytes(t), LabelsBytes(t.edges);
    AtSplit(data, at, head, body + ([|t.edges|] + labels));
    AtSplit(data, at + |head|, body, [|t.edges|] + labels);
    AtSplit(data, at + |head| + info, [|t.edges|], labels);
  }

  lemma AtInside(data: seq<Byte>, p: nat, part: seq<Byte>)
    requires At(data, p, part) && part != []
    ensures p < |data|
  {
  }

  lemma AtByte(data: seq<Byte>, p: nat, byte: Byte)
    requires At(data, p, [byte])
    ensures p < |data| && data[p] == byte
  {
    assert data[p..p + 1][0] == byte;
  }

  /** What the reader takes from the bytes of an edge. */
  lemma EdgeRead(data: seq<Byte>, edges: seq<Edge>, p: nat)
    requires edges != [] && ZeroFree(edges[0].text) && At(data, p, LabelsBytes(edges))
    ensures var e := LabelEnd(data, p);
            && p < |data| && e <= |data| && data[p..e] == edges[0].text
            && var (child, q) := ReadUleb(data, e + 1);
               child == edges[0].child.offset && At(data, q, LabelsBytes(edges[1..]))
  {
    hide ReadUleb, Uleb, LabelsSize, LabelEnd, At;
    var e := edges[0];
    var number, rest := Uleb(e.child.offset), LabelsBytes(edges[1..]);
    AtSplit(data, p, e.text + [0], number + rest);
    AtText(data, p, e.text);
    var q := p + |e.text| + 1;
    AtSplit(data, q, number, rest);
    UlebRoundTrip(data, q, e.child.offset);
  }

  lemma AtText(data: seq<Byte>, p: nat, text: Name)
    requires At(data, p, text + [0]) && ZeroFree(text)
    ensures p < |data| && p + |text| <= |data| && LabelEnd(data, p) == p + |text| && data[p..p + |text|] == text
  {
    AtSplit(data, p, text, [0]);
    LabelFound(data, p, text);
  }

  /** The linker's reader finds, below a stored node, the names within its limits. */
  lemma WalkFinds(data: seq<Byte>, t: Trie, prefix: Name, depth: nat)
    requires Stored(data, t)
    ensures Walk(data, t.offset, prefix, depth) == Names(Visible(t, prefix, depth))
  {
    hide Walk, Entries, Visible, Stored;
    WalkNames(data, t.offset, prefix, depth);
    EntriesFind(data, t, prefix, depth);
    OrdinaryNames(Visible(t, prefix, depth));
  }

  /** A reader of entries finds, below a stored node, the exports within its limits, with their addresses. */
  lemma {:induction false} EntriesFind(data: seq<Byte>, t: Trie, prefix: Name, depth: nat)
    requires Stored(data, t)
    ensures Entries(data, t.offset, prefix, depth) == Ordinary(Visible(t, prefix, depth))
    decreases t, 0
  {
    hide At, ReadUleb, NodeBytes, LabelsBytes, EntriesEdges, VisibleAll, EntryAt;
    if depth <= MaxDepth {
      HeaderRead(data, t);
      var (info, p) := ReadUleb(data, t.offset);
      EntriesFindAll(data, t.edges, p + info + 1, prefix, depth);
      var own := if t.terminal then [Export(prefix, t.address)] else [];
      OrdinaryAppend(own, VisibleAll(t.edges, prefix, depth));
      assert Ordinary(own) == if t.terminal then [Entry(prefix, 0, t.address)] else [];
    }
  }

  lemma {:induction false} EntriesFindAll(data: seq<Byte>, edges: seq<Edge>, p: nat, prefix: Name, depth: nat)
    requires |edges| < 0x100 && depth <= MaxDepth && StoredAll(data, edges) && At(data, p, LabelsBytes(edges))
    ensures EntriesEdges(data, p, |edges|, prefix, depth) == Ordinary(VisibleAll(edges, prefix, depth))
    decreases edges, 1
  {
    hide At, ReadUleb, NodeBytes, LabelsBytes, Entries, Visible, LabelEnd;
    if edges != [] {
      EdgeRead(data, edges, p);
      var (child, q) := ReadUleb(data, LabelEnd(data, p) + 1);
      var e := edges[0];
      EntriesFind(data, e.child, prefix + e.text, depth + 1);
      EntriesFindAll(data, edges[1..], q, prefix, depth);
      var here := if |prefix| + |e.text| >= MaxName then [] else Visible(e.child, prefix + e.text, depth + 1);
      OrdinaryAppend(here, VisibleAll(edges[1..], prefix, depth));
    }
  }

  // ----- the limits -----

  function Height(t: Trie): nat
    decreases t, 0
  {
    HeightAll(t.edges)
  }

  /** One more than the height of the highest child, zero without children. */
  function HeightAll(edges: seq<Edge>): nat
    decreases edges, 1
  {
    if edges == [] then 0
    else
      var first, rest := Height(edges[0].child) + 1, HeightAll(edges[1..]);
      if first > rest then first else rest
  }

  predicate ShortNames(exports: seq<Export>) {
    forall i :: 0 <= i < |exports| ==> |exports[i].name| < MaxName
  }

  /**
   A reader sees no more than what is there, and all of it exactly when the trie is not deeper
   and the names not longer than its limits.
   */
  lemma {:induction false} VisibleLimits(t: Trie, prefix: Name, depth: nat)
    requires Proper(t) && |prefix| < MaxName
    ensures var all, seen := Exports(t, prefix), Visible(t, prefix, depth);
            && |all| > 0 && |seen| <= |all|
            && (|seen| == |all| <==> depth + Height(t) <= MaxDepth && ShortNames(all))
            && (|seen| == |all| ==> seen == all)
    decreases t, 0
  {
    VisibleAllLimits(t.edges, prefix, depth);
    var own := if t.terminal then [Export(prefix, t.address)] else [];
    var rest := ExportsAll(t.edges, prefix);
    ShortAppend(own, rest);
  }

  lemma {:induction false} VisibleAllLimits(edges: seq<Edge>, prefix: Name, depth: nat)
    requires |prefix| < MaxName
    requires forall i :: 0 <= i < |edges| ==> Proper(edges[i].child)
    ensures var all, seen := ExportsAll(edges, prefix), VisibleAll(edges, prefix, depth);
            && |all| >= |edges| && |seen| <= |all|
            && (edges != [] ==> (|seen| == |all| <==> depth + HeightAll(edges) <= MaxDepth && ShortNames(all)))
            && (|seen| == |all| ==> seen == all && ShortNames(all))
    decreases edges, 1
  {
    hide Exports, Visible, Height;
    if edges != [] {
      var e := edges[0];
      var here, rest := Exports(e.child, prefix + e.text), ExportsAll(edges[1..], prefix);
      VisibleAllLimits(edges[1..], prefix, depth);
      ShortAppend(here, rest);
      if |prefix| + |e.text| < MaxName {
        VisibleLimits(e.child, prefix + e.text, depth + 1);
      } else {
        LongPrefix(e.child, prefix + e.text);
      }
    }
  }

  lemma ShortAppend(a: seq<Export>, b: seq<Export>)
    ensures ShortNames(a + b) <==> ShortNames(a) && ShortNames(b)
  {
    if ShortNames(a + b) {
      forall i | 0 <= i < |a|
        ensures |a[i].name| < MaxName
      {
        assert (a + b)[i] == a[i];
      }
      forall i | 0 <= i < |b|
        ensures |b[i].name| < MaxName
      {
        assert (a + b)[|a| + i] == b[i];
      }
    }
  }

  /** Every name below a prefix is at least as long. */
  lemma {:induction false} LongPrefix(t: Trie, prefix: Name)
    requires Proper(t) && |prefix| >= MaxName
    ensures |Exports(t, prefix)| > 0 && !ShortNames(Exports(t, prefix))
    decreases t, 0
  {
    if t.terminal {
      assert Exports(t, prefix)[0] == Export(prefix, t.address);
    } else {
      var e := t.edges[0];
      LongPrefix(e.child, prefix + e.text);
      var here, rest := Exports(e.child, prefix + e.text), ExportsAll(t.edges[1..], prefix);
      assert Exports(t, prefix) == here + rest;
      ShortAppend(here, rest);
    }
  }
}
