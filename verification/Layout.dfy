/**
 Addresses and file offsets of an ELF image: three segments, each on its own pages, with
 sections in order inside their outputs and outputs in order inside their segments.
 */
module Layout {
  import opened Nonlinear
  import opened Integers

  /** An input section in an output. */
  datatype Piece = Piece(align: nat, size: nat, offset: nat, address: int)

  datatype Output = Output(align: nat, nobits: bool, pieces: seq<Piece>, size: nat, address: int, fileOffset: nat)

  /** Outputs by number, in the order of the source's enumeration. */
  const EhFrame: nat := 10
  const Text: nat := 11
  const Plt: nat := 12
  const Dynamic: nat := 13
  const FiniArray: nat := 15
  const DataRelRo: nat := 16
  const Data: nat := 17
  const ThreadData: nat := 19
  const ThreadBss: nat := 20
  const Bss: nat := 21
  const OutputCount: nat := 22

  // ----- alignment -----

  predicate PowerOfTwo(a: nat) {
    a > 0 && (a == 1 || (a % 2 == 0 && PowerOfTwo(a / 2)))
  }

  /** Sections may also have no alignment, written as zero. */
  function Unit(a: nat): (u: nat)
    ensures u > 0
  {
    if a > 1 then a else 1
  }

  function AlignUp(v: nat, a: nat): nat {
    (v + Unit(a) - 1) / Unit(a) * Unit(a)
  }

  predicate Multiple(x: int, a: nat) {
    x % Unit(a) == 0
  }

  lemma {:induction false} PowersDivide(a: nat, b: nat)
    requires PowerOfTwo(a) && PowerOfTwo(b) && a <= b
    ensures b % a == 0
    decreases b
  {
    if a == 1 {
    } else {
      PowersDivide(a / 2, b / 2);
      DivMod(b / 2, a / 2);
      var q := b / 2 / (a / 2);
      assert b == 2 * (q * (a / 2)) == q * a;
      DivUnique(b, a, q, 0);
    }
  }

  lemma MultipleSum(x: int, y: int, a: nat)
    requires Multiple(x, a) && Multiple(y, a)
    ensures Multiple(x + y, a) && Multiple(x - y, a)
  {
    ModSum(x, y, Unit(a));
    DivUnique(0, Unit(a), 0, 0);
  }

  /** Multiples of a multiple. */
  lemma MultipleOf(x: int, b: nat, a: nat)
    requires Multiple(x, b) && Unit(b) % Unit(a) == 0
    ensures Multiple(x, a)
  {
    var u, v := Unit(a), Unit(b);
    DivMod(x, v);
    DivMod(v, u);
    var q, k := x / v, v / u;
    assert x == (q * k) * u;
    DivUnique(x, u, q * k, 0);
  }

  lemma AlignUpFacts(v: nat, a: nat)
    ensures Multiple(AlignUp(v, a), a) && v <= AlignUp(v, a) < v + Unit(a)
  {
    var u := Unit(a);
    var n := v + u - 1;
    DivMod(n, u);
    DivUnique(n / u * u, u, n / u, 0);
  }

  lemma AlignUpExact(v: nat, a: nat)
    requires Multiple(v, a)
    ensures AlignUp(v, a) == v
  {
    DivMod(v, Unit(a));
    DivUnique(v + Unit(a) - 1, Unit(a), v / Unit(a), Unit(a) - 1);
  }

  /** The parts of a position within and below its page. */
  lemma PageParts(offset: nat, page: nat)
    requires page > 1
    ensures Multiple(offset - offset % page, page) && 0 <= offset % page < page
  {
    DivMod(offset, page);
    DivUnique(offset - offset % page, page, offset / page, 0);
  }

  // ----- outputs -----

  /** Sections follow one another inside the output, each on its own alignment. */
  predicate Laid(o: Output) {
    && (forall i :: 0 <= i < |o.pieces| ==>
          o.pieces[i].address == o.address + o.pieces[i].offset && Multiple(o.pieces[i].offset, o.pieces[i].align)
          && o.pieces[i].offset + o.pieces[i].size <= o.size)
    && (forall i, j :: 0 <= i < j < |o.pieces| ==> o.pieces[i].offset + o.pieces[i].size <= o.pieces[j].offset)
  }

  predicate SamePieces(was: Output, now: Output) {
    && now.align == was.align && now.nobits == was.nobits && |now.pieces| == |was.pieces|
    && forall i :: 0 <= i < |was.pieces| ==> now.pieces[i].align == was.pieces[i].align && now.pieces[i].size == was.pieces[i].size
  }

  /** Alignments in the layout: thread storage shares that of its zero-filled part. */
  function SharedAlign(outputs: seq<Output>, k: nat): nat
    requires |outputs| == OutputCount && k < OutputCount
  {
    if k == ThreadData && outputs[ThreadBss].align > outputs[k].align then outputs[ThreadBss].align else outputs[k].align
  }

  /** Every output keeps its sections. */
  predicate AllSections(was: seq<Output>, now: seq<Output>) {
    |was| == |now| == OutputCount && forall k :: 0 <= k < OutputCount ==> SamePieces(was[k].(align := SharedAlign(was, k)), now[k])
  }

  /** The group gets a segment: a hosted image has a read-only one in any case, the others need sections. */
  ghost predicate Needed(outputs: seq<Output>, g: nat, bare: bool)
    requires |outputs| == OutputCount && g < 3
  {
    || (g == 0 && !bare)
    || (exists k :: FirstOf(g) <= k <= LastOf(g) && outputs[k].pieces != [])
    || (g == 0 && outputs[DataRelRo].pieces != [])
    || (g == 2 && outputs[Bss].pieces != [])
  }

  function FirstOf(g: nat): nat {
    if g == 0 then 0 else if g == 1 then Text else Dynamic
  }

  function LastOf(g: nat): nat {
    if g == 0 then EhFrame else if g == 1 then Plt else ThreadData
  }

  lemma SameNeed(was: seq<Output>, now: seq<Output>, g: nat, bare: bool)
    requires AllSections(was, now) && g < 3
    ensures Needed(was, g, bare) <==> Needed(now, g, bare)
  {
    forall k | 0 <= k < OutputCount
      ensures was[k].pieces != [] <==> now[k].pieces != []
    {
      assert SamePieces(was[k].(align := SharedAlign(was, k)), now[k]);
    }
  }

  lemma SectionsKept(o0: seq<Output>, o1: seq<Output>, o2: seq<Output>, list: seq<nat>)
    requires AllSections(o0, o1) && OnlyThese(o1, o2, list)
    ensures AllSections(o0, o2)
  {
    forall k | 0 <= k < OutputCount
      ensures SamePieces(o0[k].(align := SharedAlign(o0, k)), o2[k])
    {
      assert SamePieces(o0[k].(align := SharedAlign(o0, k)), o1[k]) && SamePieces(o1[k], o2[k]);
    }
  }

  /** Every section of the output sits at an aligned address. */
  predicate Aligned(o: Output) {
    forall i :: 0 <= i < |o.pieces| ==> Multiple(o.pieces[i].address, o.pieces[i].align)
  }

  /** Alignments as the linker collects them: powers of two, the output's the largest, none above the page. */
  predicate Proper(o: Output, page: nat) {
    && PowerOfTwo(Unit(o.align)) && Unit(o.align) <= page
    && forall i :: 0 <= i < |o.pieces| ==> PowerOfTwo(Unit(o.pieces[i].align)) && Unit(o.pieces[i].align) <= Unit(o.align)
  }

  /** The output as placed at or behind `offset`, in a segment that maps offsets to addresses by `delta`. */
  predicate PlacedAt(was: Output, now: Output, offset: nat, delta: int) {
    && SamePieces(was, now) && Laid(now) && now.size <= SectionRoom(now.pieces)
    && now.fileOffset == AlignUp(offset, was.align) && now.address == delta + now.fileOffset
  }

  /** Room for sections at any alignment: their sizes, and for each less padding than its alignment. */
  function SectionRoom(pieces: seq<Piece>): nat {
    if pieces == [] then 0
    else var last := pieces[|pieces| - 1]; SectionRoom(pieces[..|pieces| - 1]) + (Unit(last.align) - 1) + last.size
  }

  function OutputRoom(o: Output): nat {
    Unit(o.align) - 1 + SectionRoom(o.pieces)
  }

  function Room(outputs: seq<Output>, list: seq<nat>): nat
    requires forall i :: 0 <= i < |list| ==> list[i] < |outputs|
  {
    if list == [] then 0 else Room(outputs, list[..|list| - 1]) + OutputRoom(outputs[list[|list| - 1]])
  }

  lemma {:induction false} SameSectionRoom(a: seq<Piece>, b: seq<Piece>)
    requires |a| == |b| && forall i :: 0 <= i < |a| ==> a[i].align == b[i].align && a[i].size == b[i].size
    ensures SectionRoom(a) == SectionRoom(b)
  {
    if a != [] {
      SameSectionRoom(a[..|a| - 1], b[..|a| - 1]);
    }
  }

  lemma {:induction false} SameRoom(was: seq<Output>, now: seq<Output>, list: seq<nat>)
    requires |was| == |now| && forall i :: 0 <= i < |list| ==> list[i] < |was| && SamePieces(was[list[i]], now[list[i]])
    ensures Room(was, list) == Room(now, list)
  {
    if list != [] {
      var k := list[|list| - 1];
      SameRoom(was, now, list[..|list| - 1]);
      SameSectionRoom(was[k].pieces, now[k].pieces);
    }
  }

  /** In a segment whose addresses are congruent to its offsets modulo the page, placing aligns every section. */
  lemma PlacedAligned(was: Output, now: Output, offset: nat, delta: int, page: nat)
    requires PlacedAt(was, now, offset, delta) && Proper(was, page) && page > 1 && PowerOfTwo(page) && Multiple(delta, page)
    ensures Aligned(now) && Multiple(now.address, now.align)
  {
    hide Multiple, AlignUp, PowerOfTwo;
    AlignUpFacts(offset, was.align);
    PowersDivide(Unit(was.align), page);
    MultipleOf(delta, page, was.align);
    MultipleSum(delta, now.fileOffset, was.align);
    forall i | 0 <= i < |now.pieces|
      ensures Multiple(now.pieces[i].address, now.pieces[i].align)
    {
      var a := now.pieces[i].align;
      PowersDivide(Unit(a), Unit(was.align));
      MultipleOf(now.address, was.align, a);
      MultipleSum(now.address, now.pieces[i].offset, a);
    }
  }

  /** The first `i` sections stand in `size` bytes, the others are as they were. */
  predicate Filled(was: seq<Piece>, now: seq<Piece>, i: nat, address: int, size: nat) {
    && i <= |now| == |was|
    && (forall k :: 0 <= k < |now| ==> now[k].align == was[k].align && now[k].size == was[k].size)
    && (forall k :: 0 <= k < i ==>
          now[k].address == address + now[k].offset && Multiple(now[k].offset, now[k].align) && now[k].offset + now[k].size <= size)
    && (forall k, l :: 0 <= k < l < i ==> now[k].offset + now[k].size <= now[l].offset)
    && size <= SectionRoom(now[..i])
  }

  lemma FilledStep(was: seq<Piece>, now: seq<Piece>, i: nat, address: int, size: nat)
    requires Filled(was, now, i, address, size) && i < |now|
    ensures var at := AlignUp(size, now[i].align);
            Filled(was, now[i := now[i].(offset := at, address := address + at)], i + 1, address, at + now[i].size)
  {
    hide AlignUp, Multiple;
    var at := AlignUp(size, now[i].align);
    AlignUpFacts(size, now[i].align);
    RoomStep(now, i, at, address);
  }

  method PlaceOutput(o: Output, offset: nat, delta: int) returns (r: Output)
    ensures PlacedAt(o, r, offset, delta)
  {
    hide AlignUp, Multiple;
    var at := AlignUp(offset, o.align);
    var address := delta + at;
    var pieces, i := o.pieces, 0;
    var size: nat := 0;
    while i < |pieces|
      invariant Filled(o.pieces, pieces, i, address, size)
    {
      FilledStep(o.pieces, pieces, i, address, size);
      size := AlignUp(size, pieces[i].align);
      pieces := pieces[i := pieces[i].(offset := size, address := address + size)];
      size := size + pieces[i].size;
      i := i + 1;
    }
    assert pieces[..i] == pieces;
    r := o.(pieces := pieces, size := size, address := address, fileOffset := at);
  }

  lemma RoomStep(pieces: seq<Piece>, i: nat, offset: nat, address: int)
    requires i < |pieces|
    ensures var now := pieces[i := pieces[i].(offset := offset, address := address + offset)];
            SectionRoom(now[..i + 1]) == SectionRoom(pieces[..i]) + (Unit(pieces[i].align) - 1) + pieces[i].size
  {
    var now := pieces[i := pieces[i].(offset := offset, address := address + offset)];
    assert now[..i + 1][..i] == pieces[..i];
  }

  // ----- segments -----

  datatype Segment = Segment(offset: nat, address: nat, fileSize: nat, memorySize: nat, loadAddress: nat, group: nat)

  function End(s: Segment): nat {
    s.address + s.memorySize
  }

  /** Outputs of a list lie in order between two addresses, with all their sections aligned. */
  predicate Ordered(outputs: seq<Output>, list: seq<nat>, lo: int, hi: int)
    requires |outputs| == OutputCount && forall i :: 0 <= i < |list| ==> list[i] < OutputCount
  {
    && lo <= hi
    && (forall i :: 0 <= i < |list| ==>
          var o := outputs[list[i]];
          Laid(o) && Aligned(o) && lo <= o.address && o.address + o.size <= hi)
    && (forall i, j :: 0 <= i < j < |list| ==>
          outputs[list[i]].address + outputs[list[i]].size <= outputs[list[j]].address)
  }

  predicate Distinct(list: seq<nat>) {
    && (forall i :: 0 <= i < |list| ==> list[i] < OutputCount)
    && (forall i, j :: 0 <= i < j < |list| ==> list[i] != list[j])
  }

  lemma {:induction false} RoomAppend(outputs: seq<Output>, a: seq<nat>, b: seq<nat>)
    requires forall i :: 0 <= i < |a| ==> a[i] < |outputs|
    requires forall i :: 0 <= i < |b| ==> b[i] < |outputs|
    ensures Room(outputs, a + b) == Room(outputs, a) + Room(outputs, b)
    decreases b
  {
    if b == [] {
      assert a + b == a;
    } else {
      RoomAppend(outputs, a, b[..|b| - 1]);
      assert (a + b)[..|a + b| - 1] == a + b[..|b| - 1];
    }
  }

  lemma RoomOne(was: seq<Output>, now: seq<Output>, list: seq<nat>, k: nat)
    requires |was| == |now| && k < |was| && now == was[k := now[k]] && SamePieces(was[k], now[k])
    requires forall i :: 0 <= i < |list| ==> list[i] < |was|
    ensures Room(now, list + [k]) == Room(was, list) + OutputRoom(now[k])
  {
    forall i | 0 <= i < |list|
      ensures SamePieces(was[list[i]], now[list[i]])
    {
    }
    SameRoom(was, now, list);
    assert (list + [k])[..|list|] == list;
  }

  /** Outputs of a list stand in the file as they do in memory. */
  predicate Mapped(outputs: seq<Output>, list: seq<nat>, delta: int)
    requires |outputs| == OutputCount
  {
    forall i :: 0 <= i < |list| ==> list[i] < OutputCount && outputs[list[i]].address == delta + outputs[list[i]].fileOffset
  }

  lemma MappedOne(was: seq<Output>, now: seq<Output>, list: seq<nat>, k: nat, delta: int)
    requires |was| == |now| == OutputCount && k < OutputCount && now == was[k := now[k]] && Mapped(was, list, delta)
    requires now[k].address == delta + now[k].fileOffset
    ensures Mapped(now, list + [k], delta)
  {
    forall i | 0 <= i < |list + [k]|
      ensures (list + [k])[i] < OutputCount && now[(list + [k])[i]].address == delta + now[(list + [k])[i]].fileOffset
    {
      assert i < |list| ==> list[i] < OutputCount;
    }
  }

  lemma MappedKept(was: seq<Output>, now: seq<Output>, list: seq<nat>, changed: seq<nat>, delta: int)
    requires OnlyThese(was, now, changed) && Mapped(was, list, delta) && forall i :: 0 <= i < |list| ==> list[i] !in changed
    ensures Mapped(now, list, delta)
  {
    forall i | 0 <= i < |list|
      ensures list[i] < OutputCount && now[list[i]].address == delta + now[list[i]].fileOffset
    {
      assert list[i] < OutputCount && now[list[i]] == was[list[i]];
    }
  }

  /** Only outputs of the list change, and they keep their sections. */
  predicate OnlyThese(was: seq<Output>, now: seq<Output>, list: seq<nat>) {
    && |was| == |now| == OutputCount
    && forall k :: 0 <= k < OutputCount ==> SamePieces(was[k], now[k]) && (k !in list ==> now[k] == was[k])
  }

  lemma OrderedAppend(was: seq<Output>, now: seq<Output>, list: seq<nat>, k: nat, lo: int, mid: int, hi: int)
    requires |was| == |now| == OutputCount && Distinct(list) && k < OutputCount && k !in list
    requires Ordered(was, list, lo, mid) && now == was[k := now[k]]
    requires Laid(now[k]) && Aligned(now[k]) && mid <= now[k].address && now[k].address + now[k].size <= hi
    ensures Distinct(list + [k]) && Ordered(now, list + [k], lo, hi)
  {
    hide Laid, Aligned;
    var longer := list + [k];
    forall i | 0 <= i < |longer|
      ensures i < |list| ==> longer[i] == list[i] && now[longer[i]] == was[list[i]]
    {
    }
  }

  /** What a segment may hold besides its outputs: the headers, or the rest of the protected part's last page. */
  function Slack(g: nat, bare: bool, dynamic: bool, page: nat, headers: nat): nat {
    (if g == 0 && !bare then headers else 0) + (if g == 2 && dynamic && page > 0 then page - 1 else 0)
  }

  class Linker {
    const base: nat
    const page: nat
    const dataBase: nat
    const bare: bool
    const dynamic: bool
    var outputs: seq<Output>
    var relroOffset: nat
    var relroAddress: int
    var relroSize: nat

    constructor (base: nat, page: nat, dataBase: nat, bare: bool, dynamic: bool, outputs: seq<Output>)
      ensures this.base == base && this.page == page && this.dataBase == dataBase && this.bare == bare && this.dynamic == dynamic
      ensures this.outputs == outputs
    {
      this.base, this.page, this.dataBase, this.bare, this.dynamic := base, page, dataBase, bare, dynamic;
      this.outputs := outputs;
      relroOffset, relroAddress, relroSize := 0, 0, 0;
    }

    ghost predicate Valid()
      reads this
    {
      && |outputs| == OutputCount && page > 1 && PowerOfTwo(page) && Multiple(base, page) && Multiple(dataBase, page)
      && (forall k :: 0 <= k < OutputCount ==> Proper(outputs[k], page))
    }

    /** Places outputs with file contents one behind the other. */
    method PlaceAll(list: seq<nat>, offset: nat, delta: int) returns (next: nat)
      requires Valid() && Multiple(delta, page) && Distinct(list)
      requires forall i :: 0 <= i < |list| ==> !outputs[list[i]].nobits
      modifies this`outputs
      ensures Valid() && OnlyThese(old(outputs), outputs, list) && offset <= next <= offset + Room(outputs, list)
      ensures Ordered(outputs, list, delta + offset, delta + next) && Mapped(outputs, list, delta)
    {
      hide Ordered, Multiple, Proper, PowerOfTwo, SamePieces, OnlyThese, Room, Laid, AlignUp, Mapped;
      next := offset;
      var i := 0;
      ghost var done: seq<nat> := [];
      NonePlaced(outputs, delta + offset);
      while i < |list|
        invariant i <= |list| && done == list[..i] && offset <= next && Valid()
        invariant OnlyThese(old(outputs), outputs, done) && Distinct(done) && next <= offset + Room(outputs, done)
        invariant Ordered(outputs, done, delta + offset, delta + next) && Mapped(outputs, done, delta)
      {
        var k := list[i];
        ghost var was := outputs;
        OneMore(old(outputs), was, done, k);
        next := PlaceOne(k, next, delta, done, offset);
        RoomOne(was, outputs, done, k);
        MappedOne(was, outputs, done, k, delta);
        done := done + [k];
        i := i + 1;
      }
      assert done == list;
    }

    method PlaceOne(k: nat, offset: nat, delta: int, ghost done: seq<nat>, ghost first: nat) returns (next: nat)
      requires Valid() && Multiple(delta, page) && k < OutputCount && Distinct(done) && k !in done && first <= offset
      requires Ordered(outputs, done, delta + first, delta + offset)
      modifies this`outputs
      ensures Valid() && outputs == old(outputs)[k := outputs[k]] && SamePieces(old(outputs[k]), outputs[k])
      ensures PlacedAt(old(outputs[k]), outputs[k], offset, delta) && offset <= next
      ensures next == if old(outputs)[k].nobits then outputs[k].fileOffset else outputs[k].fileOffset + outputs[k].size
      ensures outputs[k].fileOffset + outputs[k].size <= offset + OutputRoom(outputs[k])
      ensures Distinct(done + [k])
      ensures Ordered(outputs, done + [k], delta + first, delta + outputs[k].fileOffset + outputs[k].size)
    {
      hide Multiple, Proper, Laid, Aligned, AlignUp;
      ghost var was := outputs;
      var o := PlaceOutput(outputs[k], offset, delta);
      AlignUpFacts(offset, outputs[k].align);
      PlacedAligned(outputs[k], o, offset, delta, page);
      StaysProper(outputs[k], o, page);
      outputs := outputs[k := o];
      PlacedLaid(was[k], o, offset, delta);
      OrderedAppend(was, outputs, done, k, delta + first, delta + offset, delta + o.fileOffset + o.size);
      next := if o.nobits then o.fileOffset else o.fileOffset + o.size;
    }

    /** Whether a group gets a segment. */
    method Wanted(g: nat) returns (any: bool)
      requires g < 3 && |outputs| == OutputCount
      ensures any <==> Needed(outputs, g, bare)
    {
      any := g == 0 && !bare;
      var k := FirstOf(g);
      while k <= LastOf(g)
        invariant FirstOf(g) <= k <= LastOf(g) + 1
        invariant any <==> (g == 0 && !bare) || exists i :: FirstOf(g) <= i < k && outputs[i].pieces != []
      {
        if outputs[k].pieces != [] {
          any := true;
        }
        k := k + 1;
      }
      if g == 0 && outputs[DataRelRo].pieces != [] {
        any := true;
      }
      if g == 2 && outputs[Bss].pieces != [] {
        any := true;
      }
    }

    /** Offset, address and load address of a segment's first byte. */
    method Start(g: nat, first: bool, offset: nat, end: nat) returns (at: nat, start: nat, address: nat, load: nat)
      requires Valid() && g < 3 && (g == 0 && !bare ==> first) && (first ==> end == base)
      ensures offset <= at && start <= at && Multiple(address - start, page) && ((g == 0 && !bare) || offset <= start)
      ensures at - start <= Slack(g, bare, false, page, offset) && (bare && first && !Relocated(g) ==> address == base)
      ensures !Relocated(g) ==> PageStart(address, page) == AlignUp(end, page) && load == address
      ensures Relocated(g) ==> address == dataBase && load >= end
    {
      hide Multiple, AlignUp, PowerOfTwo, Proper;
      PageParts(offset, page);
      AlignUpExact(base, page);
      AlignUpFacts(end, page);
      AlignUpFacts(offset, page);
      BasePages(base, end, offset, page);
      at := offset;
      start := if g == 0 then 0 else offset;
      address := if g == 0 then base else AlignUp(end, page) + offset % page;
      if bare && first {
        at := AlignUp(offset, page);
        start, address := at, base;
      } else if bare {
        start, address := offset, AlignUp(end, page) + offset % page;
      }
      load := address;
      if bare && dataBase != 0 && g == 2 {
        at := AlignUp(offset, page);
        start, load, address := at, AlignUp(end, page), dataBase;
      }
    }

    /** The data segment has its own address, apart from the running one. */
    predicate Relocated(g: nat) {
      bare && dataBase != 0 && g == 2
    }

    /** The read-only or the code segment. */
    method LayPlain(g: nat, at: nat, start: nat, address: nat, load: nat) returns (s: Segment, next: nat)
      requires Valid() && g < 2 && start <= at && Multiple(address - start, page) && FileBacked(outputs)
      modifies this`outputs
      ensures Valid() && OnlyThese(old(outputs), outputs, Members(g, dynamic)) && at <= next
      ensures s.address == address && s.loadAddress == load && s.group == g && Multiple(s.address - s.offset, page)
      ensures Distinct(Members(g, dynamic)) && Ordered(outputs, Members(g, dynamic), s.address, End(s))
      ensures s.memorySize <= at - start + Room(outputs, Members(g, dynamic))
      ensures s.offset == start && s.offset + s.fileSize == next && InFile(outputs, s, dynamic)
    {
      hide Multiple, Ordered, Room, Mapped, InFile;
      MembersApart(dynamic);
      var delta := address - start;
      next := PlaceAll(Members(g, dynamic), at, delta);
      s := Segment(start, address, next - start, next - start, load, g);
      AllInFile(outputs, s, dynamic, delta, delta + at, delta + next);
      Widened(outputs, Members(g, dynamic), delta + at, delta + next, address, End(s));
    }

    /** The data segment's file contents: the part to protect after relocation, up to a page's end, then the rest. */
    method PlaceData(at: nat, start: nat, address: nat) returns (n1: nat, n2: nat, n3: nat)
      requires Valid() && start <= at && Multiple(address - start, page) && FileBacked(outputs)
      modifies this
      ensures Valid() && FileBacked(outputs) && OnlyThese(old(outputs), outputs, DataHead(dynamic) + DataRest)
      ensures at <= n1 <= n2 <= n3 && Distinct(DataHead(dynamic)) && Distinct(DataRest)
      ensures n3 <= at + Room(outputs, DataHead(dynamic)) + Room(outputs, DataRest) + Slack(2, bare, dynamic, page, 0)
      ensures var delta := address - start;
              && Ordered(outputs, DataHead(dynamic), delta + at, delta + n1) && Ordered(outputs, DataRest, delta + n2, delta + n3)
              && Mapped(outputs, DataHead(dynamic), delta) && Mapped(outputs, DataRest, delta)
      ensures dynamic && outputs[DataRelRo].pieces != [] ==>
                relroOffset == start && relroAddress == address && relroSize == n2 - start && Multiple(n2, page)
    {
      hide Multiple, Ordered, Proper, PowerOfTwo, OnlyThese, FileBacked, SamePieces, Room, AlignUp, Laid, Members, DataHead, Distinct, InGroup, Mapped;
      MembersApart(dynamic);
      ghost var was := outputs;
      FilesBacked(outputs, dynamic);
      var delta := address - start;
      n1 := PlaceAll(DataHead(dynamic), at, delta);
      ghost var o1 := outputs;
      StaysBacked(was, o1, DataHead(dynamic));
      FilesBacked(o1, dynamic);
      n2 := n1;
      if dynamic && outputs[DataRelRo].pieces != [] {
        AlignUpFacts(n1, page);
        n2 := AlignUp(n1, page);
        relroOffset, relroAddress, relroSize := start, address, n2 - start;
      }
      n3 := PlaceAll(DataRest, n2, delta);
      HeadStays(o1, outputs, dynamic, delta + at, delta + n1);
      HeadMapped(o1, outputs, dynamic, delta);
      StaysBacked(o1, outputs, DataRest);
      BothThese(was, o1, outputs, DataHead(dynamic), DataRest);
    }

    /** Zero-filled outputs behind `n`: thread storage takes no room, so both may start there. */
    method PlaceZero(n: nat, delta: int, ghost list: seq<nat>, ghost at: nat)
      requires Valid() && Multiple(delta, page) && Distinct(list) && ThreadBss !in list && Bss !in list && at <= n
      requires Ordered(outputs, list, delta + at, delta + n)
      modifies this`outputs
      ensures Valid() && outputs == old(outputs)[ThreadBss := outputs[ThreadBss]][Bss := outputs[Bss]]
      ensures SamePieces(old(outputs)[ThreadBss], outputs[ThreadBss]) && SamePieces(old(outputs)[Bss], outputs[Bss])
      ensures outputs[ThreadBss].address >= delta + n && outputs[Bss].address == delta + outputs[Bss].fileOffset >= delta + n
      ensures outputs[Bss].fileOffset + outputs[Bss].size <= n + OutputRoom(outputs[Bss])
      ensures Distinct(list + [Bss])
      ensures Ordered(outputs, list + [Bss], delta + at, delta + outputs[Bss].fileOffset + outputs[Bss].size)
    {
      hide Multiple, Ordered, Proper, PowerOfTwo;
      ghost var was := outputs;
      var tls := PlaceOutput(outputs[ThreadBss], n, delta);
      StaysProper(outputs[ThreadBss], tls, page);
      Unmoved(outputs, list, ThreadBss, tls, delta + at, delta + n);
      PlacedLaid(outputs[ThreadBss], tls, n, delta);
      outputs := outputs[ThreadBss := tls];
      var _ := PlaceOne(Bss, n, delta, list, at);
      PlacedLaid(was[Bss], outputs[Bss], n, delta);
    }

    /** The data segment, with zero-filled data behind the file contents. */
    method LayData(at: nat, start: nat, address: nat, load: nat) returns (s: Segment, next: nat)
      requires Valid() && start <= at && Multiple(address - start, page) && FileBacked(outputs)
      modifies this
      ensures Valid() && OnlyThese(old(outputs), outputs, Members(2, dynamic) + [ThreadBss]) && at <= next
      ensures s.address == address && s.loadAddress == load && s.group == 2 && Multiple(s.address - s.offset, page)
      ensures Distinct(Members(2, dynamic)) && Ordered(outputs, Members(2, dynamic), s.address, End(s))
      ensures s.memorySize <= at - start + Room(outputs, Members(2, dynamic)) + Slack(2, bare, dynamic, page, 0)
      ensures s.offset == start && s.offset + s.fileSize == next && InFile(outputs, s, dynamic)
      ensures dynamic && outputs[DataRelRo].pieces != [] ==>
                relroOffset == s.offset && relroAddress == s.address && Protects(outputs, relroAddress, relroSize, page)
    {
      hide Multiple, Ordered, Protects, Proper, PowerOfTwo, OnlyThese, FileBacked, SamePieces, InGroup, AlignUp, Laid, Distinct, Members, DataHead, Room, OutputRoom, Slack, Mapped, InFile;
      var delta := address - start;
      ghost var was := outputs;
      var n1, n2, n3 := PlaceData(at, start, address);
      ghost var o2 := outputs;
      FilesApart(o2, dynamic, delta, at, n1, n2, n3);
      PlaceZero(n3, delta, DataHead(dynamic) + DataRest, at);
      next := n3;
      var bss := outputs[Bss];
      s := Segment(start, address, n3 - start, bss.fileOffset + bss.size - start, load, 2);
      DataDone(was, o2, outputs, dynamic, delta, at, start, n1, n2, n3, End(s), page);
      DataRoom(o2, outputs, dynamic);
      ZeroFilled(o2, outputs);
      DataInFile(o2, outputs, dynamic, delta, at, n1, n2, n3, s);
    }

    /** Thread storage takes the alignment of its zero-filled part. */
    method ShareAlignment()
      requires Valid() && FileBacked(outputs)
      modifies this`outputs
      ensures Valid() && FileBacked(outputs) && AllSections(old(outputs), outputs)
    {
      hide Proper, Multiple, PowerOfTwo;
      if outputs[ThreadBss].align > outputs[ThreadData].align {
        Raised(outputs[ThreadData], outputs[ThreadBss], page);
        outputs := outputs[ThreadData := outputs[ThreadData].(align := outputs[ThreadBss].align)];
      }
      StartSections(old(outputs), outputs);
    }

    /** One group: nothing if it has no sections, its segment otherwise. */
    method LayGroup(g: nat, first: bool, offset: nat, end: nat) returns (made: seq<Segment>, next: nat)
      requires Valid() && FileBacked(outputs) && g < 3 && (g == 0 && !bare ==> first) && (first ==> end == base)
      modifies this
      ensures Valid() && FileBacked(outputs) && OnlyThese(old(outputs), outputs, Members(g, dynamic) + [ThreadBss])
      ensures |made| <= 1 && Distinct(Members(g, dynamic)) && (made != [] <==> Needed(old(outputs), g, bare))
      ensures made == [] ==> outputs == old(outputs) && Empty(outputs, Members(g, dynamic))
      ensures made != [] ==>
                && made[0].group == g && Fitted(outputs, made[0], dynamic, page)
                && SnugFit(outputs, made[0], bare, dynamic, page, offset) && InFile(outputs, made[0], dynamic)
                && ((g == 0 && !bare) || offset <= made[0].offset) && made[0].offset + made[0].fileSize == next
                && (if Relocated(g) then end <= made[0].loadAddress else made[0].loadAddress == made[0].address)
                && (bare && first && !Relocated(g) ==> made[0].address == base)
                && (!Relocated(g) ==> PageStart(made[0].address, page) == AlignUp(end, page))
                && (Relocated(g) ==> made[0].address == dataBase)
                && (g == 2 && dynamic && outputs[DataRelRo].pieces != [] ==>
                      relroOffset == made[0].offset && relroAddress == made[0].address && Protects(outputs, relroAddress, relroSize, page))
      ensures offset <= next
    {
      hide Multiple, Ordered, Protects, Proper, PowerOfTwo, OnlyThese, SamePieces, Members, InGroup, AlignUp, Room, PageStart, Needed, Empty, InFile, Mapped;
      MembersApart(dynamic);
      SameOutputs(outputs, Members(g, dynamic) + [ThreadBss]);
      var any := Wanted(g);
      if !any {
        NoMembers(outputs, g, bare, dynamic);
        return [], offset;
      }
      ghost var was := outputs;
      var at, start, address, load := Start(g, first, offset, end);
      var s;
      if g < 2 {
        s, next := LayPlain(g, at, start, address, load);
        MoreThese(was, outputs, Members(g, dynamic));
      } else {
        s, next := LayData(at, start, address, load);
      }
      StaysBacked(was, outputs, Members(g, dynamic) + [ThreadBss]);
      made := [s];
    }

    /**
     The layout of an image. Every section ends up aligned and in the segment of its group, with
     no more padding than alignment asks for; addresses and file offsets agree modulo the page;
     what is protected after relocation ends on a page, with all that stays writable behind it.
     Segments stack up from the base on pages of their own and no two sections overlap, except
     that a bare-metal image may ask for its data elsewhere: then the data has pages of its own
     exactly if it starts behind all other segments or ends before the base. In the file segments
     follow one another, with their outputs at the same distances as in memory.
     */
    method LayOut(headerSize: nat) returns (segments: seq<Segment>)
      requires Valid() && FileBacked(outputs)
      modifies this
      ensures AllSections(old(outputs), outputs) && Settled(outputs, segments, dynamic, page, {0, 1, 2})
      ensures Present(old(outputs), segments, bare, {0, 1, 2}) && Tight(outputs, segments, bare, dynamic, page, headerSize)
      ensures (forall s :: s in segments ==> InFile(outputs, s, dynamic)) && FileAscending(segments)
      ensures forall s :: s in Others(segments) ==> s.loadAddress == s.address
      ensures forall s :: s in segments && s.group == 2 ==>
                if Relocated(2) then LoadsBehind(s, Others(segments)) else s.loadAddress == s.address
      ensures page > 0 && Ascending(Others(segments), page) && Plain(Others(segments))
      ensures !Relocated(2) ==> Ascending(segments, page) && AllApart(outputs)
      ensures Based(segments, bare, base)
      ensures Relocated(2) ==> (forall s :: s in segments && s.group == 2 ==> DataElsewhere(s, Others(segments), base, dataBase, page))
      ensures Relocated(2) && (forall s :: s in segments && s.group == 2 ==> OutOfTheWay(s, Others(segments), base)) ==> NoClash(outputs)
      ensures dynamic && outputs[DataRelRo].pieces != [] ==>
                HasRelro(segments, outputs, relroOffset, relroAddress, relroSize, page)
    {
      hide Multiple, Ordered, Protects, Proper, PowerOfTwo, OnlyThese, Settled, Empty, HasRelro, Stacked, Others, Plain, Top, Based, DataAt, SamePieces, Members, Distinct, AlignUp, DataHead, AllSections, AllApart, NoClash, Ascending, OutOfTheWay, DataElsewhere, Tight, Room, PageStart, Fitted, SnugFit, FileBacked, Present, Needed, FileState, LoadState, InFile, FileAscending, LoadsBehind;
      ShareAlignment();
      var order := if bare then [1, 0, 2] else [0, 1, 2];
      var offset: nat, end: nat := headerSize, base;
      segments := [];
      Nothing(outputs, base, bare, dynamic, page, headerSize);
      var i := 0;
      ghost var done: set<nat> := {};
      while i < 3
        invariant i <= 3 && AllSections(old(outputs), outputs) && |outputs| == OutputCount && Valid() && FileBacked(outputs)
        invariant done == if i == 0 then {} else if i == 1 then {order[0]} else if i == 2 then {0, 1} else {0, 1, 2}
        invariant Present(old(outputs), segments, bare, done)
        invariant Settled(outputs, segments, dynamic, page, done) && Tight(outputs, segments, bare, dynamic, page, headerSize)
        invariant Stacked(Others(segments), base, page) && (i < 3 || !Relocated(2) ==> Stacked(segments, base, page))
        invariant Plain(Others(segments)) && (i < 3 ==> end == Top(segments, base) && Plain(segments))
        invariant FileState(outputs, segments, dynamic, offset) && LoadState(segments, Relocated(2)) && (i == 0 ==> offset == headerSize)
        invariant Based(segments, bare, base) && (Relocated(2) ==> DataAt(segments, dataBase))
        invariant i == 0 ==> segments == [] && offset == headerSize
        invariant i == 3 && dynamic && outputs[DataRelRo].pieces != [] ==>
          HasRelro(segments, outputs, relroOffset, relroAddress, relroSize, page)
      {
        var g := order[i];
        ghost var was := outputs;
        var made, next := LayGroup(g, segments == [], offset, end);
        SameNeed(old(outputs), was, g, bare);
        DoneGroups(was, segments, dynamic, page, done);
        AddedPresent(old(outputs), segments, made, g, bare, done);
        SectionsKept(old(outputs), was, outputs, Members(g, dynamic) + [ThreadBss]);
        Added(was, outputs, segments, made, g, dynamic, page, done);
        AddedTight(was, outputs, segments, made, g, bare, dynamic, page, headerSize, offset);
        AddedFile(was, outputs, segments, made, g, dynamic, page, done, offset, next);
        AddedLoad(segments, made, g, base, page, end, Relocated(2));
        AddedStack(segments, made, g, bare, base, dataBase, page);
        if g == 2 && dynamic && outputs[DataRelRo].pieces != [] {
          AddedRelro(segments, made, outputs, relroOffset, relroAddress, relroSize, page);
        }
        segments := segments + made;
        if made != [] {
          end := End(made[0]);
        }
        offset, i, done := next, i + 1, done + {g};
      }
      Separation(outputs, segments, base, dataBase, dynamic, page, Relocated(2), bare);
      InTheEnd(outputs, segments, dynamic, offset, Relocated(2));
    }

    /** Refuses an image that leaves its memory regions. With data memory behind the image's, what is accepted has no overlap. */
    method LayOutInRegions(headerSize: nat, imageEnd: nat, dataEnd: nat) returns (segments: seq<Segment>, ok: bool)
      requires Valid() && FileBacked(outputs)
      modifies this
      ensures AllSections(old(outputs), outputs) && Settled(outputs, segments, dynamic, page, {0, 1, 2})
      ensures ok <==> forall a :: 0 <= a < |segments| ==> InRegion(segments[a], dataBase, imageEnd, dataEnd)
      ensures ok && (Relocated(2) ==> 0 < imageEnd <= dataBase) ==> NoClash(outputs)
    {
      hide Multiple, Proper, PowerOfTwo, Settled, Others, AllSections, AllApart, NoClash, Ascending, OutOfTheWay, Tight, FileBacked, Present, HasRelro;
      segments := LayOut(headerSize);
      ok := true;
      var i := 0;
      while i < |segments|
        invariant i <= |segments| && (ok <==> forall a :: 0 <= a < i ==> InRegion(segments[a], dataBase, imageEnd, dataEnd))
      {
        var s := segments[i];
        var limit := if dataBase != 0 && s.group == 2 then dataEnd else imageEnd;
        if limit != 0 && (s.address > limit || s.memorySize > limit - s.address) {
          ok := false;
        }
        if imageEnd != 0 && (s.loadAddress > imageEnd || s.fileSize > imageEnd - s.loadAddress) {
          ok := false;
        }
        i := i + 1;
      }
      if ok && Relocated(2) && 0 < imageEnd <= dataBase {
        RegionsApart(segments, base, dataBase, imageEnd, dataEnd);
      } else if !Relocated(2) {
        ApartNoClash(outputs);
      }
    }
  }

  // ----- the file -----

  /** Members of a segment stand in the file as in memory, those with contents within the segment's bytes there. */
  predicate InFile(outputs: seq<Output>, s: Segment, dynamic: bool) {
    && |outputs| == OutputCount && s.group < 3 && Distinct(Members(s.group, dynamic)) && s.fileSize <= s.memorySize
    && forall i :: 0 <= i < |Members(s.group, dynamic)| ==> StandsInFile(outputs[Members(s.group, dynamic)[i]], s)
  }

  predicate StandsInFile(o: Output, s: Segment) {
    o.fileOffset - s.offset == o.address - s.address >= 0 && (!o.nobits ==> o.fileOffset + o.size <= s.offset + s.fileSize)
  }

  /** Segments follow one another in the file. */
  predicate FileAscending(segments: seq<Segment>) {
    forall a, b :: 0 <= a < b < |segments| ==> segments[a].offset + segments[a].fileSize <= segments[b].offset
  }

  predicate FileState(outputs: seq<Output>, segments: seq<Segment>, dynamic: bool, offset: nat) {
    && FileAscending(segments)
    && forall a :: 0 <= a < |segments| ==> InFile(outputs, segments[a], dynamic) && segments[a].offset + segments[a].fileSize <= offset
  }

  lemma AllInFile(outputs: seq<Output>, s: Segment, dynamic: bool, delta: int, lo: int, hi: int)
    requires |outputs| == OutputCount && s.group < 3 && Distinct(Members(s.group, dynamic)) && Mapped(outputs, Members(s.group, dynamic), delta)
    requires Ordered(outputs, Members(s.group, dynamic), lo, hi)
    requires delta == s.address - s.offset && s.address <= lo && hi <= s.address + s.fileSize && s.fileSize <= s.memorySize
    ensures InFile(outputs, s, dynamic)
  {
    hide Members;
    var list := Members(s.group, dynamic);
    forall i | 0 <= i < |list|
      ensures StandsInFile(outputs[list[i]], s)
    {
      assert Laid(outputs[list[i]]);
    }
  }

  lemma ZeroFilled(files: seq<Output>, now: seq<Output>)
    requires |files| == |now| == OutputCount && FileBacked(files) && SamePieces(files[Bss], now[Bss])
    ensures now[Bss].nobits
  {
  }

  lemma DataInFile(files: seq<Output>, now: seq<Output>, dynamic: bool, delta: int, at: nat, n1: nat, n2: nat, n3: nat, s: Segment)
    requires |files| == |now| == OutputCount && now == files[ThreadBss := now[ThreadBss]][Bss := now[Bss]]
    requires Distinct(DataHead(dynamic)) && Distinct(DataRest) && Distinct(Members(2, dynamic))
    requires Ordered(files, DataHead(dynamic), delta + at, delta + n1) && Ordered(files, DataRest, delta + n2, delta + n3)
    requires Mapped(files, DataHead(dynamic), delta) && Mapped(files, DataRest, delta)
    requires now[Bss].address == delta + now[Bss].fileOffset && now[Bss].nobits && at <= n1 <= n2 <= n3 <= now[Bss].fileOffset
    requires s.group == 2 && delta == s.address - s.offset && s.offset <= at && s.offset + s.fileSize == n3 && s.fileSize <= s.memorySize
    ensures InFile(now, s, dynamic)
  {
    hide Distinct;
    DataMembers(dynamic);
    var list, head := Members(2, dynamic), DataHead(dynamic);
    forall i | 0 <= i < |list|
      ensures list[i] < OutputCount && StandsInFile(now[list[i]], s)
    {
      if i < |head| {
        assert list[i] == head[i] && head[i] in head && now[list[i]] == files[head[i]];
      } else if i < |head| + 3 {
        assert list[i] == DataRest[i - |head|] && now[list[i]] == files[DataRest[i - |head|]];
      }
    }
  }

  lemma AddedFile(was: seq<Output>, now: seq<Output>, segments: seq<Segment>, made: seq<Segment>, g: nat, dynamic: bool, page: nat, done: set<nat>,
                  offset: nat, next: nat)
    requires |was| == OutputCount && Settled(was, segments, dynamic, page, done) && g < 3 && g !in done && FileState(was, segments, dynamic, offset)
    requires OnlyThese(was, now, Members(g, dynamic) + [ThreadBss]) && |made| <= 1 && offset <= next
    requires made != [] ==>
               && made[0].group == g && InFile(now, made[0], dynamic)
               && (segments == [] || offset <= made[0].offset) && made[0].offset + made[0].fileSize == next
    ensures FileState(now, segments + made, dynamic, next)
  {
    hide InFile, Members, OnlyThese;
    DoneGroups(was, segments, dynamic, page, done);
    var longer := segments + made;
    forall a | 0 <= a < |longer|
      ensures InFile(now, longer[a], dynamic) && longer[a].offset + longer[a].fileSize <= next
    {
      if a < |segments| {
        assert longer[a] == segments[a] && segments[a].group in done;
        InFileKept(was, now, segments[a], g, dynamic);
      }
    }
  }

  lemma InFileKept(was: seq<Output>, now: seq<Output>, s: Segment, g: nat, dynamic: bool)
    requires OnlyThese(was, now, Members(g, dynamic) + [ThreadBss]) && g < 3 && s.group != g && InFile(was, s, dynamic)
    ensures InFile(now, s, dynamic)
  {
    hide Members;
    OtherMembers(s.group, g, dynamic);
    var list := Members(s.group, dynamic);
    forall i | 0 <= i < |list|
      ensures StandsInFile(now[list[i]], s)
    {
      assert now[list[i]] == was[list[i]];
    }
  }

  // ----- load addresses -----

  /** The image of data that moves at startup lies behind all other segments. */
  predicate LoadsBehind(data: Segment, others: seq<Segment>) {
    forall s :: s in others ==> End(s) <= data.loadAddress
  }

  predicate LoadState(segments: seq<Segment>, relocated: bool) {
    && (forall s :: s in Others(segments) ==> s.loadAddress == s.address)
    && (forall s :: s in segments && s.group == 2 ==>
          if relocated then LoadsBehind(s, Others(segments)) else s.loadAddress == s.address)
  }

  lemma AddedLoad(segments: seq<Segment>, made: seq<Segment>, g: nat, base: nat, page: nat, end: nat, relocated: bool)
    requires page > 0 && Stacked(segments, base, page) && Plain(segments) && LoadState(segments, relocated) && end == Top(segments, base) && |made| <= 1
    requires made != [] ==> made[0].group == g && if relocated && g == 2 then end <= made[0].loadAddress else made[0].loadAddress == made[0].address
    ensures LoadState(segments + made, relocated)
  {
    hide Stacked;
    var longer := segments + made;
    if made == [] {
      assert longer == segments;
    } else {
      assert longer[|segments|] == made[0] && longer[..|segments|] == segments;
      forall s | s in segments
        ensures End(s) <= end
      {
        var a :| 0 <= a < |segments| && segments[a] == s;
        BelowTop(segments, base, page, a);
      }
    }
  }

  lemma BelowTop(segments: seq<Segment>, base: nat, page: nat, a: nat)
    requires Stacked(segments, base, page) && a < |segments|
    ensures End(segments[a]) <= Top(segments, base)
  {
    hide Stacked;
    StackAscends(segments, base, page, |segments| - 1);
  }

  lemma InTheEnd(outputs: seq<Output>, segments: seq<Segment>, dynamic: bool, offset: nat, relocated: bool)
    requires FileState(outputs, segments, dynamic, offset) && LoadState(segments, relocated)
    ensures (forall s :: s in segments ==> InFile(outputs, s, dynamic)) && FileAscending(segments)
    ensures forall s :: s in Others(segments) ==> s.loadAddress == s.address
    ensures forall s :: s in segments && s.group == 2 ==>
              if relocated then LoadsBehind(s, Others(segments)) else s.loadAddress == s.address
  {
    hide InFile;
  }

  // ----- memory regions -----

  /** The segment ends before its region does, and its file contents before the image's; no limit is written as zero. */
  predicate InRegion(s: Segment, dataBase: nat, imageEnd: nat, dataEnd: nat) {
    var limit := if dataBase != 0 && s.group == 2 then dataEnd else imageEnd;
    (limit != 0 ==> End(s) <= limit) && (imageEnd != 0 ==> s.loadAddress + s.fileSize <= imageEnd)
  }

  lemma RegionsApart(segments: seq<Segment>, base: nat, dataBase: nat, imageEnd: nat, dataEnd: nat)
    requires 0 < imageEnd <= dataBase && Plain(Others(segments)) && forall s :: s in segments ==> InRegion(s, dataBase, imageEnd, dataEnd)
    ensures forall s :: s in segments && s.group == 2 && s.address == dataBase ==> OutOfTheWay(s, Others(segments), base)
  {
    var others := Others(segments);
    forall s | s in others
      ensures End(s) <= dataBase
    {
      var a :| 0 <= a < |others| && others[a] == s;
      assert s == segments[a] && InRegion(s, dataBase, imageEnd, dataEnd);
    }
  }

  // ----- the stack of segments -----

  function PageStart(address: nat, page: nat): int
    requires page > 0
  {
    address - address % page
  }

  /** Where the segments so far end. */
  function Top(segments: seq<Segment>, base: nat): nat {
    if segments == [] then base else End(segments[|segments| - 1])
  }

  /** Every segment starts on the first page behind the one before it. */
  predicate Stacked(segments: seq<Segment>, base: nat, page: nat) {
    page > 0 && forall a :: 0 <= a < |segments| ==> PageStart(segments[a].address, page) == AlignUp(Top(segments[..a], base), page)
  }

  /** The segments without the data segment, which comes last. */
  function Others(segments: seq<Segment>): (r: seq<Segment>)
    ensures r <= segments
  {
    if segments != [] && segments[|segments| - 1].group == 2 then segments[..|segments| - 1] else segments
  }

  /** A bare image begins at its base. */
  predicate Based(segments: seq<Segment>, bare: bool, base: nat) {
    bare && Others(segments) != [] ==> segments[0].address == base
  }

  predicate DataAt(segments: seq<Segment>, dataBase: nat) {
    forall s :: s in segments && s.group == 2 ==> s.address == dataBase
  }

  predicate Plain(segments: seq<Segment>) {
    forall a :: 0 <= a < |segments| ==> segments[a].group != 2
  }

  /** Every segment starts on a page behind those before it. */
  predicate Ascending(segments: seq<Segment>, page: nat)
    requires page > 0
  {
    forall a, b :: 0 <= a < b < |segments| ==> PageStart(segments[b].address, page) >= End(segments[a])
  }

  lemma AddedStack(segments: seq<Segment>, made: seq<Segment>, g: nat, bare: bool, base: nat, dataBase: nat, page: nat)
    requires page > 0 && |made| <= 1 && (made != [] ==> made[0].group == g) && Stacked(segments, base, page) && Plain(segments)
    requires Based(segments, bare, base) && (bare && segments == [] && g != 2 && made != [] ==> made[0].address == base)
    ensures Based(segments + made, bare, base) && ((g == 2 && made != [] ==> made[0].address == dataBase) ==> DataAt(segments + made, dataBase))
    ensures Others(segments + made) == if g == 2 then segments else segments + made
    ensures Plain(Others(segments + made)) && (g != 2 ==> Plain(segments + made))
    ensures (made != [] ==> PageStart(made[0].address, page) == AlignUp(Top(segments, base), page)) ==> Stacked(segments + made, base, page)
    ensures Top(segments + made, base) == if made == [] then Top(segments, base) else End(made[0])
  {
    hide PageStart, AlignUp;
    var longer := segments + made;
    if made == [] {
      assert longer == segments;
    } else {
      assert longer[..|segments|] == segments && longer[|segments|] == made[0];
      forall a | 0 <= a < |segments|
        ensures longer[a] == segments[a] && longer[..a] == segments[..a]
      {
      }
    }
  }

  /** A stack ascends from its base. */
  lemma {:induction false} StackAscends(segments: seq<Segment>, base: nat, page: nat, b: nat)
    requires Stacked(segments, base, page) && b < |segments|
    ensures base <= PageStart(segments[b].address, page) <= segments[b].address
    ensures forall a :: 0 <= a < b ==> End(segments[a]) <= PageStart(segments[b].address, page)
  {
    hide PageStart, AlignUp;
    AlignUpFacts(Top(segments[..b], base), page);
    StartBelow(segments[b].address, page);
    if b > 0 {
      StackAscends(segments, base, page, b - 1);
    }
  }

  lemma StartBelow(address: nat, page: nat)
    requires page > 0
    ensures 0 <= PageStart(address, page) <= address < PageStart(address, page) + page
  {
  }

  // ----- pages -----

  /** The segment has a byte on the page that starts at `p`. */
  predicate Touches(s: Segment, p: nat, page: nat) {
    Multiple(p, page) && s.memorySize > 0 && s.address < p + page && p < End(s)
  }

  ghost predicate SharePage(s: Segment, t: Segment, page: nat) {
    exists p :: Touches(s, p, page) && Touches(t, p, page)
  }

  ghost predicate OwnPages(data: Segment, others: seq<Segment>, page: nat) {
    forall s :: s in others ==> !SharePage(data, s, page)
  }

  /** The data starts behind the other segments or ends before their base; empty segments are in nobody's way. */
  predicate OutOfTheWay(data: Segment, others: seq<Segment>, base: nat) {
    data.memorySize == 0 || End(data) <= base || forall s :: s in others && s.memorySize > 0 ==> End(s) <= data.address
  }

  /** Data at an address of its own. */
  ghost predicate DataElsewhere(data: Segment, others: seq<Segment>, base: nat, dataBase: nat, page: nat) {
    data.address == dataBase && (OwnPages(data, others, page) <==> OutOfTheWay(data, others, base))
  }

  lemma NextMultiple(x: nat, y: nat, page: nat)
    requires page > 1 && Multiple(x, page) && Multiple(y, page) && x < y + page
    ensures x <= y
  {
    hide Multiple;
    var a := PageNumber(x, page);
    var b := PageNumber(y, page);
    NextPage(a, b, page);
  }

  lemma PageNumber(x: nat, page: nat) returns (a: nat)
    requires page > 1 && Multiple(x, page)
    ensures x == a * page
  {
    DivMod(x, page);
    a := x / page;
  }

  lemma NextPage(a: nat, b: nat, page: nat)
    ensures if a > b then a * page >= b * page + page else a * page <= b * page
  {
    if a > b {
      Monotone(b + 1, page, a, page);
      assert (b + 1) * page == b * page + page;
    } else {
      Monotone(a, page, b, page);
    }
  }

  /** Away from the others by address is away by pages. */
  lemma AwayOnPages(data: Segment, others: seq<Segment>, base: nat, page: nat)
    requires page > 1 && Stacked(others, base, page) && Multiple(base, page) && Multiple(data.address, page)
    requires OutOfTheWay(data, others, base)
    ensures OwnPages(data, others, page)
  {
    hide Multiple, PageStart, AlignUp;
    forall s | s in others
      ensures !SharePage(data, s, page)
    {
      if p :| Touches(data, p, page) && Touches(s, p, page) {
        var b :| 0 <= b < |others| && others[b] == s;
        StackAscends(others, base, page, b);
        if End(data) <= base {
          NextMultiple(base, p, page);
        } else {
          NextMultiple(data.address, p, page);
        }
        assert false;
      }
    }
  }

  /** Two segments stacked from their base leave no page between them out. */
  lemma NoPageBetween(others: seq<Segment>, base: nat, page: nat, a: nat, p: nat) returns (t: Segment)
    requires page > 1 && Stacked(others, base, page) && |others| <= 2 && others != [] && others[0].address == base
    requires a < |others| && Multiple(p, page) && base <= p < End(others[a]) && others[a].memorySize > 0
    ensures t in others && Touches(t, p, page)
  {
    hide Multiple, PageStart, AlignUp;
    t := others[a];
    StartBelow(t.address, page);
    if a == 1 && PageStart(t.address, page) > p {
      t := others[0];
      assert others[..1] == [t];
      AlignUpFacts(End(t), page);
      if End(t) <= p {
        NextMultiple(AlignUp(End(t), page), p, page);
        assert false;
      }
    }
  }

  lemma AwayExactly(data: Segment, others: seq<Segment>, base: nat, page: nat)
    requires page > 1 && Stacked(others, base, page) && Multiple(base, page) && Multiple(data.address, page)
    requires |others| <= 2 && (others != [] ==> others[0].address == base)
    ensures OwnPages(data, others, page) <==> OutOfTheWay(data, others, base)
  {
    hide Multiple, PageStart, AlignUp, Stacked;
    if OutOfTheWay(data, others, base) {
      AwayOnPages(data, others, base, page);
    } else {
      var s :| s in others && s.memorySize > 0 && data.address < End(s);
      var a :| 0 <= a < |others| && others[a] == s;
      var p := if data.address >= base then data.address else base;
      StackAscends(others, base, page, a);
      var t := NoPageBetween(others, base, page, a, p);
      assert Touches(data, p, page) && SharePage(data, t, page);
    }
  }

  lemma NoMembers(outputs: seq<Output>, g: nat, bare: bool, dynamic: bool)
    requires |outputs| == OutputCount && g < 3 && !Needed(outputs, g, bare) && Distinct(Members(g, dynamic))
    ensures Empty(outputs, Members(g, dynamic))
  {
    MembersApart(dynamic);
    var list := Members(g, dynamic);
    forall i | 0 <= i < |list|
      ensures outputs[list[i]].pieces == []
    {
      assert list[i] in list && InGroup(list[i], g, dynamic);
      assert FirstOf(g) <= list[i] <= LastOf(g) || list[i] == DataRelRo || list[i] == Bss;
    }
  }

  /** Groups have segments if they need them. */
  ghost predicate Present(outputs: seq<Output>, segments: seq<Segment>, bare: bool, done: set<nat>)
    requires |outputs| == OutputCount
  {
    forall g :: g in done ==> g < 3 && (Needed(outputs, g, bare) <==> exists a :: 0 <= a < |segments| && segments[a].group == g)
  }

  lemma AddedPresent(outputs: seq<Output>, segments: seq<Segment>, made: seq<Segment>, g: nat, bare: bool, done: set<nat>)
    requires |outputs| == OutputCount && Present(outputs, segments, bare, done) && g < 3 && g !in done
    requires |made| <= 1 && (made != [] ==> made[0].group == g) && (made != [] <==> Needed(outputs, g, bare))
    requires forall a :: 0 <= a < |segments| ==> segments[a].group in done
    ensures Present(outputs, segments + made, bare, done + {g})
  {
    hide Needed;
    var longer := segments + made;
    forall h | h in done + {g}
      ensures h < 3 && (Needed(outputs, h, bare) <==> exists a :: 0 <= a < |longer| && longer[a].group == h)
    {
      if h == g {
        if made != [] {
          assert longer[|segments|].group == g;
        } else {
          assert longer == segments;
        }
      } else if a :| 0 <= a < |segments| && segments[a].group == h {
        assert longer[a].group == h;
      }
    }
  }

  lemma DoneGroups(outputs: seq<Output>, segments: seq<Segment>, dynamic: bool, page: nat, done: set<nat>)
    requires |outputs| == OutputCount && Settled(outputs, segments, dynamic, page, done)
    ensures forall a :: 0 <= a < |segments| ==> segments[a].group in done
  {
  }

  /** Segments of the groups in `done`: addresses congruent to offsets, members in order; groups without one have no sections. */
  ghost predicate Settled(outputs: seq<Output>, segments: seq<Segment>, dynamic: bool, page: nat, done: set<nat>)
    requires |outputs| == OutputCount
  {
    && (forall a :: 0 <= a < |segments| ==> segments[a].group in done && Fitted(outputs, segments[a], dynamic, page))
    && (forall a, b :: 0 <= a < b < |segments| ==> segments[a].group != segments[b].group)
    && (forall g :: g in done ==> g < 3 && Covered(outputs, segments, dynamic, g))
  }

  predicate Fitted(outputs: seq<Output>, s: Segment, dynamic: bool, page: nat)
    requires |outputs| == OutputCount
  {
    && Multiple(s.address - s.offset, page) && Distinct(Members(s.group, dynamic))
    && Ordered(outputs, Members(s.group, dynamic), s.address, End(s))
  }

  ghost predicate Covered(outputs: seq<Output>, segments: seq<Segment>, dynamic: bool, g: nat)
    requires |outputs| == OutputCount
  {
    || (exists a :: 0 <= a < |segments| && segments[a].group == g)
    || (Distinct(Members(g, dynamic)) && Empty(outputs, Members(g, dynamic)))
  }

  /** No segment is larger than its outputs, padding and slack account for. */
  predicate Tight(outputs: seq<Output>, segments: seq<Segment>, bare: bool, dynamic: bool, page: nat, headers: nat) {
    forall a :: 0 <= a < |segments| ==> SnugFit(outputs, segments[a], bare, dynamic, page, headers)
  }

  predicate SnugFit(outputs: seq<Output>, s: Segment, bare: bool, dynamic: bool, page: nat, headers: nat) {
    && |outputs| == OutputCount && s.group < 3 && Distinct(Members(s.group, dynamic))
    && s.memorySize <= Slack(s.group, bare, dynamic, page, headers) + Room(outputs, Members(s.group, dynamic))
  }

  lemma AddedTight(was: seq<Output>, now: seq<Output>, segments: seq<Segment>, made: seq<Segment>, g: nat, bare: bool, dynamic: bool, page: nat,
                   headers: nat, offset: nat)
    requires OnlyThese(was, now, Members(g, dynamic) + [ThreadBss]) && Tight(was, segments, bare, dynamic, page, headers)
    requires |made| <= 1 && (g == 0 && !bare ==> offset == headers)
    requires made != [] ==> made[0].group == g && SnugFit(now, made[0], bare, dynamic, page, offset)
    ensures Tight(now, segments + made, bare, dynamic, page, headers)
  {
    hide Members, Room;
    forall a | 0 <= a < |segments + made|
      ensures SnugFit(now, (segments + made)[a], bare, dynamic, page, headers)
    {
      if a < |segments| {
        var list := Members(segments[a].group, dynamic);
        assert SnugFit(was, segments[a], bare, dynamic, page, headers);
        forall i | 0 <= i < |list|
          ensures SamePieces(was[list[i]], now[list[i]])
        {
        }
        SameRoom(was, now, list);
      }
    }
  }

  /** The data segment begins with the protected range. */
  ghost predicate HasRelro(segments: seq<Segment>, outputs: seq<Output>, offset: nat, address: int, size: nat, page: nat)
    requires |outputs| == OutputCount
  {
    exists a :: 0 <= a < |segments| && segments[a].group == 2 && segments[a].offset == offset && segments[a].address == address && Protects(outputs, address, size, page)
  }

  lemma AddedRelro(segments: seq<Segment>, made: seq<Segment>, outputs: seq<Output>, offset: nat, address: int, size: nat, page: nat)
    requires |outputs| == OutputCount && outputs[DataRelRo].pieces != []
    requires made == [] ==> Distinct(Members(2, true)) && Empty(outputs, Members(2, true))
    requires made != [] ==> made[0].group == 2 && made[0].offset == offset && made[0].address == address && Protects(outputs, address, size, page)
    ensures HasRelro(segments + made, outputs, offset, address, size, page)
  {
    hide Protects;
    assert Members(2, true)[3] == DataRelRo;
    assert made != [] ==> (segments + made)[|segments|] == made[0];
  }

  lemma Nothing(outputs: seq<Output>, base: nat, bare: bool, dynamic: bool, page: nat, headers: nat)
    requires |outputs| == OutputCount && page > 0
    ensures Settled(outputs, [], dynamic, page, {}) && Tight(outputs, [], bare, dynamic, page, headers)
    ensures Stacked([], base, page) && Others([]) == [] && Plain([]) && Top([], base) == base
    ensures FileState(outputs, [], dynamic, headers) && LoadState([], true) && LoadState([], false)
    ensures (forall was: seq<Output> :: |was| == OutputCount ==> Present(was, [], bare, {})) && Based([], bare, base) && forall dataBase :: DataAt([], dataBase)
  {
  }

  lemma StartSections(was: seq<Output>, now: seq<Output>)
    requires |was| == OutputCount
    requires now == was[ThreadData := was[ThreadData].(align := SharedAlign(was, ThreadData))]
    ensures AllSections(was, now)
  {
  }

  /** Thread storage shares the alignment of its zero-filled part. */
  lemma Raised(data: Output, bss: Output, page: nat)
    requires Proper(data, page) && Proper(bss, page) && bss.align > data.align
    ensures Proper(data.(align := bss.align), page)
  {
  }

  lemma Added(was: seq<Output>, now: seq<Output>, segments: seq<Segment>, made: seq<Segment>, g: nat, dynamic: bool, page: nat, done: set<nat>)
    requires |was| == |now| == OutputCount && Settled(was, segments, dynamic, page, done) && g < 3 && g !in done
    requires OnlyThese(was, now, Members(g, dynamic) + [ThreadBss]) && |made| <= 1 && Distinct(Members(g, dynamic))
    requires made == [] ==> Empty(now, Members(g, dynamic))
    requires made != [] ==> made[0].group == g && Fitted(now, made[0], dynamic, page)
    ensures Settled(now, segments + made, dynamic, page, done + {g})
  {
    hide Fitted, Covered;
    var longer := segments + made;
    forall a | 0 <= a < |longer|
      ensures longer[a].group in done + {g} && Fitted(now, longer[a], dynamic, page)
    {
      if a < |segments| {
        assert longer[a] == segments[a];
        FittedKept(was, now, segments[a], g, dynamic, page);
      }
    }
    forall h | h in done + {g}
      ensures Covered(now, longer, dynamic, h)
    {
      CoveredKept(was, now, segments, made, g, h, dynamic);
    }
  }

  lemma FittedKept(was: seq<Output>, now: seq<Output>, s: Segment, g: nat, dynamic: bool, page: nat)
    requires OnlyThese(was, now, Members(g, dynamic) + [ThreadBss]) && s.group < 3 && g < 3 && s.group != g
    requires Fitted(was, s, dynamic, page)
    ensures Fitted(now, s, dynamic, page)
  {
    hide Ordered, Multiple;
    OtherMembers(s.group, g, dynamic);
    Kept(was, now, Members(s.group, dynamic), Members(g, dynamic) + [ThreadBss], s.address, End(s));
  }

  lemma CoveredKept(was: seq<Output>, now: seq<Output>, segments: seq<Segment>, made: seq<Segment>, g: nat, h: nat, dynamic: bool)
    requires OnlyThese(was, now, Members(g, dynamic) + [ThreadBss]) && g < 3 && h < 3 && Distinct(Members(g, dynamic))
    requires h != g ==> Covered(was, segments, dynamic, h)
    requires |made| <= 1 && (made == [] ==> Empty(now, Members(g, dynamic))) && (made != [] ==> made[0].group == g)
    ensures Covered(now, segments + made, dynamic, h)
  {
    hide Members, OnlyThese;
    var longer := segments + made;
    if h == g {
      assert made != [] ==> longer[|segments|].group == g;
    } else if exists a :: 0 <= a < |segments| && segments[a].group == h {
      var a :| 0 <= a < |segments| && segments[a].group == h;
      assert longer[a].group == h;
    } else {
      StaysEmpty(was, now, h, g, dynamic);
    }
  }

  lemma OtherMembers(h: nat, g: nat, dynamic: bool)
    requires h < 3 && g < 3 && h != g
    ensures Distinct(Members(h, dynamic))
    ensures forall i :: 0 <= i < |Members(h, dynamic)| ==> Members(h, dynamic)[i] !in Members(g, dynamic) + [ThreadBss]
  {
    MembersApart(dynamic);
    forall i | 0 <= i < |Members(h, dynamic)|
      ensures Members(h, dynamic)[i] !in Members(g, dynamic) + [ThreadBss]
    {
      var k := Members(h, dynamic)[i];
      assert k in Members(h, dynamic) && InGroup(k, h, dynamic) && !InGroup(k, g, dynamic);
    }
  }

  lemma StaysEmpty(was: seq<Output>, now: seq<Output>, h: nat, g: nat, dynamic: bool)
    requires OnlyThese(was, now, Members(g, dynamic) + [ThreadBss]) && h < 3 && g < 3 && h != g
    requires Distinct(Members(h, dynamic)) && Empty(was, Members(h, dynamic))
    ensures Empty(now, Members(h, dynamic))
  {
    OtherMembers(h, g, dynamic);
  }

  // ----- overlap -----

  predicate Apart(p: Piece, q: Piece) {
    p.address + p.size <= q.address || q.address + q.size <= p.address
  }

  /** Some byte belongs to both sections. */
  predicate Clash(p: Piece, q: Piece) {
    p.size > 0 && q.size > 0 && !Apart(p, q)
  }

  /** Two different sections, neither of them zero-filled thread storage. */
  predicate Pair(outputs: seq<Output>, k: nat, i: nat, l: nat, j: nat) {
    && |outputs| == OutputCount && k < OutputCount && l < OutputCount && k != ThreadBss && l != ThreadBss && (k != l || i != j)
    && i < |outputs[k].pieces| && j < |outputs[l].pieces|
  }

  ghost predicate AllApart(outputs: seq<Output>) {
    forall k: nat, i: nat, l: nat, j: nat :: Pair(outputs, k, i, l, j) ==> Apart(outputs[k].pieces[i], outputs[l].pieces[j])
  }

  ghost predicate NoClash(outputs: seq<Output>) {
    forall k: nat, i: nat, l: nat, j: nat :: Pair(outputs, k, i, l, j) ==> !Clash(outputs[k].pieces[i], outputs[l].pieces[j])
  }

  lemma ApartNoClash(outputs: seq<Output>)
    requires AllApart(outputs)
    ensures NoClash(outputs)
  {
    hide Apart;
    forall k: nat, i: nat, l: nat, j: nat | Pair(outputs, k, i, l, j)
      ensures !Clash(outputs[k].pieces[i], outputs[l].pieces[j])
    {
      assert Apart(outputs[k].pieces[i], outputs[l].pieces[j]);
    }
  }

  predicate Away(s: Segment, t: Segment) {
    End(s) <= t.address || End(t) <= s.address
  }

  /** Sections overlap only if they are in two segments that do. */
  lemma NoOverlap(outputs: seq<Output>, segments: seq<Segment>, dynamic: bool, page: nat, k: nat, i: nat, l: nat, j: nat)
    requires |outputs| == OutputCount && Settled(outputs, segments, dynamic, page, {0, 1, 2}) && Pair(outputs, k, i, l, j)
    ensures Apart(outputs[k].pieces[i], outputs[l].pieces[j]) || exists a, b :: 0 <= a < b < |segments| && !Away(segments[a], segments[b])
    ensures Clash(outputs[k].pieces[i], outputs[l].pieces[j]) ==>
              exists a, b :: 0 <= a < b < |segments| && segments[a].memorySize > 0 && segments[b].memorySize > 0 && !Away(segments[a], segments[b])
    ensures Multiple(outputs[k].pieces[i].address, outputs[k].pieces[i].align)
  {
    hide Multiple, Laid, Aligned, Members, Settled;
    var a, m := Home(outputs, segments, dynamic, page, k);
    var b, n := Home(outputs, segments, dynamic, page, l);
    PieceInside(outputs[k], i);
    PieceInside(outputs[l], j);
    if k == l {
      PiecesApart(outputs[k], i, j);
    } else if a != b {
      var c, d := if a < b then a else b, if a < b then b else a;
      assert Away(segments[c], segments[d]) ==> Apart(outputs[k].pieces[i], outputs[l].pieces[j]);
    }
  }

  lemma AscendingStack(segments: seq<Segment>, base: nat, page: nat)
    requires page > 0 && Stacked(segments, base, page)
    ensures Ascending(segments, page)
    ensures forall a, b :: 0 <= a < b < |segments| ==> Away(segments[a], segments[b])
    ensures forall a :: 0 <= a < |segments| ==> base <= segments[a].address
  {
    hide Stacked, PageStart;
    forall b | 0 <= b < |segments|
      ensures base <= PageStart(segments[b].address, page) <= segments[b].address
      ensures forall a :: 0 <= a < b ==> End(segments[a]) <= PageStart(segments[b].address, page)
    {
      StackAscends(segments, base, page, b);
    }
  }

  lemma AllAway(outputs: seq<Output>, segments: seq<Segment>, dynamic: bool, page: nat)
    requires |outputs| == OutputCount && Settled(outputs, segments, dynamic, page, {0, 1, 2})
    ensures (forall a, b :: 0 <= a < b < |segments| ==> Away(segments[a], segments[b])) ==> AllApart(outputs)
    ensures (forall a, b :: 0 <= a < b < |segments| ==>
               segments[a].memorySize == 0 || segments[b].memorySize == 0 || Away(segments[a], segments[b])) ==> NoClash(outputs)
  {
    hide Settled, Away, Apart, Clash;
    forall k: nat, i: nat, l: nat, j: nat | Pair(outputs, k, i, l, j)
      ensures Apart(outputs[k].pieces[i], outputs[l].pieces[j]) || exists a, b :: 0 <= a < b < |segments| && !Away(segments[a], segments[b])
      ensures Clash(outputs[k].pieces[i], outputs[l].pieces[j]) ==>
                exists a, b :: 0 <= a < b < |segments| && segments[a].memorySize > 0 && segments[b].memorySize > 0 && !Away(segments[a], segments[b])
    {
      NoOverlap(outputs, segments, dynamic, page, k, i, l, j);
    }
  }

  lemma AtMostTwo(outputs: seq<Output>, segments: seq<Segment>, dynamic: bool, page: nat)
    requires |outputs| == OutputCount && Settled(outputs, segments, dynamic, page, {0, 1, 2}) && Plain(Others(segments))
    ensures |Others(segments)| <= 2
  {
    hide Fitted, Covered;
    var others := Others(segments);
    forall a | 0 <= a < |others|
      ensures others[a].group < 2
    {
      assert others[a] == segments[a] && segments[a].group in {0, 1, 2};
    }
    if |others| > 2 {
      GroupTwice(others);
      assert false;
    }
  }

  lemma GroupTwice(segments: seq<Segment>)
    requires |segments| > 2 && forall a :: 0 <= a < |segments| ==> segments[a].group < 2
    ensures exists a, b :: 0 <= a < b < |segments| && segments[a].group == segments[b].group
  {
    assert segments[0].group == segments[1].group || segments[0].group == segments[2].group || segments[1].group == segments[2].group;
  }

  /** What the stack of segments means for sections, with the data on top or elsewhere. */
  lemma Separation(outputs: seq<Output>, segments: seq<Segment>, base: nat, dataBase: nat, dynamic: bool, page: nat, elsewhere: bool, bare: bool)
    requires |outputs| == OutputCount && Settled(outputs, segments, dynamic, page, {0, 1, 2}) && Plain(Others(segments))
    requires page > 1 && Multiple(base, page) && Multiple(dataBase, page) && Stacked(Others(segments), base, page)
    requires Based(segments, bare, base) && (elsewhere ==> bare && DataAt(segments, dataBase))
    requires !elsewhere ==> Stacked(segments, base, page)
    ensures Ascending(Others(segments), page)
    ensures !elsewhere ==> Ascending(segments, page) && AllApart(outputs)
    ensures elsewhere ==> (forall s :: s in segments && s.group == 2 ==> DataElsewhere(s, Others(segments), base, dataBase, page))
    ensures elsewhere && (forall s :: s in segments && s.group == 2 ==> OutOfTheWay(s, Others(segments), base)) ==> NoClash(outputs)
  {
    hide Stacked, Settled, Ascending, AllApart, NoClash, Multiple, OwnPages, OutOfTheWay;
    var others := Others(segments);
    AscendingStack(others, base, page);
    AllAway(outputs, segments, dynamic, page);
    if elsewhere {
      AtMostTwo(outputs, segments, dynamic, page);
      forall s | s in segments && s.group == 2
        ensures DataElsewhere(s, others, base, dataBase, page)
      {
        AwayExactly(s, others, base, page);
      }
      if forall s :: s in segments && s.group == 2 ==> OutOfTheWay(s, others, base) {
        DataAway(segments, base);
      }
    } else {
      AscendingStack(segments, base, page);
    }
  }

  lemma DataAway(segments: seq<Segment>, base: nat)
    requires forall s :: s in segments && s.group == 2 ==> OutOfTheWay(s, Others(segments), base)
    requires forall a, b :: 0 <= a < b < |Others(segments)| ==> Away(Others(segments)[a], Others(segments)[b])
    requires forall a :: 0 <= a < |Others(segments)| ==> base <= Others(segments)[a].address
    ensures forall a, b :: 0 <= a < b < |segments| ==>
              segments[a].memorySize == 0 || segments[b].memorySize == 0 || Away(segments[a], segments[b])
  {
    var others := Others(segments);
    forall a, b | 0 <= a < b < |segments|
      ensures segments[a].memorySize == 0 || segments[b].memorySize == 0 || Away(segments[a], segments[b])
    {
      assert segments[a] == others[a];
      if b < |others| {
        assert segments[b] == others[b];
      } else {
        assert OutOfTheWay(segments[b], others, base);
      }
    }
  }

  // ----- data placed over code -----

  /** Sixteen bytes of code and sixteen of data. */
  function Small(): seq<Output> {
    seq(OutputCount, k => Output(1, k == ThreadBss || k == Bss, if k == Text || k == Data then [Piece(1, 16, 0, 0)] else [], 0, 0, 0))
  }

  /** A bare image whose data is sent to the address of its code: the two sections share all their bytes. */
  method DataOverCode(base: nat, page: nat) returns (outputs: seq<Output>)
    requires page > 1 && PowerOfTwo(page) && Multiple(base, page) && base != 0
    ensures Pair(outputs, Text, 0, Data, 0) && Clash(outputs[Text].pieces[0], outputs[Data].pieces[0])
    ensures outputs[Text].pieces[0].address == outputs[Data].pieces[0].address == base
  {
    hide Settled, Tight, Present, AllSections, Multiple, Ascending, DataElsewhere, OutOfTheWay, NoClash, AllApart, HasRelro;
    SmallIsProper(page);
    var image := new Linker(base, page, base, true, false, Small());
    var segments := image.LayOut(0);
    outputs := image.outputs;
    DataAtItsBase(segments, base, page);
    BothAtBase(outputs, segments, base, page);
  }

  lemma SmallIsProper(page: nat)
    requires page > 1
    ensures FileBacked(Small()) && forall k :: 0 <= k < OutputCount ==> Proper(Small()[k], page)
  {
  }

  lemma DataAtItsBase(segments: seq<Segment>, base: nat, page: nat)
    requires forall s :: s in segments && s.group == 2 ==> DataElsewhere(s, Others(segments), base, base, page)
    ensures DataAt(segments, base)
  {
  }

  /** The only output with sections takes all the room. */
  lemma {:induction false} RoomOnly(outputs: seq<Output>, list: seq<nat>, k: nat)
    requires |outputs| == OutputCount && Distinct(list)
    requires forall i :: 0 <= i < |list| ==> Unit(outputs[list[i]].align) == 1 && (list[i] != k ==> outputs[list[i]].pieces == [])
    ensures Room(outputs, list) == if k in list then SectionRoom(outputs[k].pieces) else 0
  {
    if list != [] {
      var front, last := list[..|list| - 1], list[|list| - 1];
      RoomOnly(outputs, front, k);
      assert list == front + [last];
      assert last !in front;
    }
  }

  /** A section alone in its segment stands at the segment's address. */
  lemma AloneInside(outputs: seq<Output>, segments: seq<Segment>, page: nat, k: nat, a: nat, m: nat)
    requires AllSections(Small(), outputs) && (k == Text || k == Data) && a < |segments|
    requires Tight(outputs, segments, true, false, page, 0) && Fitted(outputs, segments[a], false, page)
    requires m < |Members(segments[a].group, false)| && Members(segments[a].group, false)[m] == k && segments[a].group == if k == Text then 1 else 2
    ensures |outputs[k].pieces| == 1 && outputs[k].pieces[0].address == segments[a].address && outputs[k].pieces[0].size == 16
  {
    hide Multiple, Members, Aligned;
    var s := segments[a];
    var list := Members(s.group, false);
    assert SnugFit(outputs, s, true, false, page, 0);
    forall i | 0 <= i < OutputCount
      ensures Unit(outputs[i].align) == 1 && (i != Text && i != Data ==> outputs[i].pieces == [])
      ensures i == Text || i == Data ==> |outputs[i].pieces| == 1 && outputs[i].pieces[0].align == 1 && outputs[i].pieces[0].size == 16
    {
      assert SamePieces(Small()[i].(align := SharedAlign(Small(), i)), outputs[i]);
    }
    OtherList(s.group);
    RoomOnly(outputs, list, k);
    assert SectionRoom(outputs[k].pieces) == 16 by {
      assert outputs[k].pieces[..0] == [];
    }
    assert k in list;
    assert Laid(outputs[list[m]]) && s.address <= outputs[list[m]].address && outputs[list[m]].address + outputs[list[m]].size <= End(s);
  }

  lemma OtherList(g: nat)
    requires g == 1 || g == 2
    ensures Data !in Members(1, false) && Text !in Members(2, false)
  {
    MembersApart(false);
  }

  lemma BothAtBase(outputs: seq<Output>, segments: seq<Segment>, base: nat, page: nat)
    requires page > 1 && AllSections(Small(), outputs) && Settled(outputs, segments, false, page, {0, 1, 2})
    requires Present(Small(), segments, true, {0, 1, 2}) && Tight(outputs, segments, true, false, page, 0)
    requires Based(segments, true, base) && Plain(Others(segments)) && DataAt(segments, base)
    ensures |outputs| == OutputCount && forall k :: k == Text || k == Data ==>
              |outputs[k].pieces| == 1 && outputs[k].pieces[0].address == base && outputs[k].pieces[0].size == 16
  {
    hide Multiple, Members, Aligned, Tight, Settled, Small, Fitted;
    SmallSections(outputs);
    OnlyCode(outputs, segments, page);
    forall k | k == Text || k == Data
      ensures |outputs[k].pieces| == 1 && outputs[k].pieces[0].address == base && outputs[k].pieces[0].size == 16
    {
      var a, m := Home(outputs, segments, false, page, k);
      HomeGroup(segments[a].group, k, m);
      AloneInside(outputs, segments, page, k, a, m);
      assert k == Data ==> segments[a] in segments;
    }
  }

  lemma SmallSections(outputs: seq<Output>)
    requires AllSections(Small(), outputs)
    ensures outputs[Text].pieces != [] && outputs[Data].pieces != [] && |Small()| == OutputCount
    ensures !Needed(Small(), 0, true)
  {
    assert SamePieces(Small()[Text].(align := SharedAlign(Small(), Text)), outputs[Text]);
    assert SamePieces(Small()[Data].(align := SharedAlign(Small(), Data)), outputs[Data]);
  }

  lemma HomeGroup(g: nat, k: nat, m: nat)
    requires g < 3 && (k == Text || k == Data) && m < |Members(g, false)| && Members(g, false)[m] == k
    ensures g == if k == Text then 1 else 2
  {
    MembersApart(false);
    assert k in Members(g, false) && InGroup(k, g, false);
  }

  /** Without read-only sections the code segment comes first. */
  lemma OnlyCode(outputs: seq<Output>, segments: seq<Segment>, page: nat)
    requires |outputs| == |Small()| == OutputCount && Settled(outputs, segments, false, page, {0, 1, 2}) && !Needed(Small(), 0, true)
    requires Present(Small(), segments, true, {0, 1, 2}) && Plain(Others(segments))
    ensures forall a :: 0 <= a < |segments| && segments[a].group == 1 ==> a == 0 && Others(segments) != []
    ensures forall a :: 0 <= a < |segments| ==> segments[a].group < 3
  {
    hide Fitted, Covered, Needed, Small;
    forall a | 0 <= a < |segments|
      ensures segments[a].group == 1 || segments[a].group == 2
    {
      assert segments[a].group in {0, 1, 2};
    }
    assert |Others(segments)| > 0 ==> Others(segments)[0] == segments[0];
  }

  lemma PieceInside(o: Output, i: nat)
    requires i < |o.pieces| && Laid(o) && Aligned(o)
    ensures o.address <= o.pieces[i].address && o.pieces[i].address + o.pieces[i].size <= o.address + o.size
    ensures Multiple(o.pieces[i].address, o.pieces[i].align)
  {
  }

  lemma PiecesApart(o: Output, i: nat, j: nat)
    requires i < |o.pieces| && j < |o.pieces| && i != j && Laid(o)
    ensures Apart(o.pieces[i], o.pieces[j])
  {
  }

  /** Where an output with sections was placed. */
  lemma Home(outputs: seq<Output>, segments: seq<Segment>, dynamic: bool, page: nat, k: nat) returns (a: nat, m: nat)
    requires |outputs| == OutputCount && Settled(outputs, segments, dynamic, page, {0, 1, 2})
    requires k < OutputCount && k != ThreadBss && outputs[k].pieces != []
    ensures a < |segments| && Fitted(outputs, segments[a], dynamic, page)
    ensures m < |Members(segments[a].group, dynamic)| && Members(segments[a].group, dynamic)[m] == k
  {
    var g := if k <= EhFrame || (k == DataRelRo && !dynamic) then 0 else if k <= Plt then 1 else 2;
    m := Position(g, k, dynamic);
    assert Covered(outputs, segments, dynamic, g);
    a :| 0 <= a < |segments| && segments[a].group == g;
  }

  lemma Position(g: nat, k: nat, dynamic: bool) returns (m: nat)
    requires g < 3 && InGroup(k, g, dynamic)
    ensures m < |Members(g, dynamic)| && Members(g, dynamic)[m] == k
  {
    m := if g == 0 then (if k <= EhFrame then k else EhFrame + 1)
         else if g == 1 then k - Text
         else if k == Bss then |DataHead(dynamic)| + 3
         else if k >= Data then |DataHead(dynamic)| + (k - Data)
         else k - Dynamic;
  }

  /** None of the outputs has sections. */
  predicate Empty(outputs: seq<Output>, list: seq<nat>)
    requires |outputs| == OutputCount && forall i :: 0 <= i < |list| ==> list[i] < OutputCount
  {
    forall i :: 0 <= i < |list| ==> outputs[list[i]].pieces == []
  }

  lemma SameOutputs(outputs: seq<Output>, list: seq<nat>)
    requires |outputs| == OutputCount
    ensures OnlyThese(outputs, outputs, list)
  {
  }

  lemma MoreThese(was: seq<Output>, now: seq<Output>, list: seq<nat>)
    requires OnlyThese(was, now, list)
    ensures OnlyThese(was, now, list + [ThreadBss])
  {
  }

  lemma StaysBacked(was: seq<Output>, now: seq<Output>, list: seq<nat>)
    requires OnlyThese(was, now, list) && FileBacked(was)
    ensures FileBacked(now)
  {
    forall k | 0 <= k < OutputCount
      ensures now[k].nobits == (k == ThreadBss || k == Bss)
    {
      assert SamePieces(was[k], now[k]);
    }
  }

  /** What placing the data segment's parts adds up to. */
  lemma DataDone(was: seq<Output>, files: seq<Output>, now: seq<Output>, dynamic: bool, delta: int, at: nat, start: nat,
                 n1: nat, n2: nat, n3: nat, end: int, page: nat)
    requires |was| == |files| == |now| == OutputCount && start <= at <= n1 <= n2 <= n3
    requires OnlyThese(was, files, DataHead(dynamic) + DataRest) && Distinct(DataHead(dynamic)) && Distinct(DataRest)
    requires Ordered(files, DataHead(dynamic), delta + at, delta + n1) && Ordered(files, DataRest, delta + n2, delta + n3)
    requires now == files[ThreadBss := now[ThreadBss]][Bss := now[Bss]]
    requires SamePieces(files[ThreadBss], now[ThreadBss]) && SamePieces(files[Bss], now[Bss])
    requires now[ThreadBss].address >= delta + n3 && now[Bss].address >= delta + n3
    requires Distinct(DataHead(dynamic) + DataRest + [Bss])
    requires Ordered(now, DataHead(dynamic) + DataRest + [Bss], delta + at, end)
    ensures OnlyThese(was, now, Members(2, dynamic) + [ThreadBss])
    ensures Distinct(Members(2, dynamic)) && Ordered(now, Members(2, dynamic), delta + start, end)
    ensures dynamic && Multiple(delta, page) && Multiple(n2, page) ==> Protects(now, delta + start, n2 - start, page)
    ensures now[DataRelRo] == files[DataRelRo]
  {
    hide Multiple, Ordered, Protects, OnlyThese, SamePieces, Distinct, DataHead, Room, OutputRoom;
    Widened(now, Members(2, dynamic), delta + at, end, delta + start, end);
    TwoMore(was, files, now, DataHead(dynamic) + DataRest);
    SameCount(files, now);
    if dynamic && Multiple(delta, page) && Multiple(n2, page) {
      DataProtected(files, now, delta, at, start, n1, n2, n3, page);
    }
  }

  lemma DataProtected(files: seq<Output>, now: seq<Output>, delta: int, at: nat, start: nat, n1: nat, n2: nat, n3: nat, page: nat)
    requires |files| == |now| == OutputCount && start <= at <= n1 <= n2 <= n3 && Distinct(DataHead(true)) && Distinct(DataRest)
    requires Ordered(files, DataHead(true), delta + at, delta + n1) && Ordered(files, DataRest, delta + n2, delta + n3)
    requires now == files[ThreadBss := now[ThreadBss]][Bss := now[Bss]]
    requires now[ThreadBss].address >= delta + n3 && now[Bss].address >= delta + n3
    requires Multiple(delta, page) && Multiple(n2, page)
    ensures Protects(now, delta + start, n2 - start, page)
  {
    hide Multiple, Ordered, Protects, Distinct, DataHead;
    FilesApart(files, true, delta, at, n1, n2, n3);
    BothUnmoved(files, DataHead(true), DataRest, now[ThreadBss], now[Bss], delta, at, n1, n2, n3);
    MultipleSum(delta, n2, page);
    Protected(now, delta, at, start, n1, n2, n3, page);
  }

  lemma DataRoom(was: seq<Output>, now: seq<Output>, dynamic: bool)
    requires |was| == |now| == OutputCount && now == was[ThreadBss := now[ThreadBss]][Bss := now[Bss]]
    requires Distinct(DataHead(dynamic)) && Distinct(Members(2, dynamic))
    ensures Room(now, Members(2, dynamic)) == Room(was, DataHead(dynamic)) + Room(was, DataRest) + OutputRoom(now[Bss])
  {
    hide OutputRoom;
    DataMembers(dynamic);
    var files := DataHead(dynamic) + DataRest;
    assert forall i :: 0 <= i < |files| ==> files[i] == Members(2, dynamic)[i];
    assert forall k :: k in DataHead(dynamic) ==> Dynamic <= k <= DataRelRo;
    forall i | 0 <= i < |files|
      ensures now[files[i]] == was[files[i]]
    {
      assert i < |DataHead(dynamic)| ==> files[i] in DataHead(dynamic);
    }
    SameRoom(was, now, files);
    RoomAppend(was, DataHead(dynamic), DataRest);
    assert (files + [Bss])[..|files|] == files;
  }

  lemma SameCount(was: seq<Output>, now: seq<Output>)
    requires |was| == |now| == OutputCount && now == was[ThreadBss := now[ThreadBss]][Bss := now[Bss]]
    ensures now[DataRelRo] == was[DataRelRo]
  {
  }

  lemma FilesApart(outputs: seq<Output>, dynamic: bool, delta: int, at: nat, n1: nat, n2: nat, n3: nat)
    requires |outputs| == OutputCount && n1 <= n2 && Distinct(DataHead(dynamic)) && Distinct(DataRest)
    requires Ordered(outputs, DataHead(dynamic), delta + at, delta + n1) && Ordered(outputs, DataRest, delta + n2, delta + n3)
    ensures var list := DataHead(dynamic) + DataRest;
            Distinct(list) && ThreadBss !in list && Bss !in list && Ordered(outputs, list, delta + at, delta + n3)
    ensures ThreadBss !in DataHead(dynamic) && ThreadBss !in DataRest && Bss !in DataHead(dynamic) && Bss !in DataRest
  {
    hide Ordered;
    var list := DataHead(dynamic) + DataRest;
    DataMembers(dynamic);
    assert Members(2, dynamic)[..|list|] == list;
    assert forall i :: 0 <= i < |list| ==> list[i] == Members(2, dynamic)[i];
    Concatenated(outputs, DataHead(dynamic), DataRest, delta + at, delta + n1, delta + n2, delta + n3);
    assert Members(2, dynamic)[|list|] == Bss;
  }

  const DataRest: seq<nat> := [Data, 18, ThreadData]

  lemma BothThese(o0: seq<Output>, o1: seq<Output>, o2: seq<Output>, a: seq<nat>, b: seq<nat>)
    requires OnlyThese(o0, o1, a) && OnlyThese(o1, o2, b)
    ensures OnlyThese(o0, o2, a + b)
  {
    forall k | 0 <= k < OutputCount
      ensures SamePieces(o0[k], o2[k]) && (k !in a + b ==> o2[k] == o0[k])
    {
      assert SamePieces(o0[k], o1[k]) && SamePieces(o1[k], o2[k]);
    }
  }

  lemma NonePlaced(outputs: seq<Output>, at: int)
    requires |outputs| == OutputCount
    ensures OnlyThese(outputs, outputs, []) && Ordered(outputs, [], at, at) && Room(outputs, []) == 0
    ensures forall delta: int :: Mapped(outputs, [], delta)
  {
  }

  lemma FilesBacked(outputs: seq<Output>, dynamic: bool)
    requires |outputs| == OutputCount && FileBacked(outputs)
    ensures forall i :: 0 <= i < |DataHead(dynamic)| ==> DataHead(dynamic)[i] < OutputCount && !outputs[DataHead(dynamic)[i]].nobits
    ensures forall i :: 0 <= i < |DataRest| ==> !outputs[DataRest[i]].nobits
    ensures dynamic <==> DataRelRo in DataHead(dynamic)
  {
    DataMembers(dynamic);
    assert dynamic ==> DataHead(dynamic)[3] == DataRelRo;
  }

  /** Placing the rest of the data leaves its head alone. */
  lemma HeadStays(was: seq<Output>, now: seq<Output>, dynamic: bool, lo: int, hi: int)
    requires OnlyThese(was, now, DataRest) && Distinct(DataHead(dynamic)) && Ordered(was, DataHead(dynamic), lo, hi)
    ensures Ordered(now, DataHead(dynamic), lo, hi) && Room(now, DataHead(dynamic)) == Room(was, DataHead(dynamic))
    ensures now[DataRelRo].pieces != [] <==> was[DataRelRo].pieces != []
  {
    hide Ordered;
    DataMembers(dynamic);
    var head := DataHead(dynamic);
    forall i | 0 <= i < |head|
      ensures head[i] !in DataRest && SamePieces(was[head[i]], now[head[i]])
    {
      assert head[i] in head;
    }
    Kept(was, now, head, DataRest, lo, hi);
    SameRoom(was, now, head);
    assert SamePieces(was[DataRelRo], now[DataRelRo]);
  }

  lemma HeadMapped(was: seq<Output>, now: seq<Output>, dynamic: bool, delta: int)
    requires OnlyThese(was, now, DataRest) && Mapped(was, DataHead(dynamic), delta)
    ensures Mapped(now, DataHead(dynamic), delta)
  {
    DataMembers(dynamic);
    var head := DataHead(dynamic);
    assert forall i :: 0 <= i < |head| ==> head[i] in head;
    MappedKept(was, now, head, DataRest, delta);
  }

  lemma OneMore(o0: seq<Output>, o1: seq<Output>, list: seq<nat>, k: nat)
    requires OnlyThese(o0, o1, list) && k < OutputCount
    ensures o1[k].nobits == o0[k].nobits && forall o :: SamePieces(o1[k], o) ==> OnlyThese(o0, o1[k := o], list + [k])
  {
    assert SamePieces(o0[k], o1[k]);
    forall o | SamePieces(o1[k], o)
      ensures OnlyThese(o0, o1[k := o], list + [k])
    {
      var o2 := o1[k := o];
      forall j | 0 <= j < OutputCount
        ensures SamePieces(o0[j], o2[j]) && (j !in list + [k] ==> o2[j] == o0[j])
      {
        assert SamePieces(o0[j], o1[j]) && SamePieces(o1[j], o2[j]);
      }
    }
  }

  lemma TwoMore(o0: seq<Output>, o1: seq<Output>, o2: seq<Output>, list: seq<nat>)
    requires OnlyThese(o0, o1, list) && |o2| == OutputCount
    requires o2 == o1[ThreadBss := o2[ThreadBss]][Bss := o2[Bss]]
    requires SamePieces(o1[ThreadBss], o2[ThreadBss]) && SamePieces(o1[Bss], o2[Bss])
    ensures OnlyThese(o0, o2, list + [Bss] + [ThreadBss])
  {
    forall k | 0 <= k < OutputCount
      ensures SamePieces(o0[k], o2[k]) && (k !in list + [Bss] + [ThreadBss] ==> o2[k] == o0[k])
    {
      assert SamePieces(o0[k], o1[k]);
      assert k !in list + [Bss] + [ThreadBss] ==> k !in list && k != Bss && k != ThreadBss;
    }
  }

  /** Outputs other than the zero-filled ones have bytes in the file. */
  predicate FileBacked(outputs: seq<Output>)
    requires |outputs| == OutputCount
  {
    (forall k :: 0 <= k < OutputCount ==> outputs[k].nobits == (k == ThreadBss || k == Bss))
  }

  /** The protected range ends on a page, holds the outputs it should and none that stays writable. */
  predicate Protects(outputs: seq<Output>, address: int, size: nat, page: nat)
    requires |outputs| == OutputCount
  {
    && Multiple(address + size, page)
    && (forall k :: 0 <= k < OutputCount && k in DataHead(true) ==>
          address <= outputs[k].address && outputs[k].address + outputs[k].size <= address + size)
    && (forall k :: 0 <= k < OutputCount && k in [Data, 18, ThreadData, ThreadBss, Bss] ==> outputs[k].address >= address + size)
  }

  /** The group an output belongs to; zero-filled thread storage is in none. */
  predicate InGroup(k: nat, g: nat, dynamic: bool) {
    if g == 0 then k <= EhFrame || (k == DataRelRo && !dynamic)
    else if g == 1 then Text <= k <= Plt
    else Dynamic <= k <= Bss && k != ThreadBss && (k == DataRelRo ==> dynamic)
  }

  lemma MembersApart(dynamic: bool)
    ensures forall g :: 0 <= g < 3 ==> Distinct(Members(g, dynamic))
    ensures forall g, k :: 0 <= g < 3 && k in Members(g, dynamic) ==> InGroup(k, g, dynamic)
    ensures Distinct(DataHead(dynamic)) && Distinct(DataRest) && forall k :: k in DataHead(dynamic) ==> Dynamic <= k <= DataRelRo
  {
    ReadOnlyMembers(dynamic);
    DataMembers(dynamic);
  }

  lemma ReadOnlyMembers(dynamic: bool)
    ensures Distinct(Members(0, dynamic)) && forall k :: k in Members(0, dynamic) ==> InGroup(k, 0, dynamic)
  {
    var list := Members(0, dynamic);
    assert forall i :: 0 <= i < |list| ==> list[i] == if i <= EhFrame then i else DataRelRo;
  }

  lemma DataMembers(dynamic: bool)
    ensures Distinct(Members(2, dynamic)) && forall k :: k in Members(2, dynamic) ==> InGroup(k, 2, dynamic)
    ensures Distinct(DataHead(dynamic)) && Distinct(DataRest) && forall k :: k in DataHead(dynamic) ==> Dynamic <= k <= DataRelRo
  {
    var list, head := Members(2, dynamic), DataHead(dynamic);
    HeadMembers(dynamic);
    assert list == head + [Data, 18, ThreadData, Bss];
    forall i | 0 <= i < |list|
      ensures list[i] == if i < |head| then Dynamic + i else if i == |head| + 3 then Bss else Data + (i - |head|)
    {
    }
  }

  lemma HeadMembers(dynamic: bool)
    ensures var head := DataHead(dynamic); |head| == (if dynamic then 4 else 3) && forall i :: 0 <= i < |head| ==> head[i] == Dynamic + i
  {
  }

  lemma Widened(outputs: seq<Output>, list: seq<nat>, lo: int, hi: int, lo': int, hi': int)
    requires |outputs| == OutputCount && Distinct(list) && Ordered(outputs, list, lo, hi) && lo' <= lo && hi <= hi'
    ensures Ordered(outputs, list, lo', hi')
  {
  }

  lemma Unmoved(outputs: seq<Output>, list: seq<nat>, k: nat, o: Output, lo: int, hi: int)
    requires |outputs| == OutputCount && Distinct(list) && Ordered(outputs, list, lo, hi) && k < OutputCount && k !in list
    ensures Ordered(outputs[k := o], list, lo, hi)
  {
    forall i | 0 <= i < |list|
      ensures outputs[k := o][list[i]] == outputs[list[i]]
    {
    }
  }

  lemma Kept(was: seq<Output>, now: seq<Output>, list: seq<nat>, changed: seq<nat>, lo: int, hi: int)
    requires Distinct(list) && OnlyThese(was, now, changed) && Ordered(was, list, lo, hi)
    requires forall i :: 0 <= i < |list| ==> list[i] !in changed
    ensures Ordered(now, list, lo, hi)
  {
    forall i | 0 <= i < |list|
      ensures now[list[i]] == was[list[i]]
    {
    }
  }

  lemma BothUnmoved(outputs: seq<Output>, head: seq<nat>, rest: seq<nat>, tls: Output, bss: Output, delta: int, at: nat, n1: nat, n2: nat, n3: nat)
    requires |outputs| == OutputCount && Distinct(head) && Distinct(rest)
    requires Ordered(outputs, head, delta + at, delta + n1) && Ordered(outputs, rest, delta + n2, delta + n3)
    requires ThreadBss !in head && ThreadBss !in rest && Bss !in head && Bss !in rest
    ensures var now := outputs[ThreadBss := tls][Bss := bss];
            Ordered(now, head, delta + at, delta + n1) && Ordered(now, rest, delta + n2, delta + n3)
  {
    hide Ordered;
    var mid := outputs[ThreadBss := tls];
    Unmoved(outputs, head, ThreadBss, tls, delta + at, delta + n1);
    Unmoved(outputs, rest, ThreadBss, tls, delta + n2, delta + n3);
    Unmoved(mid, head, Bss, bss, delta + at, delta + n1);
    Unmoved(mid, rest, Bss, bss, delta + n2, delta + n3);
  }

  lemma Protected(outputs: seq<Output>, delta: int, at: nat, start: nat, n1: nat, n2: nat, n3: nat, page: nat)
    requires |outputs| == OutputCount && start <= at <= n1 <= n2 <= n3 && Multiple(delta + n2, page)
    requires Ordered(outputs, DataHead(true), delta + at, delta + n1)
    requires Ordered(outputs, DataRest, delta + n2, delta + n3)
    requires outputs[ThreadBss].address >= delta + n3 && outputs[Bss].address >= delta + n3
    ensures Protects(outputs, delta + start, n2 - start, page)
  {
    var head, rest := DataHead(true), DataRest;
    forall k | 0 <= k < OutputCount && k in head
      ensures delta + start <= outputs[k].address && outputs[k].address + outputs[k].size <= delta + n2
    {
      var i :| 0 <= i < |head| && head[i] == k;
      assert outputs[head[i]].address >= delta + at;
    }
    forall k | 0 <= k < OutputCount && k in rest
      ensures outputs[k].address >= delta + n2
    {
      var i :| 0 <= i < |rest| && rest[i] == k;
      assert outputs[rest[i]].address >= delta + n2;
    }
  }

  /** Two lists of outputs, one placed behind the other. */
  lemma Concatenated(outputs: seq<Output>, a: seq<nat>, b: seq<nat>, lo: int, m1: int, m2: int, hi: int)
    requires |outputs| == OutputCount && Distinct(a) && Distinct(b)
    requires Ordered(outputs, a, lo, m1) && m1 <= m2 && Ordered(outputs, b, m2, hi)
    ensures (forall i :: 0 <= i < |a + b| ==> (a + b)[i] < OutputCount) && Ordered(outputs, a + b, lo, hi)
  {
    hide Laid, Aligned;
    var list := a + b;
    forall i | 0 <= i < |list|
      ensures list[i] == if i < |a| then a[i] else b[i - |a|]
    {
    }
  }

  /** Differences and page starts of the addresses that segments begin at. */
  lemma BasePages(base: nat, end: nat, offset: nat, page: nat)
    requires page > 1 && Multiple(base, page)
    ensures base % page == 0
    ensures var up, at := AlignUp(end, page), AlignUp(offset, page);
            && Multiple(up + offset % page - offset, page)
            && (up + offset % page) - (up + offset % page) % page == up
            && Multiple(base - at, page)
            && forall d: nat :: Multiple(d, page) ==> Multiple(d - at, page)
  {
    PageParts(offset, page);
    AlignUpFacts(end, page);
    AlignUpFacts(offset, page);
    var up, at, low := AlignUp(end, page), AlignUp(offset, page), offset % page;
    MultipleSum(up, offset - low, page);
    DivMod(up, page);
    DivUnique(up + low, page, up / page, low);
    forall d: nat | Multiple(d, page)
      ensures Multiple(d - at, page)
    {
      MultipleSum(d, at, page);
    }
  }

  /** The outputs of a segment that are not zero-filled thread storage, in order. */
  function Members(g: nat, dynamic: bool): seq<nat> {
    if g == 0 then [0, 1, 2, 3, 4, 5, 6, 7, 8, 9, EhFrame] + (if dynamic then [] else [DataRelRo])
    else if g == 1 then [Text, Plt]
    else DataHead(dynamic) + DataRest + [Bss]
  }

  /** The part of the data segment that is constant once relocated. */
  function DataHead(dynamic: bool): seq<nat> {
    [Dynamic, 14, FiniArray] + (if dynamic then [DataRelRo] else [])
  }

  lemma PlacedLaid(was: Output, now: Output, offset: nat, delta: int)
    requires PlacedAt(was, now, offset, delta)
    ensures Laid(now) && now.fileOffset >= offset && now.address == delta + now.fileOffset && SamePieces(was, now)
  {
    AlignUpFacts(offset, was.align);
  }

  lemma StaysProper(was: Output, now: Output, page: nat)
    requires SamePieces(was, now) && Proper(was, page)
    ensures Proper(now, page)
  {
    forall i | 0 <= i < |now.pieces|
      ensures PowerOfTwo(Unit(now.pieces[i].align)) && Unit(now.pieces[i].align) <= Unit(now.align)
    {
      assert now.pieces[i].align == was.pieces[i].align;
    }
  }
}
