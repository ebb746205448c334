/**
 Conversion of relocatable files between ELF64 and ELF32.

 A file is its section headers and its bytes; symbol and relocation tables change shape, every
 other section keeps its bytes. Narrowing rewrites tables where they are, widening lays all
 sections out again.
 */
module ElfClass {
  import opened Options
  import Nonlinear
  import opened Leb128
  import opened EhFrame

  /** A section header; `at` and `length` say where its bytes are. */
  datatype Header = Header(
    name: nat, kind: nat, flags: nat, address: nat, at: nat, length: nat, link: nat, info: nat, align: nat, entsize: nat)

  datatype File = File(headers: seq<Header>, bytes: seq<Byte>)

  const SymTab: nat := 2
  const Rela: nat := 4
  const NoBits: nat := 8
  const Rel: nat := 9
  const DynSym: nat := 11

  // ----- words -----

  function Read64(d: seq<Byte>, at: nat): nat
    requires at + 8 <= |d|
  {
    Read32(d, at) + WordLimit * Read32(d, at + 4)
  }

  function Word64(n: nat): (b: seq<Byte>)
    ensures |b| == 8
  {
    Word32(n % WordLimit) + Word32(n / WordLimit)
  }

  lemma WordRead(d: seq<Byte>, at: nat)
    requires at + 4 <= |d|
    ensures Word32(Read32(d, at)) == d[at..at + 4]
  {
    var b0: nat, b1: nat, b2: nat, b3: nat := d[at], d[at + 1], d[at + 2], d[at + 3];
    var n := Read32(d, at);
    assert n / 0x100 == b1 + 0x100 * b2 + 0x1_0000 * b3;
    assert n / 0x100 / 0x100 == b2 + 0x100 * b3;
    assert d[at..at + 4] == [d[at], d[at + 1], d[at + 2], d[at + 3]];
  }

  lemma DoubleWordRead(d: seq<Byte>, at: nat)
    requires at + 8 <= |d|
    ensures Word64(Read64(d, at)) == d[at..at + 8]
  {
    hide Read32, Word32;
    WordRead(d, at);
    WordRead(d, at + 4);
    assert d[at..at + 8] == d[at..at + 4] + d[at + 4..at + 8];
  }

  /** The signed reading of a 32-bit and of a 64-bit pattern. */
  function Signed32(n: nat): int {
    if n < 0x8000_0000 then n else n - WordLimit
  }

  function Signed64(n: nat): int {
    if n < 0x8000_0000_0000_0000 then n else n - WordLimit * WordLimit
  }

  function Pattern64(i: int): nat
    requires -0x8000_0000_0000_0000 <= i < 0x8000_0000_0000_0000
  {
    if i >= 0 then i else i + WordLimit * WordLimit
  }

  // ----- entries -----

  /** Values of a symbol that 32 bits can hold. */
  predicate SymbolFits(e: seq<Byte>)
    requires |e| == 24
  {
    Read64(e, 8) < WordLimit && Read64(e, 16) < WordLimit
  }

  function NarrowSymbol(e: seq<Byte>): (r: seq<Byte>)
    requires |e| == 24
    ensures |r| == 16
  {
    Word32(Read32(e, 0)) + Word32(Read64(e, 8) % WordLimit) + Word32(Read64(e, 16) % WordLimit) + [e[4], e[5], e[6], e[7]]
  }

  function WidenSymbol(e: seq<Byte>): (r: seq<Byte>)
    requires |e| == 16
    ensures |r| == 24
  {
    Word32(Read32(e, 0)) + [e[12], e[13], e[14], e[15]] + Word64(Read32(e, 4)) + Word64(Read32(e, 8))
  }

  /** The parts of a relocation that 32 bits can hold; only tables with addends have one. */
  predicate RelocationFits(e: seq<Byte>)
    requires |e| == 16 || |e| == 24
  {
    && Read64(e, 0) < WordLimit && Read64(e, 8) / WordLimit < 0x100_0000 && Read64(e, 8) % WordLimit < 0x100
    && (|e| == 24 ==> -0x8000_0000 <= Signed64(Read64(e, 16)) < 0x8000_0000)
  }

  function NarrowRelocation(e: seq<Byte>): (r: seq<Byte>)
    requires |e| == 16 || |e| == 24
    ensures |r| == if |e| == 24 then 12 else 8
  {
    var info := Read64(e, 8);
    Word32(Read64(e, 0) % WordLimit) + Word32((info / WordLimit * 0x100 + info % WordLimit) % WordLimit)
    + (if |e| == 24 then Word32(Read64(e, 16) % WordLimit) else [])
  }

  /** Symbol and type, apart in a double word. */
  function Unpacked(info: nat): nat {
    info / 0x100 * WordLimit + info % 0x100
  }

  function WidenRelocation(e: seq<Byte>): (r: seq<Byte>)
    requires |e| == 8 || |e| == 12
    ensures |r| == if |e| == 12 then 24 else 16
  {
    Word64(Read32(e, 0)) + Word64(Unpacked(Read32(e, 4)))
    + (if |e| == 12 then Word64(Pattern64(Signed32(Read32(e, 8)))) else [])
  }

  /** A symbol survives the trip through the narrow form. */
  lemma SymbolRoundTrip(e: seq<Byte>)
    requires |e| == 24 && SymbolFits(e)
    ensures WidenSymbol(NarrowSymbol(e)) == e
  {
    hide Read32, Word32;
    var n := NarrowSymbol(e);
    assert n[0..4] == Word32(Read32(e, 0)) && n[4..8] == Word32(Read64(e, 8)) && n[8..12] == Word32(Read64(e, 16));
    WordRoundTrip(n, 0, Read32(e, 0));
    WordRoundTrip(n, 4, Read64(e, 8));
    WordRoundTrip(n, 8, Read64(e, 16));
    WordRead(e, 0);
    DoubleWordRead(e, 8);
    DoubleWordRead(e, 16);
    assert e == e[0..4] + [e[4], e[5], e[6], e[7]] + e[8..16] + e[16..24];
  }

  /** So does a relocation, with the sign of its addend. */
  lemma RelocationRoundTrip(e: seq<Byte>)
    requires (|e| == 16 || |e| == 24) && RelocationFits(e)
    ensures WidenRelocation(NarrowRelocation(e)) == e
  {
    hide Read32, Word32, Read64, Word64, Signed32, Signed64;
    var n := NarrowRelocation(e);
    PlaceRoundTrip(e, n);
    if |e| == 24 {
      AddendRoundTrip(e, n);
      assert e == e[0..8] + e[8..16] + e[16..24];
    } else {
      assert e == e[0..8] + e[8..16];
    }
  }

  /** Place, symbol and type of a relocation. */
  lemma PlaceRoundTrip(e: seq<Byte>, n: seq<Byte>)
    requires (|e| == 16 || |e| == 24) && RelocationFits(e) && n == NarrowRelocation(e)
    ensures Word64(Read32(n, 0)) == e[0..8]
    ensures Word64(Unpacked(Read32(n, 4))) == e[8..16]
  {
    hide Read32, Word32, Read64, Word64, Signed64;
    var info := Read64(e, 8);
    var packed := info / WordLimit * 0x100 + info % WordLimit;
    assert n[0..4] == Word32(Read64(e, 0)) && n[4..8] == Word32(packed);
    WordRoundTrip(n, 0, Read64(e, 0));
    WordRoundTrip(n, 4, packed);
    DoubleWordRead(e, 0);
    DoubleWordRead(e, 8);
    Packed(info);
  }

  lemma AddendRoundTrip(e: seq<Byte>, n: seq<Byte>)
    requires |e| == 24 && RelocationFits(e) && n == NarrowRelocation(e)
    ensures Word64(Pattern64(Signed32(Read32(n, 8)))) == e[16..24]
  {
    hide Read32, Word32, Word64;
    var addend := Read64(e, 16);
    assert n[8..12] == Word32(addend % WordLimit);
    WordRoundTrip(n, 8, addend % WordLimit);
    Addend(addend);
    DoubleWordRead(e, 16);
  }

  // ----- what the entries hold -----

  lemma DoubleRoundTrip(d: seq<Byte>, at: nat, n: nat)
    requires n < WordLimit * WordLimit && At(d, at, Word64(n))
    ensures Read64(d, at) == n
  {
    hide Read32, Word32;
    AtSplit(d, at, Word32(n % WordLimit), Word32(n / WordLimit));
    WordRoundTrip(d, at, n % WordLimit);
    WordRoundTrip(d, at + 4, n / WordLimit);
  }

  /** An ELF32 symbol: name, value and size as words, then type, visibility and section as they were. */
  lemma SymbolFields(e: seq<Byte>)
    requires |e| == 24
    ensures var r := NarrowSymbol(e);
            && Read32(r, 0) == Read32(e, 0) && r[12..16] == e[4..8]
            && Read32(r, 4) == Read64(e, 8) % WordLimit && Read32(r, 8) == Read64(e, 16) % WordLimit
  {
    hide Read32, Word32, Read64;
    var r := NarrowSymbol(e);
    assert r[0..4] == Word32(Read32(e, 0)) && r[4..8] == Word32(Read64(e, 8) % WordLimit) && r[8..12] == Word32(Read64(e, 16) % WordLimit);
    WordRoundTrip(r, 0, Read32(e, 0));
    WordRoundTrip(r, 4, Read64(e, 8) % WordLimit);
    WordRoundTrip(r, 8, Read64(e, 16) % WordLimit);
  }

  /** An ELF64 symbol: name, type, visibility and section, then value and size as double words. */
  lemma WideSymbolFields(e: seq<Byte>)
    requires |e| == 16
    ensures var r := WidenSymbol(e);
            Read32(r, 0) == Read32(e, 0) && r[4..8] == e[12..16] && Read64(r, 8) == Read32(e, 4) && Read64(r, 16) == Read32(e, 8)
  {
    hide Read32, Word32, Read64, Word64;
    var r := WidenSymbol(e);
    assert r[0..4] == Word32(Read32(e, 0)) && r[8..16] == Word64(Read32(e, 4)) && r[16..24] == Word64(Read32(e, 8));
    WordRoundTrip(r, 0, Read32(e, 0));
    DoubleRoundTrip(r, 8, Read32(e, 4));
    DoubleRoundTrip(r, 16, Read32(e, 8));
  }

  /** A symbol survives exactly if its value and size fit. */
  lemma SymbolExact(e: seq<Byte>)
    requires |e| == 24
    ensures WidenSymbol(NarrowSymbol(e)) == e <==> SymbolFits(e)
  {
    hide Read32, Read64, NarrowSymbol, WidenSymbol;
    if SymbolFits(e) {
      SymbolRoundTrip(e);
    } else {
      WideSymbolFields(NarrowSymbol(e));
    }
  }

  /** An ELF32 relocation: place, symbol above an eight-bit type, and the addend's low word. */
  lemma RelocationFields(e: seq<Byte>)
    requires (|e| == 16 || |e| == 24) && RelocationFits(e)
    ensures var r := NarrowRelocation(e);
            && Read32(r, 0) == Read64(e, 0)
            && Read32(r, 4) / 0x100 == Read64(e, 8) / WordLimit && Read32(r, 4) % 0x100 == Read64(e, 8) % WordLimit
            && (|e| == 24 ==> Signed32(Read32(r, 8)) == Signed64(Read64(e, 16)))
  {
    hide Read32, Word32, Read64;
    var r, info := NarrowRelocation(e), Read64(e, 8);
    var packed := info / WordLimit * 0x100 + info % WordLimit;
    Packed(info);
    assert r[0..4] == Word32(Read64(e, 0)) && r[4..8] == Word32(packed);
    WordRoundTrip(r, 0, Read64(e, 0));
    WordRoundTrip(r, 4, packed);
    if |e| == 24 {
      assert r[8..12] == Word32(Read64(e, 16) % WordLimit);
      WordRoundTrip(r, 8, Read64(e, 16) % WordLimit);
      DoubleWordLimit(e, 16);
    }
  }

  lemma DoubleWordLimit(e: seq<Byte>, at: nat)
    requires at + 8 <= |e|
    ensures Read64(e, at) < WordLimit * WordLimit
  {
    hide Read32;
  }

  lemma WideRelocationFields(e: seq<Byte>)
    requires |e| == 8 || |e| == 12
    ensures var r := WidenRelocation(e);
            && Read64(r, 0) == Read32(e, 0) && Read64(r, 8) == Unpacked(Read32(e, 4))
            && (|e| == 12 ==> Read64(r, 16) == Pattern64(Signed32(Read32(e, 8))))
  {
    hide Read32, Read64, Word64, Unpacked, Pattern64, Signed32;
    var r := WidenRelocation(e);
    UnpackedLimit(Read32(e, 4));
    assert r[0..8] == Word64(Read32(e, 0)) && r[8..16] == Word64(Unpacked(Read32(e, 4)));
    DoubleRoundTrip(r, 0, Read32(e, 0));
    DoubleRoundTrip(r, 8, Unpacked(Read32(e, 4)));
    if |e| == 12 {
      PatternLimit(Read32(e, 8));
      assert r[16..24] == Word64(Pattern64(Signed32(Read32(e, 8))));
      DoubleRoundTrip(r, 16, Pattern64(Signed32(Read32(e, 8))));
    }
  }

  lemma UnpackedLimit(info: nat)
    requires info < WordLimit
    ensures Unpacked(info) < WordLimit * WordLimit && Unpacked(info) / WordLimit < 0x100_0000 && Unpacked(info) % WordLimit < 0x100
  {
  }

  lemma PatternLimit(n: nat)
    requires n < WordLimit
    ensures -0x8000_0000 <= Signed32(n) < 0x8000_0000 && Pattern64(Signed32(n)) < WordLimit * WordLimit
    ensures Signed64(Pattern64(Signed32(n))) == Signed32(n)
  {
  }

  /** A relocation survives exactly if its parts fit. */
  lemma RelocationExact(e: seq<Byte>)
    requires |e| == 16 || |e| == 24
    ensures WidenRelocation(NarrowRelocation(e)) == e <==> RelocationFits(e)
  {
    hide Read32, Read64, NarrowRelocation, WidenRelocation, Unpacked, Pattern64, Signed32, Signed64;
    if RelocationFits(e) {
      RelocationRoundTrip(e);
    } else {
      var n := NarrowRelocation(e);
      WideRelocationFields(n);
      UnpackedLimit(Read32(n, 4));
      if |e| == 24 {
        PatternLimit(Read32(n, 8));
      }
    }
  }

  lemma Packed(info: nat)
    requires info / WordLimit < 0x100_0000 && info % WordLimit < 0x100
    ensures var packed := info / WordLimit * 0x100 + info % WordLimit;
            packed < WordLimit && packed / 0x100 * WordLimit + packed % 0x100 == info
  {
  }

  lemma Addend(n: nat)
    requires n < WordLimit * WordLimit && -0x8000_0000 <= Signed64(n) < 0x8000_0000
    ensures Pattern64(Signed32(n % WordLimit)) == n
  {
  }

  // ----- tables -----

  predicate IsSymbols(kind: nat) {
    kind == SymTab || kind == DynSym
  }

  /** The entry width of a table in an ELF64 file, zero for other sections. */
  function WideEntry(h: Header): nat {
    if IsSymbols(h.kind) && h.entsize == 24 then 24
    else if h.kind == Rela && h.entsize == 24 then 24
    else if h.kind == Rel && h.entsize == 16 then 16
    else 0
  }

  /** The entry width of a table in an ELF32 file, zero for other sections. */
  function NarrowEntry(h: Header): nat {
    if IsSymbols(h.kind) && h.entsize == 16 then 16
    else if h.kind == Rela && h.entsize == 12 then 12
    else if h.kind == Rel && h.entsize == 8 then 8
    else 0
  }

  function NarrowOf(kind: nat): nat {
    if IsSymbols(kind) then 16 else if kind == Rela then 12 else 8
  }

  function WideOf(kind: nat): nat {
    if IsSymbols(kind) || kind == Rela then 24 else 16
  }

  function NarrowItem(kind: nat, e: seq<Byte>): (r: seq<Byte>)
    requires |e| == WideOf(kind)
    ensures |r| == NarrowOf(kind)
  {
    if IsSymbols(kind) then NarrowSymbol(e) else NarrowRelocation(e)
  }

  function WidenItem(kind: nat, e: seq<Byte>): (r: seq<Byte>)
    requires |e| == NarrowOf(kind)
    ensures |r| == WideOf(kind)
  {
    if IsSymbols(kind) then WidenSymbol(e) else WidenRelocation(e)
  }

  lemma CountStep(n: nat, w: nat, m: nat)
    requires 0 < w <= n
    ensures n / w * m == m + (n - w) / w * m
  {
    Nonlinear.DivMod(n - w, w);
    var q := (n - w) / w;
    Nonlinear.DivUnique(n, w, q + 1, (n - w) % w);
    assert (q + 1) * m == m + q * m;
  }

  function NarrowTable(kind: nat, d: seq<Byte>): (r: seq<Byte>)
    ensures |r| == |d| / WideOf(kind) * NarrowOf(kind)
    decreases |d|
  {
    hide NarrowItem;
    var w := WideOf(kind);
    if |d| < w then []
    else
      CountStep(|d|, w, NarrowOf(kind));
      NarrowItem(kind, d[..w]) + NarrowTable(kind, d[w..])
  }

  function WidenTable(kind: nat, d: seq<Byte>): (r: seq<Byte>)
    ensures |r| == |d| / NarrowOf(kind) * WideOf(kind)
    decreases |d|
  {
    hide WidenItem;
    var n := NarrowOf(kind);
    if |d| < n then []
    else
      CountStep(|d|, n, WideOf(kind));
      WidenItem(kind, d[..n]) + WidenTable(kind, d[n..])
  }

  predicate ItemFits(kind: nat, e: seq<Byte>)
    requires |e| == WideOf(kind)
  {
    if IsSymbols(kind) then SymbolFits(e) else RelocationFits(e)
  }

  lemma ItemRoundTrip(kind: nat, e: seq<Byte>)
    requires |e| == WideOf(kind) && ItemFits(kind, e)
    ensures WidenItem(kind, NarrowItem(kind, e)) == e
  {
    hide NarrowSymbol, NarrowRelocation, WidenSymbol, WidenRelocation, SymbolFits, RelocationFits;
    if IsSymbols(kind) {
      SymbolRoundTrip(e);
    } else {
      RelocationRoundTrip(e);
    }
  }

  predicate TableFits(kind: nat, d: seq<Byte>)
    decreases |d|
  {
    var w := WideOf(kind);
    |d| < w || (ItemFits(kind, d[..w]) && TableFits(kind, d[w..]))
  }

  /** The complete entries of a table. */
  function Whole(d: seq<Byte>, w: nat): seq<Byte>
    requires w > 0
    decreases |d|
  {
    if |d| < w then [] else d[..w] + Whole(d[w..], w)
  }

  lemma {:induction false} TableRoundTrip(kind: nat, d: seq<Byte>)
    requires TableFits(kind, d)
    ensures WidenTable(kind, NarrowTable(kind, d)) == Whole(d, WideOf(kind))
    decreases |d|
  {
    hide NarrowItem, WidenItem, ItemFits;
    var w, n := WideOf(kind), NarrowOf(kind);
    if |d| >= w {
      var e, rest := d[..w], NarrowTable(kind, d[w..]);
      ItemRoundTrip(kind, e);
      TableRoundTrip(kind, d[w..]);
      assert (NarrowItem(kind, e) + rest)[..n] == NarrowItem(kind, e) && (NarrowItem(kind, e) + rest)[n..] == rest;
    }
  }

  lemma ItemExact(kind: nat, e: seq<Byte>)
    requires |e| == WideOf(kind)
    ensures WidenItem(kind, NarrowItem(kind, e)) == e <==> ItemFits(kind, e)
  {
    hide NarrowSymbol, NarrowRelocation, WidenSymbol, WidenRelocation, SymbolFits, RelocationFits;
    if IsSymbols(kind) {
      SymbolExact(e);
    } else {
      RelocationExact(e);
    }
  }

  /** A table survives exactly if all its entries do. */
  lemma {:induction false} TableExact(kind: nat, d: seq<Byte>)
    ensures WidenTable(kind, NarrowTable(kind, d)) == Whole(d, WideOf(kind)) <==> TableFits(kind, d)
    decreases |d|
  {
    hide NarrowItem, WidenItem, ItemFits;
    var w, n := WideOf(kind), NarrowOf(kind);
    if |d| >= w {
      var e, rest := d[..w], NarrowTable(kind, d[w..]);
      ItemExact(kind, e);
      TableExact(kind, d[w..]);
      var item := NarrowItem(kind, e);
      assert (item + rest)[..n] == item && (item + rest)[n..] == rest;
      var a, b, c := WidenItem(kind, item), WidenTable(kind, rest), Whole(d[w..], w);
      assert WidenTable(kind, item + rest) == a + b && Whole(d, w) == e + c;
      SameParts(a, b, e, c);
    }
  }

  lemma SameParts(a: seq<Byte>, b: seq<Byte>, c: seq<Byte>, d: seq<Byte>)
    requires |a| == |c|
    ensures a + b == c + d <==> a == c && b == d
  {
    if a + b == c + d {
      assert a == (a + b)[..|a|] && b == (a + b)[|a|..] && c == (c + d)[..|c|] && d == (c + d)[|c|..];
    }
  }

  // ----- section headers in the file -----

  function Words(ns: seq<nat>): (b: seq<Byte>)
    ensures |b| == 4 * |ns|
  {
    if ns == [] then [] else Word32(ns[0] % WordLimit) + Words(ns[1..])
  }

  lemma {:induction false} WordAt(ns: seq<nat>, i: nat)
    requires i < |ns|
    ensures Read32(Words(ns), 4 * i) == ns[i] % WordLimit
  {
    hide Read32, Word32;
    var first, rest := Word32(ns[0] % WordLimit), Words(ns[1..]);
    if i == 0 {
      assert (first + rest)[0..4] == first;
      WordRoundTrip(first + rest, 0, ns[0] % WordLimit);
    } else {
      WordAt(ns[1..], i - 1);
      Shifted(first, rest, 4 * (i - 1));
    }
  }

  lemma Shifted(first: seq<Byte>, rest: seq<Byte>, k: nat)
    requires |first| == 4 && k + 4 <= |rest|
    ensures Read32(first + rest, 4 + k) == Read32(rest, k)
  {
    SameWord(rest, k, first + rest, 4 + k);
  }

  /** The header of an ELF32 section: ten words. */
  function HeaderBytes(h: Header): (b: seq<Byte>)
    ensures |b| == 40
  {
    Words([h.name, h.kind, h.flags, h.address, h.at, h.length, h.link, h.info, h.align, h.entsize])
  }

  function HeaderOf(b: seq<Byte>): Header
    requires |b| == 40
  {
    Header(Read32(b, 0), Read32(b, 4), Read32(b, 8), Read32(b, 12), Read32(b, 16), Read32(b, 20),
           Read32(b, 24), Read32(b, 28), Read32(b, 32), Read32(b, 36))
  }

  /** A header, whose name, type, link and info are words already, survives exactly if the rest of it fits. */
  lemma HeaderExact(h: Header)
    requires h.name < WordLimit && h.kind < WordLimit && h.link < WordLimit && h.info < WordLimit
    ensures HeaderOf(HeaderBytes(h)) == h <==> HeaderFits(h)
  {
    hide Read32, Words;
    var ns := [h.name, h.kind, h.flags, h.address, h.at, h.length, h.link, h.info, h.align, h.entsize];
    forall i | 0 <= i < 10
      ensures Read32(Words(ns), 4 * i) == ns[i] % WordLimit
    {
      WordAt(ns, i);
    }
    assert Read32(Words(ns), 4 * 0) == h.name % WordLimit && Read32(Words(ns), 4 * 1) == h.kind % WordLimit;
    assert Read32(Words(ns), 4 * 2) == h.flags % WordLimit && Read32(Words(ns), 4 * 3) == h.address % WordLimit;
    assert Read32(Words(ns), 4 * 4) == h.at % WordLimit && Read32(Words(ns), 4 * 5) == h.length % WordLimit;
    assert Read32(Words(ns), 4 * 6) == h.link % WordLimit && Read32(Words(ns), 4 * 7) == h.info % WordLimit;
    assert Read32(Words(ns), 4 * 8) == h.align % WordLimit && Read32(Words(ns), 4 * 9) == h.entsize % WordLimit;
  }

  // ----- narrowing, in place -----

  predicate Stored(h: Header) {
    h.kind != NoBits
  }

  function Content(f: File, h: Header): seq<Byte>
    requires h.at + h.length <= |f.bytes|
  {
    f.bytes[h.at..h.at + h.length]
  }

  predicate Inside(f: File) {
    forall i :: 0 <= i < |f.headers| && Stored(f.headers[i]) ==> f.headers[i].at + f.headers[i].length <= |f.bytes|
  }

  /** Sections with bytes lie behind the file header and do not overlap. */
  predicate Separate(f: File) {
    && (forall i :: 0 <= i < |f.headers| && Stored(f.headers[i]) && f.headers[i].length > 0 ==> f.headers[i].at >= 64)
    && (forall i, j :: 0 <= i < j < |f.headers| && Stored(f.headers[i]) && Stored(f.headers[j]) ==>
          Apart(f.headers[i], f.headers[j]))
  }

  predicate Apart(a: Header, b: Header) {
    a.at + a.length <= b.at || b.at + b.length <= a.at
  }

  /** Overwrites part of a buffer. */
  function Splice(o: seq<Byte>, at: nat, b: seq<Byte>): (r: seq<Byte>)
    requires at + |b| <= |o|
    ensures |r| == |o|
  {
    o[..at] + b + o[at + |b|..]
  }

  function Zeros(n: nat): (z: seq<Byte>)
    ensures |z| == n
  {
    seq(n, _ => 0)
  }

  /** A table as narrowing leaves it: the narrow entries, then zeros up to the old length. */
  function Shrunk(kind: nat, d: seq<Byte>): (r: seq<Byte>)
    ensures |r| == |d|
  {
    Shrinks(kind, |d|);
    NarrowTable(kind, d) + Zeros(|d| - |NarrowTable(kind, d)|)
  }

  lemma Shrinks(kind: nat, n: nat)
    ensures n / WideOf(kind) * NarrowOf(kind) <= n
  {
  }

  function NarrowHeader(h: Header): Header {
    if WideEntry(h) > 0 then h.(length := h.length / WideEntry(h) * NarrowOf(h.kind), entsize := NarrowOf(h.kind)) else h
  }

  predicate HeaderFits(h: Header) {
    && h.flags < WordLimit && h.address < WordLimit && h.at < WordLimit && h.length < WordLimit
    && h.align < WordLimit && h.entsize < WordLimit
  }

  predicate SectionFits(f: File, h: Header) {
    && (Stored(h) ==> h.at + h.length <= |f.bytes|)
    && (WideEntry(h) > 0 ==> h.at + h.length <= |f.bytes| && TableFits(h.kind, Content(f, h)))
    && HeaderFits(NarrowHeader(h))
  }

  /** The buffer after the first `n` sections; `head` is the new file header. */
  function NarrowBytes(f: File, head: seq<Byte>, n: nat): (o: seq<Byte>)
    requires n <= |f.headers| && |head| == 64 <= |f.bytes| && Inside(f)
    ensures |o| == |f.bytes|
  {
    if n == 0 then Splice(f.bytes, 0, head)
    else
      var h := f.headers[n - 1];
      if WideEntry(h) > 0 then Splice(NarrowBytes(f, head, n - 1), h.at, Shrunk(h.kind, Content(f, h)))
      else NarrowBytes(f, head, n - 1)
  }

  function SectionNow(f: File, h: Header, done: bool): (b: seq<Byte>)
    requires h.at + h.length <= |f.bytes|
    ensures |b| == h.length
  {
    if done && WideEntry(h) > 0 then Shrunk(h.kind, Content(f, h)) else Content(f, h)
  }

  lemma SpliceAway(o: seq<Byte>, at: nat, b: seq<Byte>, from: nat, n: nat)
    requires at + |b| <= |o| && from + n <= |o| && (from + n <= at || at + |b| <= from || n == 0)
    ensures Splice(o, at, b)[from..from + n] == o[from..from + n]
  {
  }

  lemma SpliceHere(o: seq<Byte>, at: nat, b: seq<Byte>)
    requires at + |b| <= |o|
    ensures Splice(o, at, b)[at..at + |b|] == b
  {
  }

  /** Rewriting tables in place leaves every other section's bytes alone. */
  lemma {:induction false} InPlace(f: File, head: seq<Byte>, n: nat, i: nat)
    requires n <= |f.headers| && |head| == 64 <= |f.bytes| && Inside(f) && Separate(f) && i < |f.headers| && Stored(f.headers[i])
    ensures var h := f.headers[i];
            NarrowBytes(f, head, n)[h.at..h.at + h.length] == SectionNow(f, h, i < n)
  {
    hide Shrunk, Splice;
    var h := f.headers[i];
    if n == 0 {
      SpliceAway(f.bytes, 0, head, h.at, h.length);
    } else {
      InPlace(f, head, n - 1, i);
      var g, o := f.headers[n - 1], NarrowBytes(f, head, n - 1);
      if WideEntry(g) > 0 {
        var b := Shrunk(g.kind, Content(f, g));
        if i == n - 1 {
          SpliceHere(o, g.at, b);
        } else {
          assert if i < n - 1 then Apart(h, g) else Apart(g, h);
          SpliceAway(o, g.at, b, h.at, h.length);
        }
      }
    }
  }

  function Narrowed(f: File, head: seq<Byte>): File
    requires |head| == 64 <= |f.bytes| && Inside(f)
  {
    File(seq(|f.headers|, i requires 0 <= i < |f.headers| => NarrowHeader(f.headers[i])), NarrowBytes(f, head, |f.headers|))
  }

  predicate Fits(f: File) {
    forall i :: 0 <= i < |f.headers| ==> SectionFits(f, f.headers[i])
  }

  /** The narrowed section: the narrow table, or the same bytes. */
  lemma NarrowedContent(f: File, head: seq<Byte>, i: nat)
    requires |head| == 64 <= |f.bytes| && Inside(f) && Separate(f) && i < |f.headers| && Stored(f.headers[i])
    ensures var h, g := f.headers[i], Narrowed(f, head);
            && g.headers[i].at == h.at && h.at + g.headers[i].length <= |g.bytes|
            && Content(g, g.headers[i]) == if WideEntry(h) > 0 then NarrowTable(h.kind, Content(f, h)) else Content(f, h)
  {
    hide NarrowBytes, NarrowTable;
    var h, o := f.headers[i], NarrowBytes(f, head, |f.headers|);
    InPlace(f, head, |f.headers|, i);
    if WideEntry(h) > 0 {
      var table := NarrowTable(h.kind, Content(f, h));
      var n := |table|;
      assert o[h.at..h.at + n] == o[h.at..h.at + h.length][..n];
      assert Shrunk(h.kind, Content(f, h))[..n] == table;
    }
  }

  // ----- widening, laid out again -----

  predicate Copied(h: Header) {
    h.kind != NoBits && h.kind != 0
  }

  function AlignTo(n: nat, align: nat): (r: nat)
    ensures r >= n
  {
    if align > 1 then
      Nonlinear.DivMod(n + align - 1, align);
      (n + align - 1) / align * align
    else n
  }

  function WidenHeader(h: Header, at: nat): Header {
    if NarrowEntry(h) > 0 then h.(at := at, length := h.length / NarrowEntry(h) * WideOf(h.kind), align := 8, entsize := WideOf(h.kind))
    else h.(at := at)
  }

  function WidenContent(f: File, h: Header): (b: seq<Byte>)
    requires h.at + h.length <= |f.bytes|
    ensures |b| == WidenHeader(h, 0).length
  {
    if NarrowEntry(h) > 0 then WidenTable(h.kind, Content(f, h)) else Content(f, h)
  }

  /** Headers and bytes after the first `n` sections, each behind the one before it at its alignment. */
  function Laid(f: File, n: nat): (r: File)
    requires n <= |f.headers| && CopiedInside(f)
    ensures |r.headers| == n
  {
    if n == 0 then File([], Zeros(64))
    else
      var before, h := Laid(f, n - 1), f.headers[n - 1];
      var at := AlignTo(|before.bytes|, WidenHeader(h, 0).align);
      var padded := before.bytes + Zeros(at - |before.bytes|);
      if Copied(h) then File(before.headers + [WidenHeader(h, at)], padded + WidenContent(f, h))
      else File(before.headers + [WidenHeader(h, 0)], padded)
  }

  predicate CopiedInside(f: File) {
    forall i :: 0 <= i < |f.headers| && Copied(f.headers[i]) ==> f.headers[i].at + f.headers[i].length <= |f.bytes|
  }

  lemma {:induction false} LaidContent(f: File, n: nat, i: nat)
    requires n <= |f.headers| && CopiedInside(f) && i < n
    ensures var r, h := Laid(f, n), f.headers[i];
            && r.headers[i] == WidenHeader(h, r.headers[i].at)
            && (Copied(h) ==> r.headers[i].at + r.headers[i].length <= |r.bytes| && Content(r, r.headers[i]) == WidenContent(f, h))
  {
    hide Laid, WidenContent, WidenHeader;
    LaidStep(f, n);
    if i < n - 1 {
      LaidContent(f, n - 1, i);
      var g, before, r := Laid(f, n - 1).headers[i], Laid(f, n - 1), Laid(f, n);
      if Copied(f.headers[i]) {
        Kept(before.bytes, r.bytes, g.at, g.length);
      }
    }
  }

  /** Widened sections stand on their alignment, behind the file header, one behind the other. */
  lemma {:induction false} LaidApart(f: File, n: nat, i: nat, j: nat)
    requires n <= |f.headers| && CopiedInside(f) && i <= j < n && Copied(f.headers[i]) && Copied(f.headers[j])
    ensures var r := Laid(f, n).headers;
            && r[i].at >= 64 && (r[i].align > 1 ==> r[i].at % r[i].align == 0)
            && (i < j ==> r[i].at + r[i].length <= r[j].at)
    decreases n
  {
    hide WidenContent, WidenHeader, Laid, AlignTo;
    LaidStep(f, n);
    LaidLength(f, n - 1);
    if j < n - 1 {
      LaidApart(f, n - 1, i, j);
    } else {
      LaidPlace(f, n);
      if i < j {
        LaidContent(f, n - 1, i);
        LaidApart(f, n - 1, i, i);
      }
    }
  }

  lemma {:induction false} LaidLength(f: File, n: nat)
    requires n <= |f.headers| && CopiedInside(f)
    ensures |Laid(f, n).bytes| >= 64
  {
    hide Laid, WidenContent, WidenHeader;
    if n > 0 {
      LaidStep(f, n);
      LaidLength(f, n - 1);
    } else {
      LaidNothing(f);
    }
  }

  lemma LaidNothing(f: File)
    requires CopiedInside(f)
    ensures Laid(f, 0) == File([], Zeros(64))
  {
  }

  lemma LaidPlace(f: File, n: nat)
    requires 0 < n <= |f.headers| && CopiedInside(f) && Copied(f.headers[n - 1])
    ensures var before, h := Laid(f, n - 1).bytes, Laid(f, n).headers[n - 1];
            h.at >= |before| && (h.align > 1 ==> h.at % h.align == 0)
  {
    hide WidenContent, AlignTo;
    var align := WidenHeader(f.headers[n - 1], 0).align;
    if align > 1 {
      AlignToMultiple(|Laid(f, n - 1).bytes|, align);
    }
  }

  lemma AlignToMultiple(n: nat, align: nat)
    requires align > 1
    ensures AlignTo(n, align) % align == 0 && AlignTo(n, align) < n + align
  {
    Nonlinear.DivMod(n + align - 1, align);
    Nonlinear.DivUnique(AlignTo(n, align), align, (n + align - 1) / align, 0);
  }

  lemma Kept(a: seq<Byte>, b: seq<Byte>, from: nat, n: nat)
    requires a <= b && from + n <= |a|
    ensures b[from..from + n] == a[from..from + n]
  {
  }

  /** Laying out one more section appends it. */
  lemma LaidStep(f: File, n: nat)
    requires 0 < n <= |f.headers| && CopiedInside(f)
    ensures var before, r, h := Laid(f, n - 1), Laid(f, n), f.headers[n - 1];
            && before.bytes <= r.bytes && r.headers[..n - 1] == before.headers
            && r.headers[n - 1] == WidenHeader(h, r.headers[n - 1].at)
            && (forall i :: 0 <= i < n - 1 ==> r.headers[i] == before.headers[i])
            && (Copied(h) ==>
                  && r.headers[n - 1].at + r.headers[n - 1].length <= |r.bytes|
                  && Content(r, r.headers[n - 1]) == WidenContent(f, h))
  {
    hide WidenContent, AlignTo;
    var before, r, h := Laid(f, n - 1), Laid(f, n), f.headers[n - 1];
    if Copied(h) {
      var at := r.headers[n - 1].at;
      assert r.bytes[at..at + |WidenContent(f, h)|] == WidenContent(f, h);
    }
  }

  // ----- the round trip -----

  /** No section would be taken for a table of the other class. */
  predicate Unmistakable(h: Header) {
    WideEntry(h) == 0 ==> NarrowEntry(h) == 0
  }

  /**
   Section `g` of `r` is section `h` of `f` again: with its entry size; a table with all its
   complete entries, any other section with its length, its alignment and its bytes.
   */
  predicate Restored(f: File, h: Header, r: File, g: Header)
    requires Copied(h) ==> h.at + h.length <= |f.bytes|
  {
    && g.entsize == h.entsize
    && (WideEntry(h) == 0 ==> g.length == h.length && g.align == h.align)
    && (Copied(h) ==>
          && g.at + g.length <= |r.bytes|
          && Content(r, g) == if WideEntry(h) > 0 then Whole(Content(f, h), WideEntry(h)) else Content(f, h))
  }

  /**
   Widening a narrowed file keeps each section's name, type, flags, address, link and info, and
   restores the rest of it exactly if narrowing leaves nothing that widening takes for a table.
   */
  lemma RoundTrip(f: File, head: seq<Byte>, i: nat)
    requires |head| == 64 <= |f.bytes| && Inside(f) && Separate(f) && Fits(f) && i < |f.headers|
    ensures CopiedInside(Narrowed(f, head))
    ensures var h, r := f.headers[i], Laid(Narrowed(f, head), |f.headers|);
            && r.headers[i].name == h.name && r.headers[i].kind == h.kind && r.headers[i].flags == h.flags
            && r.headers[i].address == h.address && r.headers[i].link == h.link && r.headers[i].info == h.info
            && (Restored(f, h, r, r.headers[i]) <==> Unmistakable(h)) && (WideEntry(h) > 0 ==> r.headers[i].align == 8)
  {
    hide NarrowBytes, NarrowTable, WidenTable, Whole, TableFits, Laid;
    var g, h := Narrowed(f, head), f.headers[i];
    forall k | 0 <= k < |g.headers| && Copied(g.headers[k])
      ensures g.headers[k].at + g.headers[k].length <= |g.bytes|
    {
      NarrowedContent(f, head, k);
    }
    LaidContent(g, |f.headers|, i);
    assert SectionFits(f, h);
    if Copied(h) {
      NarrowedContent(f, head, i);
      if WideEntry(h) > 0 {
        TableRoundTrip(h.kind, Content(f, h));
      }
    }
  }

  /** A mistaken section: twelve bytes that no relocation of ELF64 has become a longer entry. */
  lemma MistakenTable(f: File, head: seq<Byte>)
    requires |head| == 64 && |f.bytes| == 76 && f.headers == [Header(0, Rela, 0, 0, 64, 12, 0, 0, 1, 12)]
    ensures Fits(f) && Inside(f) && Separate(f) && CopiedInside(Narrowed(f, head)) && !Unmistakable(f.headers[0])
    ensures Laid(Narrowed(f, head), 1).headers[0].length == 24
  {
  }

  // ----- the conversions' loops -----

  /** Clears a table and writes its narrow entries to the front of its place, one by one. */
  method NarrowInto(o0: seq<Byte>, at: nat, kind: nat, d: seq<Byte>) returns (o: seq<Byte>, ok: bool)
    requires at + |d| <= |o0|
    ensures o == Splice(o0, at, Shrunk(kind, d)) && ok == TableFits(kind, d)
  {
    hide NarrowItem, ItemFits, Splice, Padded;
    var w, rest := WideOf(kind), d;
    ghost var done: seq<Byte> := [];
    var to: nat := at;
    o, ok := Splice(o0, at, Zeros(|d|)), true;
    Shrinks(kind, |d|);
    PaddedNothing(|d|);
    Joined([], [], NarrowTable(kind, d));
    while |rest| >= w
      invariant to == at + |done| && NarrowTable(kind, d) == done + NarrowTable(kind, rest)
      invariant |done| + |NarrowTable(kind, rest)| <= |d| && o == Splice(o0, at, Padded(done, |d|))
      invariant TableFits(kind, d) == (ok && TableFits(kind, rest))
      decreases |rest|
    {
      var item := NarrowItem(kind, rest[..w]);
      SpliceNext(o0, at, done, item, |d|);
      Joined(done, item, NarrowTable(kind, rest[w..]));
      ok := ok && ItemFits(kind, rest[..w]);
      o := Splice(o, to, item);
      done, to, rest := done + item, to + |item|, rest[w..];
    }
    assert done + [] == done;
    PaddedTable(kind, d);
  }

  /** What has been written, with zeros up to the table's old length. */
  function Padded(done: seq<Byte>, n: nat): (b: seq<Byte>)
    requires |done| <= n
    ensures |b| == n
  {
    done + Zeros(n - |done|)
  }

  lemma PaddedNothing(n: nat)
    ensures Padded([], n) == Zeros(n)
  {
  }

  lemma PaddedTable(kind: nat, d: seq<Byte>)
    ensures |NarrowTable(kind, d)| <= |d| && Padded(NarrowTable(kind, d), |d|) == Shrunk(kind, d)
  {
    Shrinks(kind, |d|);
  }

  lemma Joined(a: seq<Byte>, b: seq<Byte>, c: seq<Byte>)
    ensures a + (b + c) == (a + b) + c && [] + c == c
  {
  }

  /** Writing the next entry behind those already written. */
  lemma SpliceNext(o: seq<Byte>, at: nat, done: seq<Byte>, item: seq<Byte>, n: nat)
    requires |done| + |item| <= n && at + n <= |o|
    ensures Splice(Splice(o, at, Padded(done, n)), at + |done|, item) == Splice(o, at, Padded(done + item, n))
  {
  }

  /** Narrows a file, or refuses it because a section is outside the file or a value does not fit. */
  method Narrow(f: File, head: seq<Byte>) returns (r: Option<File>)
    requires |head| == 64 <= |f.bytes|
    ensures r.Some? <==> Fits(f)
    ensures r.Some? ==> Inside(f) && r.value == Narrowed(f, head)
  {
    hide TableFits, Shrunk, HeaderFits, NarrowHeader, Splice, WideEntry;
    var o, headers, i := Splice(f.bytes, 0, head), [], 0;
    ghost var so := f.(headers := []);
    while i < |f.headers|
      invariant i <= |f.headers| && |headers| == i
      invariant forall k :: 0 <= k < i ==> SectionFits(f, f.headers[k]) && headers[k] == NarrowHeader(f.headers[k])
      invariant so == f.(headers := f.headers[..i]) && Inside(so) && o == NarrowBytes(so, head, i)
    {
      var h, ok := f.headers[i], true;
      if Stored(h) && h.at + h.length > |f.bytes| {
        return None;
      }
      ghost var next := f.(headers := f.headers[..i + 1]);
      PrefixBytes(so, next, head, i);
      if WideEntry(h) > 0 {
        TablesStored(h);
        o, ok := NarrowInto(o, h.at, h.kind, Content(f, h));
      }
      if !ok || !HeaderFits(NarrowHeader(h)) {
        return None;
      }
      headers := headers + [NarrowHeader(h)];
      i, so := i + 1, next;
    }
    assert f.headers[..i] == f.headers;
    r := Some(File(headers, o));
  }

  lemma TablesStored(h: Header)
    requires WideEntry(h) > 0
    ensures Stored(h)
  {
  }

  /** The buffer so far does not depend on sections that come later. */
  lemma {:induction false} PrefixBytes(a: File, b: File, head: seq<Byte>, n: nat)
    requires n <= |a.headers| && a.headers <= b.headers && a.bytes == b.bytes && |head| == 64 <= |a.bytes| && Inside(a) && Inside(b)
    ensures NarrowBytes(a, head, n) == NarrowBytes(b, head, n)
  {
    hide Splice, Shrunk, WideEntry;
    if n > 0 {
      PrefixBytes(a, b, head, n - 1);
      assert a.headers[n - 1] == b.headers[n - 1];
    }
  }

  /** Widens a relocatable file, or refuses one with a section outside the file. */
  method Widen(f: File) returns (r: Option<File>)
    ensures r.Some? <==> CopiedInside(f)
    ensures r.Some? ==> r.value == Laid(f, |f.headers|)
  {
    hide WidenContent, WidenHeader, AlignTo;
    var k := 0;
    while k < |f.headers|
      invariant k <= |f.headers|
      invariant forall i :: 0 <= i < k && Copied(f.headers[i]) ==> f.headers[i].at + f.headers[i].length <= |f.bytes|
    {
      if Copied(f.headers[k]) && f.headers[k].at + f.headers[k].length > |f.bytes| {
        return None;
      }
      k := k + 1;
    }
    var headers: seq<Header>, o, i := [], Zeros(64), 0;
    while i < |f.headers|
      invariant i <= |f.headers| && File(headers, o) == Laid(f, i)
    {
      var h := f.headers[i];
      var at := AlignTo(|o|, WidenHeader(h, 0).align);
      o := o + Zeros(at - |o|);
      if Copied(h) {
        headers := headers + [WidenHeader(h, at)];
        o := o + WidenContent(f, h);
      } else {
        headers := headers + [WidenHeader(h, 0)];
      }
      i := i + 1;
    }
    r := Some(File(headers, o));
  }
}
