/**
 Compaction of `.eh_frame`: records of dead code are dropped, the rest move together.

 A record is a length word and its bytes (section 10.6.1 of the Linux Standard Base Core
 Specification). The word behind the length is zero in a CIE; in an FDE it is the distance
 back to the FDE's CIE, which the linker must adapt when records between them disappear.
 */
module EhFrame {
  import opened Options
  import opened Leb128

  datatype Rela = Rela(offset: nat, symbol: nat, kind: nat, addend: nat)

  datatype Section = Section(data: seq<Byte>, relas: seq<Rela>)

  /** `cie` is where an FDE's CIE should start; a negative number is a wrapped one, where no record starts. */
  datatype Record = Record(start: nat, size: nat, cie: int, fde: bool)

  datatype Error = Malformed | FdeWithoutCie

  datatype Result<T> = Ok(value: T) | Err(error: Error)

  const WordLimit: nat := 0x1_0000_0000

  function Read32(data: seq<Byte>, at: nat): (n: nat)
    requires at + 4 <= |data|
    ensures n < WordLimit
  {
    var b0: nat, b1: nat, b2: nat, b3: nat := data[at], data[at + 1], data[at + 2], data[at + 3];
    b0 + 0x100 * b1 + 0x1_0000 * b2 + 0x100_0000 * b3
  }

  function Word32(n: nat): (b: seq<Byte>)
    ensures |b| == 4
  {
    var n1 := n / 0x100;
    var n2 := n1 / 0x100;
    [n % 0x100, n1 % 0x100, n2 % 0x100, n2 / 0x100 % 0x100]
  }

  lemma WordRoundTrip(data: seq<Byte>, at: nat, n: nat)
    requires n < WordLimit && At(data, at, Word32(n))
    ensures Read32(data, at) == n
  {
    var b := data[at..at + 4];
    assert data[at] == b[0] && data[at + 1] == b[1] && data[at + 2] == b[2] && data[at + 3] == b[3];
  }

  // ----- parsing -----

  function RecordAt(data: seq<Byte>, at: nat): Record
    requires at + 4 <= |data| && at + 4 + Read32(data, at) <= |data|
  {
    var length := Read32(data, at);
    var id := if length >= 4 then Read32(data, at + 4) else 0;
    Record(at, length + 4, if id != 0 then at + 4 - id else 0, id != 0)
  }

  /** The records from `at` on, up to a zero length or the end. */
  function Parse(data: seq<Byte>, at: nat): Result<seq<Record>>
    decreases |data| - at
  {
    if at + 4 > |data| then Ok([])
    else
      var length := Read32(data, at);
      if length == 0 then Ok([])
      else if length == 0xffff_ffff || length + 4 > |data| - at then Err(Malformed)
      else
        match Parse(data, at + length + 4)
        case Ok(rest) => Ok([RecordAt(data, at)] + rest)
        case Err(e) => Err(e)
  }

  /** A record as the data has it. */
  predicate Present(data: seq<Byte>, r: Record) {
    && 4 < r.size < 0xffff_ffff + 4 && r.start + r.size <= |data|
    && Read32(data, r.start) + 4 == r.size
    && r == RecordAt(data, r.start)
  }

  /** Records that lie one behind the other from `at` to `end`. */
  predicate Chain(records: seq<Record>, at: nat, end: nat) {
    if records == [] then at == end
    else records[0].start == at && Chain(records[1..], at + records[0].size, end)
  }

  predicate Laid(data: seq<Byte>, records: seq<Record>, at: nat, end: nat) {
    end <= |data| && Chain(records, at, end) && forall i :: 0 <= i < |records| ==> Present(data, records[i])
  }

  lemma {:induction false} ParseLaid(data: seq<Byte>, at: nat) returns (end: nat)
    requires at <= |data| && Parse(data, at).Ok?
    ensures Laid(data, Parse(data, at).value, at, end)
    decreases |data| - at
  {
    end := at;
    if at + 4 <= |data| && Read32(data, at) != 0 {
      end := ParseLaid(data, at + Read32(data, at) + 4);
    }
  }

  /** Records laid to the end of the data are what parsing finds. */
  lemma {:induction false} LaidParse(data: seq<Byte>, records: seq<Record>, at: nat)
    requires Laid(data, records, at, |data|)
    ensures Parse(data, at) == Ok(records)
    decreases |records|
  {
    if records != [] {
      assert Present(data, records[0]) && records == [records[0]] + records[1..];
      LaidParse(data, records[1..], at + records[0].size);
    }
  }

  lemma {:induction false} ChainAppend(records: seq<Record>, r: Record, at: nat, end: nat)
    requires Chain(records, at, end) && r.start == end
    ensures Chain(records + [r], at, end + r.size)
  {
    if records == [] {
      assert [] + [r] == [r] && [r][1..] == [];
    } else {
      assert (records + [r])[1..] == records[1..] + [r];
      ChainAppend(records[1..], r, at + records[0].size, end);
    }
  }

  lemma {:induction false} ChainOrder(records: seq<Record>, at: nat, end: nat, i: nat, j: nat)
    requires Chain(records, at, end) && i < j < |records|
    ensures at <= records[i].start && records[i].start + records[i].size <= records[j].start
    ensures records[j].start + records[j].size <= end
  {
    if i > 0 {
      ChainOrder(records[1..], at + records[0].size, end, i - 1, j - 1);
    } else if j > 1 {
      ChainOrder(records[1..], at + records[0].size, end, 0, j - 1);
    } else {
      ChainStart(records[2..], at + records[0].size + records[1].size, end);
    }
  }

  lemma {:induction false} ChainStart(records: seq<Record>, at: nat, end: nat)
    requires Chain(records, at, end)
    ensures at <= end
  {
    if records != [] {
      ChainStart(records[1..], at + records[0].size, end);
    }
  }

  /** More data behind it does not change a record. */
  lemma PresentPrefix(data: seq<Byte>, more: seq<Byte>, r: Record)
    requires Present(data, r)
    ensures Present(data + more, r)
  {
  }

  // ----- which records stay -----

  /** The symbol of the first relocation at an offset. */
  function SymbolAt(relas: seq<Rela>, offset: nat): Option<nat> {
    if relas == [] then None
    else if relas[0].offset == offset then Some(relas[0].symbol)
    else SymbolAt(relas[1..], offset)
  }

  /** The code an FDE describes is named by the relocation behind its CIE pointer; `alive` are the symbols in live sections. */
  predicate Covers(relas: seq<Rela>, alive: set<nat>, r: Record) {
    var s := SymbolAt(relas, r.start + 8);
    s.Some? && s.value in alive
  }

  /** An FDE as a compiler writes it: its length, the distance to its CIE, and what begins with the code's address. */
  function FdeBytes(distance: nat, rest: seq<Byte>): seq<Byte> {
    Word32((4 + |rest|) % WordLimit) + (Word32(distance % WordLimit) + rest)
  }

  /** Such an FDE covers the code that the relocation of its address names. */
  lemma AddressNamesCode(data: seq<Byte>, before: seq<Byte>, distance: nat, rest: seq<Byte>, after: seq<Byte>, relas: seq<Rela>, alive: set<nat>)
    requires 0 < distance < WordLimit && 4 + |rest| < WordLimit && data == before + FdeBytes(distance, rest) + after
    ensures |before| + 4 + Read32(data, |before|) <= |data|
    ensures var r, address := RecordAt(data, |before|), SymbolAt(relas, |before + Word32(4 + |rest|) + Word32(distance)|);
            && r.fde && r.size == |FdeBytes(distance, rest)| && r.cie == |before| + 4 - distance
            && (Covers(relas, alive, r) <==> address.Some? && address.value in alive)
  {
    hide Read32, Word32;
    var n := 4 + |rest|;
    assert data[|before|..|before| + 4] == Word32(n) && data[|before| + 4..|before| + 8] == Word32(distance);
    WordRoundTrip(data, |before|, n);
    WordRoundTrip(data, |before| + 4, distance);
  }

  /** FDEs of live code, and the CIEs that these name. */
  predicate Stays(records: seq<Record>, relas: seq<Rela>, alive: set<nat>, i: nat)
    requires i < |records|
  {
    if records[i].fde then Covers(relas, alive, records[i])
    else exists k :: 0 <= k < |records| && records[k].fde && Covers(relas, alive, records[k]) && records[k].cie == records[i].start
  }

  /** The CIE at a position, if there is one. */
  function CieAt(records: seq<Record>, start: int, n: nat): (k: nat)
    requires n <= |records|
    ensures k <= n
    ensures k < n ==> !records[k].fde && records[k].start == start
    ensures k == n ==> forall i :: 0 <= i < n ==> records[i].fde || records[i].start != start
  {
    if n == 0 then 0
    else
      var k := CieAt(records, start, n - 1);
      if k < n - 1 then k
      else if !records[n - 1].fde && records[n - 1].start == start then n - 1
      else n
  }

  // ----- the compacted section -----

  datatype Plan = Plan(data: seq<Byte>, relas: seq<Rela>, records: seq<Record>, keep: seq<bool>)

  predicate Fits(p: Plan) {
    |p.keep| == |p.records|
  }

  /** Where a record goes: behind the kept records before it. */
  function NewStart(p: Plan, i: nat): nat
    requires Fits(p) && i <= |p.records|
  {
    if i == 0 then 0 else NewStart(p, i - 1) + (if p.keep[i - 1] then p.records[i - 1].size else 0)
  }

  /** Where the CIE of an FDE goes. */
  function NewCie(p: Plan, i: nat): nat
    requires Fits(p) && i < |p.records|
  {
    NewStart(p, CieAt(p.records, p.records[i].cie, |p.records|))
  }

  /** The bytes of a kept record: its own, with the CIE pointer of an FDE adapted. */
  function NewBytes(p: Plan, i: nat): seq<Byte>
    requires Fits(p) && i < |p.records|
  {
    var r := p.records[i];
    if r.start + r.size > |p.data| || r.size < 4 then []
    else
      var orig := p.data[r.start..r.start + r.size];
      if r.fde && r.size >= 8 && NewCie(p, i) <= NewStart(p, i) + 4
      then orig[..4] + Word32(NewStart(p, i) + 4 - NewCie(p, i)) + orig[8..] else orig
  }

  function NewData(p: Plan, n: nat): seq<Byte>
    requires Fits(p) && n <= |p.records|
  {
    if n == 0 then [] else NewData(p, n - 1) + (if p.keep[n - 1] then NewBytes(p, n - 1) else [])
  }

  /** The relocations inside a record, moved with it. */
  function Carried(relas: seq<Rela>, r: Record, to: nat): seq<Rela> {
    if relas == [] then []
    else
      (if Inside(r, relas[0]) then [Carry(r, to, relas[0])] else [])
      + Carried(relas[1..], r, to)
  }

  function NewRelas(p: Plan, n: nat): seq<Rela>
    requires Fits(p) && n <= |p.records|
  {
    if n == 0 then []
    else NewRelas(p, n - 1) + (if p.keep[n - 1] then Carried(p.relas, p.records[n - 1], NewStart(p, n - 1)) else [])
  }

  function NewRecord(p: Plan, i: nat): Record
    requires Fits(p) && i < |p.records|
  {
    var r := p.records[i];
    Record(NewStart(p, i), r.size, if r.fde then NewCie(p, i) else 0, r.fde)
  }

  /** The kept records in order, as they should be found afterwards. */
  function NewRecords(p: Plan, n: nat): seq<Record>
    requires Fits(p) && n <= |p.records|
  {
    if n == 0 then [] else NewRecords(p, n - 1) + (if p.keep[n - 1] then [NewRecord(p, n - 1)] else [])
  }

  /** Every kept FDE has its CIE. */
  predicate Paired(p: Plan, n: nat)
    requires Fits(p) && n <= |p.records|
  {
    forall i :: 0 <= i < n && p.keep[i] && p.records[i].fde ==> CieAt(p.records, p.records[i].cie, |p.records|) < |p.records|
  }

  /** Compaction moves records closer together, never apart. */
  lemma {:induction false} Closer(p: Plan, end: nat, k: nat, i: nat)
    requires Fits(p) && Chain(p.records, 0, end) && k <= i < |p.records|
    ensures NewStart(p, k) <= NewStart(p, i) && NewStart(p, i) - NewStart(p, k) <= p.records[i].start - p.records[k].start
    decreases i - k
  {
    if k < i {
      Closer(p, end, k, i - 1);
      ChainOrder(p.records, 0, end, i - 1, i);
    }
  }

  /** The adapted pointer is a nonzero word: the CIE lies before its FDE, no further off than it did. */
  lemma PointerFits(p: Plan, end: nat, i: nat)
    requires Fits(p) && Laid(p.data, p.records, 0, end) && i < |p.records| && p.records[i].fde
    requires CieAt(p.records, p.records[i].cie, |p.records|) < |p.records|
    ensures p.records[i].size >= 8 && CieAt(p.records, p.records[i].cie, |p.records|) < i
    ensures 0 < NewStart(p, i) + 4 - NewCie(p, i) < WordLimit
  {
    var k := CieAt(p.records, p.records[i].cie, |p.records|);
    assert Present(p.data, p.records[i]) && Present(p.data, p.records[k]);
    if k > i {
      ChainOrder(p.records, 0, end, i, k);
    }
    assert k != i;
    Closer(p, end, k, i);
  }

  lemma PresentBy(data: seq<Byte>, r: Record, id: nat)
    requires 4 < r.size < 0xffff_ffff + 4 && r.start + r.size <= |data| && Read32(data, r.start) + 4 == r.size
    requires id == if r.size >= 8 then Read32(data, r.start + 4) else 0
    requires r.fde == (id != 0) && r.cie == if id != 0 then r.start + 4 - id else 0
    ensures Present(data, r)
  {
  }

  lemma MiddlePart(before: seq<Byte>, a: seq<Byte>, b: seq<Byte>, c: seq<Byte>)
    ensures At(before + (a + b + c), |before| + |a|, b)
  {
  }

  /** The length word of a moved record is the old one; so is the word behind it, but for an FDE's pointer. */
  lemma MovedWords(p: Plan, i: nat, before: seq<Byte>)
    requires Fits(p) && i < |p.records| && Present(p.data, p.records[i]) && |before| == NewStart(p, i)
    requires p.records[i].fde ==> p.records[i].size >= 8 && 0 < NewStart(p, i) + 4 - NewCie(p, i) < WordLimit
    ensures |NewBytes(p, i)| == p.records[i].size
    ensures var r, data, at := p.records[i], before + NewBytes(p, i), |before|;
            && Read32(data, at) == Read32(p.data, r.start)
            && (r.fde ==> Read32(data, at + 4) == at + 4 - NewCie(p, i))
            && (!r.fde && r.size >= 8 ==> Read32(data, at + 4) == Read32(p.data, r.start + 4))
  {
    hide Read32, Word32, NewStart, NewCie, CieAt;
    var r, at := p.records[i], |before|;
    var orig, data := p.data[r.start..r.start + r.size], before + NewBytes(p, i);
    if r.fde {
      var pointer := Word32(at + 4 - NewCie(p, i));
      assert NewBytes(p, i) == orig[..4] + pointer + orig[8..];
      MiddlePart(before, orig[..4], pointer, orig[8..]);
      WordRoundTrip(data, at + 4, at + 4 - NewCie(p, i));
    } else {
      assert NewBytes(p, i) == orig;
    }
    SameWord(p.data, r.start, data, at);
    if r.size >= 8 && !r.fde {
      SameWord(p.data, r.start + 4, data, at + 4);
    }
  }

  lemma NewRecordPresent(p: Plan, end: nat, i: nat, before: seq<Byte>)
    requires Fits(p) && Laid(p.data, p.records, 0, end) && i < |p.records| && |before| == NewStart(p, i)
    requires p.records[i].fde ==> CieAt(p.records, p.records[i].cie, |p.records|) < |p.records|
    ensures |NewBytes(p, i)| == p.records[i].size
    ensures Present(before + NewBytes(p, i), NewRecord(p, i))
  {
    hide Read32, NewStart, NewCie, CieAt, NewBytes;
    var r, at := p.records[i], |before|;
    assert Present(p.data, r);
    if r.fde {
      PointerFits(p, end, i);
    }
    MovedWords(p, i, before);
    var data := before + NewBytes(p, i);
    PresentBy(data, NewRecord(p, i), if r.size >= 8 then Read32(data, at + 4) else 0);
  }

  lemma SameWord(a: seq<Byte>, i: nat, b: seq<Byte>, j: nat)
    requires i + 4 <= |a| && j + 4 <= |b|
    requires a[i] == b[j] && a[i + 1] == b[j + 1] && a[i + 2] == b[j + 2] && a[i + 3] == b[j + 3]
    ensures Read32(a, i) == Read32(b, j)
  {
  }

  lemma LaidAppend(data: seq<Byte>, records: seq<Record>, more: seq<Byte>, r: Record)
    requires Laid(data, records, 0, |data|) && r.start == |data| && |more| == r.size && Present(data + more, r)
    ensures Laid(data + more, records + [r], 0, |data| + r.size)
  {
    hide Present, Chain;
    ChainAppend(records, r, 0, |data|);
    forall i | 0 <= i < |records|
      ensures Present(data + more, records[i])
    {
      PresentPrefix(data, more, records[i]);
    }
  }

  lemma {:induction false} NewLaid(p: Plan, end: nat, n: nat)
    requires Fits(p) && Laid(p.data, p.records, 0, end) && n <= |p.records| && Paired(p, n)
    ensures |NewData(p, n)| == NewStart(p, n)
    ensures Laid(NewData(p, n), NewRecords(p, n), 0, NewStart(p, n))
    decreases n, 1
  {
    if n == 0 {
      assert Chain([], 0, 0);
    } else {
      NewLaidStep(p, end, n - 1);
    }
  }

  lemma {:induction false} NewLaidStep(p: Plan, end: nat, i: nat)
    requires Fits(p) && Laid(p.data, p.records, 0, end) && i < |p.records| && Paired(p, i + 1)
    ensures |NewData(p, i + 1)| == NewStart(p, i + 1)
    ensures Laid(NewData(p, i + 1), NewRecords(p, i + 1), 0, NewStart(p, i + 1))
    decreases i + 1, 0
  {
    hide Laid, Present, RecordAt, Read32, NewBytes, CieAt, Paired, NewData, NewRecords, NewStart, NewRecord, NewRelas, Carried, Chain;
    CompactStep(p, i);
    RecordsStep(p, i);
    NewLaid(p, end, i);
    if p.keep[i] {
      NewRecordPresent(p, end, i, NewData(p, i));
      LaidAppend(NewData(p, i), NewRecords(p, i), NewBytes(p, i), NewRecord(p, i));
    }
  }

  lemma RecordsStep(p: Plan, i: nat)
    requires Fits(p) && i < |p.records|
    ensures NewRecords(p, i + 1) == if p.keep[i] then NewRecords(p, i) + [NewRecord(p, i)] else NewRecords(p, i)
    ensures NewStart(p, i + 1) == if p.keep[i] then NewStart(p, i) + p.records[i].size else NewStart(p, i)
    ensures NewRecord(p, i).start == NewStart(p, i) && NewRecord(p, i).size == p.records[i].size
  {
  }

  /** Parsing the compacted section finds the kept records in order, each where it was moved. */
  lemma Reparses(p: Plan)
    requires Parse(p.data, 0) == Ok(p.records) && Fits(p) && Paired(p, |p.records|)
    ensures Parse(NewData(p, |p.records|), 0) == Ok(NewRecords(p, |p.records|))
  {
    var end := ParseLaid(p.data, 0);
    NewLaid(p, end, |p.records|);
    LaidParse(NewData(p, |p.records|), NewRecords(p, |p.records|), 0);
  }

  /** How many records before `i` are kept: the index of record `i` afterwards. */
  function Rank(p: Plan, i: nat): (n: nat)
    requires Fits(p) && i <= |p.records|
    ensures n == |NewRecords(p, i)|
  {
    if i == 0 then 0 else Rank(p, i - 1) + (if p.keep[i - 1] then 1 else 0)
  }

  lemma {:induction false} Ranked(p: Plan, i: nat, n: nat)
    requires Fits(p) && i < n <= |p.records| && p.keep[i]
    ensures Rank(p, i) < |NewRecords(p, n)| && NewRecords(p, n)[Rank(p, i)] == NewRecord(p, i)
    decreases n
  {
    if i < n - 1 {
      Ranked(p, i, n - 1);
    }
  }

  /** After compaction every kept FDE points at the moved copy of the CIE it pointed at before. */
  lemma CieFollows(p: Plan, alive: set<nat>, i: nat)
    requires Parse(p.data, 0) == Ok(p.records) && Fits(p) && Paired(p, |p.records|)
    requires forall k :: 0 <= k < |p.records| ==> p.keep[k] == Stays(p.records, p.relas, alive, k)
    requires i < |p.records| && p.keep[i] && p.records[i].fde
    ensures var k := CieAt(p.records, p.records[i].cie, |p.records|);
            && k < i && p.keep[k]
            && var records := NewRecords(p, |p.records|);
               Rank(p, k) < |records| && Rank(p, i) < |records|
               && records[Rank(p, i)].fde && !records[Rank(p, k)].fde
               && records[Rank(p, i)].cie == records[Rank(p, k)].start
  {
    var end := ParseLaid(p.data, 0);
    var k := CieAt(p.records, p.records[i].cie, |p.records|);
    PointerFits(p, end, i);
    Ranked(p, i, |p.records|);
    Ranked(p, k, |p.records|);
  }

  predicate Inside(r: Record, rela: Rela) {
    r.start <= rela.offset < r.start + r.size
  }

  /** A relocation at the same place in a record that now starts at `to`. */
  function Carry(r: Record, to: nat, rela: Rela): Rela
    requires Inside(r, rela)
  {
    rela.(offset := to + (rela.offset - r.start))
  }

  lemma {:induction false} CarriedIn(relas: seq<Rela>, r: Record, to: nat, was: Rela)
    requires was in relas && Inside(r, was)
    ensures Carry(r, to, was) in Carried(relas, r, to)
  {
    if was != relas[0] {
      CarriedIn(relas[1..], r, to, was);
    }
  }

  lemma {:induction false} CarriedFrom(relas: seq<Rela>, r: Record, to: nat, now: Rela) returns (was: Rela)
    requires now in Carried(relas, r, to)
    ensures was in relas && Inside(r, was) && now == Carry(r, to, was)
  {
    if Inside(r, relas[0]) && now == Carry(r, to, relas[0]) {
      was := relas[0];
    } else {
      was := CarriedFrom(relas[1..], r, to, now);
    }
  }

  /** Every relocation of a kept record stays at its place in the record. */
  lemma {:induction false} RelasKept(p: Plan, n: nat, i: nat, was: Rela)
    requires Fits(p) && i < n <= |p.records| && p.keep[i] && was in p.relas && Inside(p.records[i], was)
    ensures Carry(p.records[i], NewStart(p, i), was) in NewRelas(p, n)
  {
    if i == n - 1 {
      CarriedIn(p.relas, p.records[i], NewStart(p, i), was);
    } else {
      RelasKept(p, n - 1, i, was);
    }
  }

  /** Every relocation of the compacted section comes from a kept record. */
  lemma {:induction false} RelasOrigin(p: Plan, n: nat, now: Rela) returns (i: nat, was: Rela)
    requires Fits(p) && n <= |p.records| && now in NewRelas(p, n)
    ensures i < n && p.keep[i] && was in p.relas && Inside(p.records[i], was)
    ensures now == Carry(p.records[i], NewStart(p, i), was)
  {
    if now in NewRelas(p, n - 1) {
      i, was := RelasOrigin(p, n - 1, now);
    } else {
      i := n - 1;
      was := CarriedFrom(p.relas, p.records[i], NewStart(p, i), now);
    }
  }

  // ----- what a rewritten section holds -----

  /** The bytes of a record, but for the word with which an FDE points to its CIE. */
  predicate SameContents(was: seq<Byte>, r: Record, now: seq<Byte>, q: Record) {
    var from := if r.fde then 8 else 4;
    && q.size == r.size >= from && q.fde == r.fde && r.start + r.size <= |was| && q.start + q.size <= |now|
    && now[q.start..q.start + 4] == was[r.start..r.start + 4]
    && now[q.start + from..q.start + q.size] == was[r.start + from..r.start + r.size]
  }

  /** The CIE that an FDE named is the one that it names now. */
  predicate SameCie(p: Plan, now: seq<Record>, i: nat, c: nat)
    requires Fits(p) && i < |p.records| && c < |p.records|
  {
    && p.keep[c] && !p.records[c].fde && p.records[c].start == p.records[i].cie
    && Rank(p, c) < |now| && Rank(p, i) < |now| && now[Rank(p, i)].cie == now[Rank(p, c)].start && !now[Rank(p, c)].fde
  }

  /** A kept record is found again with its contents, its relocations and its CIE. */
  ghost predicate FoundAgain(p: Plan, s: Section, now: seq<Record>, i: nat)
    requires Fits(p) && i < |p.records|
  {
    var r, j := p.records[i], Rank(p, i);
    && j < |now| && SameContents(p.data, r, s.data, now[j])
    && (forall was :: was in p.relas && Inside(r, was) ==>
          Rela(now[j].start + (was.offset - r.start), was.symbol, was.kind, was.addend) in s.relas)
    && (r.fde ==> exists c :: 0 <= c < |p.records| && SameCie(p, now, i, c))
  }

  predicate CameFrom(p: Plan, now: seq<Record>, i: nat, was: Rela, rela: Rela)
    requires Fits(p) && i < |p.records|
  {
    && p.keep[i] && was in p.relas && Inside(p.records[i], was) && Rank(p, i) < |now|
    && rela == Rela(now[Rank(p, i)].start + (was.offset - p.records[i].start), was.symbol, was.kind, was.addend)
  }

  /** A section whose records are the kept ones in order; nothing else is in it. */
  ghost predicate Rewritten(p: Plan, s: Section, now: seq<Record>)
    requires Fits(p)
  {
    && |now| == Rank(p, |p.records|) && |s.relas| <= |p.relas|
    && (forall i :: 0 <= i < |p.records| && p.keep[i] ==> FoundAgain(p, s, now, i))
    && (forall rela :: rela in s.relas ==> exists i: nat, was :: i < |p.records| && CameFrom(p, now, i, was, rela))
  }

  lemma {:induction false} BytesStay(p: Plan, end: nat, i: nat, n: nat)
    requires Fits(p) && Laid(p.data, p.records, 0, end) && i < n <= |p.records| && p.keep[i] && Paired(p, n)
    ensures At(NewData(p, n), NewStart(p, i), NewBytes(p, i))
    decreases n
  {
    hide NewBytes, Laid, Paired, NewStart;
    PairedBefore(p, n);
    NewLaid(p, end, n - 1);
    if i < n - 1 {
      BytesStay(p, end, i, n - 1);
      AtMore(NewData(p, n - 1), NewStart(p, i), NewBytes(p, i), if p.keep[n - 1] then NewBytes(p, n - 1) else []);
    }
  }

  lemma PairedBefore(p: Plan, n: nat)
    requires Fits(p) && 0 < n <= |p.records| && Paired(p, n)
    ensures Paired(p, n - 1)
  {
  }

  lemma AtMore(data: seq<Byte>, at: nat, part: seq<Byte>, more: seq<Byte>)
    requires At(data, at, part)
    ensures At(data + more, at, part)
  {
    assert (data + more)[at..at + |part|] == data[at..at + |part|];
  }

  lemma MovedContents(p: Plan, i: nat, data: seq<Byte>)
    requires Fits(p) && i < |p.records| && Present(p.data, p.records[i]) && At(data, NewStart(p, i), NewBytes(p, i))
    requires p.records[i].fde ==> p.records[i].size >= 8 && 0 < NewStart(p, i) + 4 - NewCie(p, i) < WordLimit
    ensures SameContents(p.data, p.records[i], data, NewRecord(p, i))
  {
    hide Read32, Word32, NewStart, NewCie, CieAt, RecordAt;
    var r, at, from := p.records[i], NewStart(p, i), if p.records[i].fde then 8 else 4;
    var bytes, orig := NewBytes(p, i), p.data[r.start..r.start + r.size];
    assert bytes[..4] == orig[..4] && bytes[from..] == orig[from..];
    assert data[at..at + 4] == data[at..at + r.size][..4] && data[at + from..at + r.size] == data[at..at + r.size][from..];
    assert p.data[r.start..r.start + 4] == orig[..4] && p.data[r.start + from..r.start + r.size] == orig[from..];
  }

  lemma KeptFoundAgain(p: Plan, alive: set<nat>, end: nat, i: nat)
    requires Parse(p.data, 0) == Ok(p.records) && Fits(p) && Paired(p, |p.records|) && Laid(p.data, p.records, 0, end)
    requires forall k :: 0 <= k < |p.records| ==> p.keep[k] == Stays(p.records, p.relas, alive, k)
    requires i < |p.records| && p.keep[i]
    ensures var n := |p.records|; FoundAgain(p, Section(NewData(p, n), NewRelas(p, n)), NewRecords(p, n), i)
  {
    hide Parse, Stays, Paired, NewData, NewRelas, NewRecords, NewBytes, NewStart, NewCie, CieAt, SameContents;
    var n, r := |p.records|, p.records[i];
    Ranked(p, i, n);
    BytesStay(p, end, i, n);
    if r.fde {
      CieFollows(p, alive, i);
      PointerFits(p, end, i);
      assert SameCie(p, NewRecords(p, n), i, CieAt(p.records, r.cie, n)) by { CieThere(p, alive, i); }
    }
    MovedContents(p, i, NewData(p, n));
    forall was | was in p.relas && Inside(r, was)
      ensures Rela(NewRecord(p, i).start + (was.offset - r.start), was.symbol, was.kind, was.addend) in NewRelas(p, n)
    {
      RelasKept(p, n, i, was);
    }
  }

  lemma CieThere(p: Plan, alive: set<nat>, i: nat)
    requires Parse(p.data, 0) == Ok(p.records) && Fits(p) && Paired(p, |p.records|)
    requires forall k :: 0 <= k < |p.records| ==> p.keep[k] == Stays(p.records, p.relas, alive, k)
    requires i < |p.records| && p.keep[i] && p.records[i].fde
    ensures var c := CieAt(p.records, p.records[i].cie, |p.records|);
            c < |p.records| && SameCie(p, NewRecords(p, |p.records|), i, c)
  {
    hide Parse, Stays, NewRecords;
    CieFollows(p, alive, i);
  }

  lemma CarriedFirst(x: Rela, rest: seq<Rela>, r: Record, to: nat)
    ensures |Carried([x] + rest, r, to)| == |Carried([x], r, to)| + |Carried(rest, r, to)|
  {
    assert ([x] + rest)[1..] == rest && [x][1..] == [];
    assert Carried([x], r, to) == (if Inside(r, x) then [Carry(r, to, x)] else []) + Carried([], r, to);
  }

  lemma {:induction false} CarriedSplit(x: Rela, rest: seq<Rela>, p: Plan, n: nat)
    requires Fits(p) && n <= |p.records|
    ensures |NewRelas(p.(relas := [x] + rest), n)| == |NewRelas(p.(relas := [x]), n)| + |NewRelas(p.(relas := rest), n)|
    decreases n
  {
    hide Carried, NewStart;
    if n > 0 {
      CarriedSplit(x, rest, p, n - 1);
      SameStart(p, [x] + rest, n - 1);
      SameStart(p, [x], n - 1);
      SameStart(p, rest, n - 1);
      CarriedFirst(x, rest, p.records[n - 1], NewStart(p, n - 1));
    }
  }

  lemma {:induction false} SameStart(p: Plan, relas: seq<Rela>, n: nat)
    requires Fits(p) && n <= |p.records|
    ensures NewStart(p.(relas := relas), n) == NewStart(p, n)
    decreases n
  {
    if n > 0 {
      SameStart(p, relas, n - 1);
    }
  }

  /** One relocation lies in at most one record. */
  lemma {:induction false} CarriedOnce(x: Rela, p: Plan, end: nat, n: nat)
    requires Fits(p) && Chain(p.records, 0, end) && n <= |p.records|
    ensures |NewRelas(p.(relas := [x]), n)| <= 1
    ensures |NewRelas(p.(relas := [x]), n)| == 1 ==> exists i :: 0 <= i < n && Inside(p.records[i], x)
    decreases n
  {
    if n > 0 {
      CarriedOnce(x, p, end, n - 1);
      var r, q := p.records[n - 1], p.(relas := [x]);
      var to := NewStart(q, n - 1);
      assert [x][1..] == [];
      assert Carried([x], r, to) == (if Inside(r, x) then [Carry(r, to, x)] else []) + Carried([], r, to);
      if Inside(r, x) && |NewRelas(q, n - 1)| == 1 {
        var i :| 0 <= i < n - 1 && Inside(p.records[i], x);
        ChainOrder(p.records, 0, end, i, n - 1);
        assert false;
      }
    }
  }

  /** The relocations of the result fit where those of the section were. */
  lemma {:induction false} FewerRelas(p: Plan, end: nat)
    requires Fits(p) && Chain(p.records, 0, end)
    ensures |NewRelas(p, |p.records|)| <= |p.relas|
    decreases |p.relas|
  {
    hide NewRelas, Chain;
    var n := |p.records|;
    if p.relas == [] {
      NoRelas(p, n);
    } else {
      var x, rest := p.relas[0], p.relas[1..];
      assert p.relas == [x] + rest && p.(relas := [x] + rest) == p;
      CarriedSplit(x, rest, p, n);
      CarriedOnce(x, p, end, n);
      FewerRelas(p.(relas := rest), end);
    }
  }

  lemma {:induction false} NoRelas(p: Plan, n: nat)
    requires Fits(p) && n <= |p.records| && p.relas == []
    ensures NewRelas(p, n) == []
    decreases n
  {
    if n > 0 {
      NoRelas(p, n - 1);
    }
  }

  /** Compaction keeps the contents of all that stays, and adds nothing. */
  lemma ContentsKept(p: Plan, alive: set<nat>)
    requires Parse(p.data, 0) == Ok(p.records) && Fits(p) && Paired(p, |p.records|)
    requires forall k :: 0 <= k < |p.records| ==> p.keep[k] == Stays(p.records, p.relas, alive, k)
    ensures var n := |p.records|; Rewritten(p, Section(NewData(p, n), NewRelas(p, n)), NewRecords(p, n))
  {
    hide Parse, Stays, Paired, NewData, NewRelas, NewRecords, FoundAgain, NewStart;
    var n := |p.records|;
    var end := ParseLaid(p.data, 0);
    FewerRelas(p, end);
    forall i | 0 <= i < n && p.keep[i]
      ensures FoundAgain(p, Section(NewData(p, n), NewRelas(p, n)), NewRecords(p, n), i)
    {
      KeptFoundAgain(p, alive, end, i);
    }
    forall rela | rela in NewRelas(p, n)
      ensures exists i: nat, was :: i < n && CameFrom(p, NewRecords(p, n), i, was, rela)
    {
      var i, was := RelasOrigin(p, n, rela);
      Ranked(p, i, n);
      assert CameFrom(p, NewRecords(p, n), i, was, rela);
    }
  }

  // ----- the linker's loops -----

  function Prepend(records: seq<Record>, r: Result<seq<Record>>): Result<seq<Record>> {
    match r
    case Ok(rest) => Ok(records + rest)
    case Err(e) => Err(e)
  }

  lemma PrependStep(records: seq<Record>, r: Record, rest: Result<seq<Record>>)
    ensures Prepend(records, Prepend([r], rest)) == Prepend(records + [r], rest)
    ensures Prepend([], rest) == rest && Prepend(records, Ok([])) == Ok(records)
  {
    if rest.Ok? {
      assert records + ([r] + rest.value) == (records + [r]) + rest.value && [] + rest.value == rest.value;
    }
    assert records + [] == records;
  }

  method FrameRecords(data: seq<Byte>) returns (r: Result<seq<Record>>)
    ensures r == Parse(data, 0)
  {
    var records: seq<Record> := [];
    var at := 0;
    PrependStep([], Record(0, 0, 0, false), Parse(data, 0));
    while at + 4 <= |data|
      invariant Parse(data, 0) == Prepend(records, Parse(data, at))
      decreases |data| - at
    {
      var length := Read32(data, at);
      if length == 0 {
        break;
      }
      if length == 0xffff_ffff || length + 4 > |data| - at {
        return Err(Malformed);
      }
      PrependStep(records, RecordAt(data, at), Parse(data, at + length + 4));
      records := records + [RecordAt(data, at)];
      at := at + length + 4;
    }
    PrependStep(records, Record(0, 0, 0, false), Ok([]));
    r := Ok(records);
  }

  method FdeTarget(relas: seq<Rela>, r: Record) returns (symbol: Option<nat>)
    ensures symbol == SymbolAt(relas, r.start + 8)
  {
    var i := 0;
    assert relas[0..] == relas;
    while i < |relas|
      invariant i <= |relas| && SymbolAt(relas[i..], r.start + 8) == SymbolAt(relas, r.start + 8)
    {
      if relas[i].offset == r.start + 8 {
        return Some(relas[i].symbol);
      }
      i := i + 1;
    }
    symbol := None;
  }

  /** Marks the FDEs of live code, then the CIEs that marked FDEs name. */
  method Choose(records: seq<Record>, relas: seq<Rela>, alive: set<nat>) returns (keep: seq<bool>)
    ensures |keep| == |records| && forall i :: 0 <= i < |records| ==> keep[i] == Stays(records, relas, alive, i)
  {
    keep := seq(|records|, _ => false);
    var i := 0;
    while i < |records|
      invariant i <= |records| && |keep| == |records|
      invariant forall k :: 0 <= k < |records| ==> keep[k] == (k < i && records[k].fde && Covers(relas, alive, records[k]))
    {
      if records[i].fde {
        var target := FdeTarget(relas, records[i]);
        keep := keep[i := target.Some? && target.value in alive];
      }
      i := i + 1;
    }
    i := 0;
    while i < |records|
      invariant i <= |records| && |keep| == |records|
      invariant forall k :: 0 <= k < i ==> keep[k] == Stays(records, relas, alive, k)
      invariant forall k :: i <= k < |records| ==> keep[k] == (records[k].fde && Covers(relas, alive, records[k]))
      invariant forall k :: 0 <= k < |records| && records[k].fde ==> keep[k] == Covers(relas, alive, records[k])
    {
      if !records[i].fde {
        var named := Named(records, relas, alive, keep, i);
        keep := keep[i := named];
      }
      i := i + 1;
    }
  }

  method Named(records: seq<Record>, relas: seq<Rela>, ghost alive: set<nat>, keep: seq<bool>, i: nat) returns (named: bool)
    requires |keep| == |records| && i < |records| && !records[i].fde
    requires forall k :: 0 <= k < |records| && records[k].fde ==> keep[k] == Covers(relas, alive, records[k])
    ensures named == Stays(records, relas, alive, i)
  {
    named := false;
    var k := 0;
    while k < |records| && !named
      invariant k <= |records|
      invariant named == exists m :: 0 <= m < k && records[m].fde && keep[m] && records[m].cie == records[i].start
    {
      named := records[k].fde && keep[k] && records[k].cie == records[i].start;
      k := k + 1;
    }
  }

  method Starts(p: Plan) returns (starts: seq<nat>)
    requires Fits(p)
    ensures |starts| == |p.records| && forall i :: 0 <= i < |starts| ==> starts[i] == NewStart(p, i)
  {
    starts := [];
    var size, i := 0, 0;
    while i < |p.records|
      invariant i <= |p.records| && size == NewStart(p, i) && |starts| == i
      invariant forall k :: 0 <= k < i ==> starts[k] == NewStart(p, k)
    {
      starts := starts + [size];
      if p.keep[i] {
        size := size + p.records[i].size;
      }
      i := i + 1;
    }
  }

  /** The last CIE at a position, which is the only one. */
  method FindCie(records: seq<Record>, start: int, ghost end: nat) returns (k: nat)
    requires Chain(records, 0, end) && forall i :: 0 <= i < |records| ==> records[i].size > 0
    ensures k == CieAt(records, start, |records|)
  {
    k := |records|;
    var i := 0;
    while i < |records|
      invariant i <= |records|
      invariant if k == |records| then forall m :: 0 <= m < i ==> records[m].fde || records[m].start != start
                else k < i && !records[k].fde && records[k].start == start
    {
      if !records[i].fde && records[i].start == start {
        if k < i {
          ChainOrder(records, 0, end, k, i);
        }
        k := i;
      }
      i := i + 1;
    }
    var m := CieAt(records, start, |records|);
    if k < m < |records| {
      ChainOrder(records, 0, end, k, m);
    } else if m < k < |records| {
      ChainOrder(records, 0, end, m, k);
    }
  }

  method CarryRelas(relas: seq<Rela>, r: Record, to: nat, carried: seq<Rela>) returns (result: seq<Rela>)
    ensures result == carried + Carried(relas, r, to)
  {
    result := carried;
    var k := 0;
    assert relas[0..] == relas;
    while k < |relas|
      invariant k <= |relas| && result + Carried(relas[k..], r, to) == carried + Carried(relas, r, to)
    {
      assert relas[k..][0] == relas[k] && relas[k..][1..] == relas[k + 1..];
      if Inside(r, relas[k]) {
        result := result + [Carry(r, to, relas[k])];
      }
      k := k + 1;
    }
  }

  /** The compaction of a section whose records parse. */
  ghost predicate Compacted(p: Plan, r: Result<Section>)
    requires Fits(p)
  {
    if Paired(p, |p.records|) then r == Ok(Section(NewData(p, |p.records|), NewRelas(p, |p.records|)))
    else r == Err(FdeWithoutCie)
  }

  /** Copies the kept records and their relocations, adapting each FDE's pointer. */
  method Compact(p: Plan) returns (r: Result<Section>)
    requires Fits(p) && Parse(p.data, 0) == Ok(p.records)
    ensures Compacted(p, r)
  {
    hide Parse, Present, CieAt, NewBytes, Carried, NewStart, NewData, NewRelas, Paired;
    ghost var end := ParseLaid(p.data, 0);
    ParsedSizes(p, end);
    CompactStart(p);
    var starts := Starts(p);
    var data: seq<Byte> := [];
    var relas: seq<Rela> := [];
    var i := 0;
    while i < |p.records|
      invariant i <= |p.records| && Paired(p, i) && data == NewData(p, i) && relas == NewRelas(p, i)
    {
      CompactStep(p, i);
      if p.keep[i] {
        var k := 0;
        if p.records[i].fde {
          k := FindCie(p.records, p.records[i].cie, end);
          if k == |p.records| {
            return Err(FdeWithoutCie);
          }
          PointerFits(p, end, i);
        }
        var bytes := MovedBytes(p, i, starts[i], if p.records[i].fde then starts[k] else 0);
        data := data + bytes;
        relas := CarryRelas(p.relas, p.records[i], starts[i], relas);
      }
      i := i + 1;
    }
    r := Ok(Section(data, relas));
  }

  lemma ParsedSizes(p: Plan, end: nat)
    requires Laid(p.data, p.records, 0, end)
    ensures forall i :: 0 <= i < |p.records| ==> p.records[i].size > 0
  {
    forall i | 0 <= i < |p.records|
      ensures p.records[i].size > 0
    {
      assert Present(p.data, p.records[i]);
    }
  }

  lemma CompactStart(p: Plan)
    requires Fits(p)
    ensures NewData(p, 0) == [] && NewRelas(p, 0) == [] && Paired(p, 0)
  {
  }

  lemma CompactStep(p: Plan, i: nat)
    requires Fits(p) && i < |p.records|
    ensures NewData(p, i + 1) == if p.keep[i] then NewData(p, i) + NewBytes(p, i) else NewData(p, i)
    ensures NewRelas(p, i + 1) ==
            if p.keep[i] then NewRelas(p, i) + Carried(p.relas, p.records[i], NewStart(p, i)) else NewRelas(p, i)
    ensures var found := CieAt(p.records, p.records[i].cie, |p.records|) < |p.records|;
            && (Paired(p, i + 1) <==> Paired(p, i) && (p.keep[i] && p.records[i].fde ==> found))
            && (p.keep[i] && p.records[i].fde && !found ==> !Paired(p, |p.records|))
  {
  }

  method MovedBytes(p: Plan, i: nat, start: nat, cie: nat) returns (bytes: seq<Byte>)
    requires Fits(p) && i < |p.records| && Present(p.data, p.records[i]) && start == NewStart(p, i)
    requires p.records[i].fde ==> cie == NewCie(p, i) && cie < start + 4
    ensures bytes == NewBytes(p, i)
  {
    var r := p.records[i];
    bytes := p.data[r.start..r.start + r.size];
    if r.fde {
      bytes := bytes[..4] + Word32(start + 4 - cie) + bytes[8..];
    }
  }

  /** The plan for a section: its parsed records, and which of them stay. */
  ghost function PlanOf(section: Section, records: seq<Record>, alive: set<nat>): (p: Plan)
    ensures Fits(p)
  {
    Plan(section.data, section.relas, records,
         seq(|records|, i requires 0 <= i < |records| => Stays(records, section.relas, alive, i)))
  }

  /**
   The linker's rewriting of a section. It fails on malformed data and on an FDE that stays
   without its CIE; otherwise the result holds the moved records and relocations, and parsing
   it finds exactly the records that stay, with the contents they had.
   */
  method RewriteFrames(section: Section, alive: set<nat>) returns (r: Result<Section>)
    ensures match Parse(section.data, 0)
            case Err(e) => r == Err(e)
            case Ok(records) =>
              var p, n := PlanOf(section, records, alive), |records|;
              if !Paired(p, n) then r == Err(FdeWithoutCie)
              else
                && r == Ok(Section(NewData(p, n), NewRelas(p, n))) && Parse(r.value.data, 0) == Ok(NewRecords(p, n))
                && Rewritten(p, r.value, Parse(r.value.data, 0).value)
  {
    hide NewData, NewRelas, NewRecords, Stays, Paired, Parse, Rewritten;
    var parsed := FrameRecords(section.data);
    if parsed.Err? {
      return Err(parsed.error);
    }
    var keep := Choose(parsed.value, section.relas, alive);
    var plan := Plan(section.data, section.relas, parsed.value, keep);
    assert keep == PlanOf(section, parsed.value, alive).keep;
    r := Compact(plan);
    if r.Ok? {
      Reparses(plan);
      ContentsKept(plan, alive);
    }
  }
}
