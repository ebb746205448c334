/** Variable-length unsigned numbers, seven bits a byte, low bits first. */
module Leb128 {
  import opened Nonlinear
  import opened Integers

  type Byte = n: nat | n < 0x100

  function Uleb(n: nat): (b: seq<Byte>)
    ensures |b| > 0
  {
    if n < 0x80 then [n] else [n % 0x80 + 0x80] + Uleb(n / 0x80)
  }

  function UlebSize(n: nat): (size: nat)
    ensures size == |Uleb(n)|
  {
    if n < 0x80 then 1 else 1 + UlebSize(n / 0x80)
  }

  /** The number at `p` and the position behind it; the end of the data ends a number. */
  function ReadUleb(data: seq<Byte>, p: nat): (r: (nat, nat))
    ensures p <= r.1 && (p <= |data| ==> r.1 <= |data|)
    decreases |data| - p
  {
    if p >= |data| then (0, p)
    else if data[p] < 0x80 then (data[p], p + 1)
    else
      var rest := ReadUleb(data, p + 1);
      (data[p] % 0x80 + 0x80 * rest.0, rest.1)
  }

  /** `part` is found in `data` at `p`. */
  predicate At(data: seq<Byte>, p: nat, part: seq<Byte>) {
    p + |part| <= |data| && data[p..p + |part|] == part
  }

  lemma AtSplit(data: seq<Byte>, p: nat, a: seq<Byte>, b: seq<Byte>)
    requires At(data, p, a + b)
    ensures At(data, p, a) && At(data, p + |a|, b)
  {
    assert data[p..p + |a|] == data[p..p + |a + b|][..|a|] == (a + b)[..|a|];
    assert data[p + |a|..p + |a + b|] == data[p..p + |a + b|][|a|..] == (a + b)[|a|..];
  }

  lemma {:induction false} UlebRoundTrip(data: seq<Byte>, p: nat, n: nat)
    requires At(data, p, Uleb(n))
    ensures ReadUleb(data, p) == (n, p + |Uleb(n)|)
    decreases n
  {
    assert data[p] == Uleb(n)[0];
    if n >= 0x80 {
      AtSplit(data, p, [Uleb(n)[0]], Uleb(n / 0x80));
      UlebRoundTrip(data, p + 1, n / 0x80);
    }
  }

  /** No encoding of a number is shorter. */
  lemma {:induction false} UlebShortest(data: seq<Byte>, p: nat)
    requires p < |data|
    ensures p < ReadUleb(data, p).1 && |Uleb(ReadUleb(data, p).0)| <= ReadUleb(data, p).1 - p
    decreases |data| - p
  {
    if data[p] >= 0x80 && p + 1 < |data| {
      UlebShortest(data, p + 1);
    }
  }

  /** The writer's loop. */
  method PutUleb(bytes: seq<Byte>, number: nat) returns (r: seq<Byte>)
    ensures r == bytes + Uleb(number)
  {
    r := bytes;
    var value, more := number, true;
    while more
      invariant if more then bytes + Uleb(number) == r + Uleb(value) else r == bytes + Uleb(number)
      decreases more, value
    {
      var low: Byte := value % 0x80;
      value := value / 0x80;
      more := value != 0;
      r := r + [if more then low + 0x80 else low];
    }
  }

  method MeasureUleb(number: nat) returns (n: nat)
    ensures n == UlebSize(number)
  {
    n := 1;
    var value: nat := number / 0x80;
    while value != 0
      invariant UlebSize(number) == if value == 0 then n else n + UlebSize(value)
    {
      n := n + 1;
      value := value / 0x80;
    }
  }

  function Plus(value: nat, weight: nat, rest: nat): nat {
    value + weight * rest
  }

  lemma PlusGroup(value: nat, weight: nat, low: nat, high: nat)
    ensures Plus(value, weight, low + 0x80 * high) == Plus(value + low * weight, weight * 0x80, high)
    ensures Plus(value, weight, low) == value + low * weight
    ensures Plus(value, weight, 0) == value && Plus(0, 1, high) == high
  {
  }

  /** The reader's loop, which adds up shifted groups. */
  method GetUleb(data: seq<Byte>, start: nat) returns (value: nat, p: nat)
    ensures (value, p) == ReadUleb(data, start)
  {
    hide Pow2, Plus, ReadUleb;
    value, p := 0, start;
    var shift: nat := 0;
    Groups(0);
    PlusGroup(0, 1, 0, ReadUleb(data, p).0);
    while p < |data|
      invariant start <= p
      invariant ReadUleb(data, start) == (Plus(value, Pow2(shift), ReadUleb(data, p).0), ReadUleb(data, p).1)
      decreases |data| - p
    {
      var byte, weight := data[p], Pow2(shift);
      UlebStep(data, p);
      PlusGroup(value, weight, byte % 0x80, ReadUleb(data, p + 1).0);
      value := value + byte % 0x80 * weight;
      p := p + 1;
      if byte < 0x80 {
        return;
      }
      Groups(shift);
      shift := shift + 7;
    }
    UlebStep(data, p);
    PlusGroup(value, Pow2(shift), 0, 0);
  }

  lemma UlebStep(data: seq<Byte>, p: nat)
    ensures ReadUleb(data, p) ==
            if p >= |data| then (0, p)
            else if data[p] < 0x80 then (data[p] % 0x80, p + 1)
            else (data[p] % 0x80 + 0x80 * ReadUleb(data, p + 1).0, ReadUleb(data, p + 1).1)
  {
  }

  lemma Groups(shift: nat)
    ensures Pow2(shift + 7) == Pow2(shift) * 0x80 && Pow2(0) == 1
  {
    Pow2Add(shift, 7);
    assert Pow2(7) == 0x80;
  }
}
