/**
 Binary interchange formats: words with a sign, an exponent and a fraction field.

 A finite number is an integer count of the format's smallest subnormal, so that arithmetic on
 numbers is arithmetic on integers.
 */
module Floats {
  import opened Nonlinear
  import opened Integers

  datatype Format = Format(fraction: nat, exponent: nat)

  const Double := Format(52, 11)
  const Single := Format(23, 8)

  predicate Supported(f: Format) {
    f.fraction >= 1 && f.exponent >= 2
  }

  /** The formats of `double` and `float`. */
  lemma Formats()
    ensures Supported(Double) && WordSize(Double) == 0x1_0000_0000_0000_0000 && Exponents(Double) == 0x800
    ensures Supported(Single) && WordSize(Single) == 0x1_0000_0000 && Exponents(Single) == 0x100
  {
    Powers();
  }

  lemma Powers()
    ensures Pow2(8) == 0x100 && Pow2(11) == 0x800 && Pow2(23) == 0x80_0000 && Pow2(52) == 0x10_0000_0000_0000
  {
    hide Pow2;
    SmallPowers();
    Pow2Add(8, 3);
    Pow2Add(8, 8);
    Pow2Add(16, 7);
    Pow2Add(23, 23);
    Pow2Add(46, 6);
  }

  lemma SmallPowers()
    ensures Pow2(3) == 8 && Pow2(6) == 64 && Pow2(7) == 128 && Pow2(8) == 256
  {
    assert Pow2(2) == 4 && Pow2(4) == 16;
  }

  /** The weight of the lowest exponent bit, which is that of the implicit leading bit. */
  function Hidden(f: Format): (h: nat)
    ensures h > 0
  {
    Pow2(f.fraction)
  }

  function Exponents(f: Format): (n: nat)
    ensures n > 0
  {
    Pow2(f.exponent)
  }

  function SignBit(f: Format): (s: nat)
    ensures s > 0
  {
    Grows(Hidden(f), Exponents(f));
    Hidden(f) * Exponents(f)
  }

  function WordSize(f: Format): nat {
    2 * SignBit(f)
  }

  function ExponentOf(f: Format, u: nat): nat {
    u / Hidden(f) % Exponents(f)
  }

  function FractionOf(f: Format, u: nat): nat {
    u % Hidden(f)
  }

  function Magnitude(f: Format, u: nat): nat {
    u % SignBit(f)
  }

  function SignOf(f: Format, u: nat): nat {
    FloorBounds(u, SignBit(f));
    u / SignBit(f)
  }

  predicate Finite(f: Format, u: nat) {
    ExponentOf(f, u) + 1 < Exponents(f)
  }

  predicate IsNaN(f: Format, u: nat) {
    !Finite(f, u) && FractionOf(f, u) != 0
  }

  /** The number with exponent field `e` and fraction field `d`. */
  function ValueOf(f: Format, e: nat, d: nat): nat {
    if e == 0 then d else (Hidden(f) + d) * Pow2(e - 1)
  }

  function AbsValue(f: Format, u: nat): nat {
    ValueOf(f, ExponentOf(f, u), FractionOf(f, u))
  }

  function RealValue(f: Format, u: nat): int {
    var n: int := AbsValue(f, u);
    if SignOf(f, u) == 0 then n else -n
  }

  lemma Sizes(f: Format)
    requires Supported(f)
    ensures Exponents(f) >= 4 && Hidden(f) >= 2 && SignBit(f) >= 4 * Hidden(f)
  {
    assert Pow2(f.exponent) == 2 * Pow2(f.exponent - 1) == 4 * Pow2(f.exponent - 2);
    Monotone(Hidden(f), 4, Hidden(f), Exponents(f));
  }

  /** A word consists of its fields. */
  lemma Fields(f: Format, u: nat)
    requires Supported(f)
    ensures FractionOf(f, u) < Hidden(f) && ExponentOf(f, u) < Exponents(f) && Magnitude(f, u) < SignBit(f)
    ensures Magnitude(f, u) == ExponentOf(f, u) * Hidden(f) + FractionOf(f, u)
    ensures u == SignOf(f, u) * SignBit(f) + Magnitude(f, u)
    ensures u < WordSize(f) ==> SignOf(f, u) <= 1
  {
    var h, n := Hidden(f), Exponents(f);
    var a, d := u / h, u % h;
    DivMod(u, h);
    DivMod(a, n);
    FieldsAux(u, h, n, a, d, a / n, a % n);
    DivMod(u, SignBit(f));
    if u < WordSize(f) && SignOf(f, u) >= 2 {
      Monotone(2, SignBit(f), SignOf(f, u), SignBit(f));
    }
  }

  lemma FieldsAux(u: nat, h: nat, n: nat, a: nat, d: nat, s: nat, e: nat)
    requires Divides(u, h, a, d) && Divides(a, n, s, e)
    ensures h * n > 0 && u % (h * n) == e * h + d && u / (h * n) == s
  {
    Grows(h, n);
    Monotone(e + 1, h, n, h);
    assert (e + 1) * h == e * h + h;
    assert a * h == (s * n + e) * h == s * (h * n) + e * h;
    DivUnique(u, h * n, s, e * h + d);
  }

  /** A word built from fields has these fields. */
  lemma Assembled(f: Format, s: nat, e: nat, d: nat)
    requires Supported(f) && s <= 1 && e < Exponents(f) && d < Hidden(f)
    ensures var u := e * Hidden(f) + d + s * SignBit(f);
            u < WordSize(f) && SignOf(f, u) == s && ExponentOf(f, u) == e && FractionOf(f, u) == d
  {
    var h, n := Hidden(f), Exponents(f);
    var u := e * h + d + s * SignBit(f);
    Monotone(e + 1, h, n, h);
    assert (e + 1) * h == e * h + h;
    DivUnique(u, SignBit(f), s, e * h + d);
    assert s * (h * n) == (s * n) * h;
    assert (s * n + e) * h == (s * n) * h + e * h;
    DivUnique(u, h, s * n + e, d);
    DivUnique(s * n + e, n, s, e);
  }

  lemma {:induction false} Pow2Monotone(a: nat, b: nat)
    requires a <= b
    ensures Pow2(a) <= Pow2(b)
    ensures a < b ==> 2 * Pow2(a) <= Pow2(b)
  {
    if a < b {
      Pow2Monotone(a, b - 1);
    }
  }

  /** Numbers are ordered like their magnitudes. */
  lemma ValueMonotone(f: Format, u: nat, v: nat)
    requires Supported(f)
    ensures Magnitude(f, u) < Magnitude(f, v) ==> AbsValue(f, u) < AbsValue(f, v)
    ensures Magnitude(f, u) == Magnitude(f, v) ==> AbsValue(f, u) == AbsValue(f, v)
  {
    Fields(f, u);
    Fields(f, v);
    var h := Hidden(f);
    var e, d, e', d' := ExponentOf(f, u), FractionOf(f, u), ExponentOf(f, v), FractionOf(f, v);
    if Magnitude(f, u) == Magnitude(f, v) {
      DivUnique(Magnitude(f, u), h, e, d);
      DivUnique(Magnitude(f, u), h, e', d');
    } else if Magnitude(f, u) < Magnitude(f, v) {
      assert (e' + 1) * h == e' * h + h;
      if e' < e {
        Monotone(e' + 1, h, e, h);
      }
      ValueOrder(f, e, d, e', d');
    }
  }

  lemma Twice(h: nat, d: nat, p: nat)
    ensures h * (2 * p) == (h + d) * p + (h - d) * p
  {
    Distribute(h, d, p);
    assert h * (2 * p) == 2 * (h * p);
  }

  /** Numbers with an exponent are below those with the next one. */
  lemma BelowNext(f: Format, e: nat, d: nat)
    requires d < Hidden(f)
    ensures ValueOf(f, e, d) < Hidden(f) * Pow2(e)
  {
    hide Hidden;
    var h := Hidden(f);
    if e > 0 {
      var p := Pow2(e - 1);
      assert Pow2(e) == 2 * p;
      Twice(h, d, p);
      Monotone(1, p, h - d, p);
    }
  }

  lemma ValueOrder(f: Format, e: nat, d: nat, e': nat, d': nat)
    requires e < e' || (e == e' && d < d')
    requires d < Hidden(f) && d' < Hidden(f)
    ensures ValueOf(f, e, d) < ValueOf(f, e', d')
  {
    var h := Hidden(f);
    if e < e' {
      BelowNext(f, e, d);
      Pow2Monotone(e, e' - 1);
      Monotone(h, Pow2(e), h + d', Pow2(e' - 1));
    } else if e > 0 {
      var p := Pow2(e - 1);
      assert (h + d') * p == (h + d) * p + (d' - d) * p;
      Grows(p, d' - d);
    }
  }
}
