/**
 The runtime's floating remainder: shift-and-subtract on significands in machine words.

 One text serves `fmod` (`Double`) and `fmodf` (`Single`). Words are natural numbers below
 `WordSize`; shifts and subtractions wrap as in C.
 */
module Fmod {
  import opened Nonlinear
  import opened Integers
  import opened Floats

  datatype Number = Bits(u: nat) | NotANumber

  function ShiftLeft(f: Format, u: nat, k: nat): nat {
    u * Pow2(k) % WordSize(f)
  }

  function Minus(f: Format, a: nat, b: nat): nat {
    (a - b) % WordSize(f)
  }

  /** The number `v * 2^(e-1)`, scaled by `2^(fraction+1)` so that exponents down to `-fraction` give integers. */
  function Scaled(f: Format, v: nat, e: int): nat
    requires e + f.fraction >= 0
  {
    v * Pow2(e + f.fraction)
  }

  function Scale(f: Format): nat {
    Pow2(f.fraction + 1)
  }

  // ----- words -----

  /** Shifting out the sign. */
  lemma ShiftedMagnitude(f: Format, u: nat)
    requires Supported(f) && u < WordSize(f)
    ensures ShiftLeft(f, u, 1) == 2 * Magnitude(f, u)
  {
    Fields(f, u);
    assert Pow2(1) == 2;
    assert u * 2 == SignOf(f, u) * WordSize(f) + 2 * Magnitude(f, u);
    DivUnique(u * 2, WordSize(f), SignOf(f, u), 2 * Magnitude(f, u));
  }

  /** Shifting a subnormal loses its sign and, while it fits, nothing else. */
  lemma ShiftedFraction(f: Format, u: nat, k: nat)
    requires Supported(f) && ExponentOf(f, u) == 0 && k >= 1 && FractionOf(f, u) * Pow2(k) < WordSize(f)
    ensures ShiftLeft(f, u, k) == FractionOf(f, u) * Pow2(k)
  {
    Fields(f, u);
    var s, d, p := SignOf(f, u), FractionOf(f, u), Pow2(k - 1);
    assert Pow2(k) == 2 * p;
    Distributed(s, SignBit(f), d, p);
    DivUnique(u * Pow2(k), WordSize(f), s * p, d * Pow2(k));
  }

  lemma Distributed(s: nat, b: nat, d: nat, p: nat)
    ensures (s * b + d) * (2 * p) == (s * p) * (2 * b) + d * (2 * p)
  {
    assert (s * b) * (2 * p) == (s * p) * (2 * b);
  }

  lemma Doubled(f: Format, u: nat)
    requires u < SignBit(f)
    ensures ShiftLeft(f, u, 1) == 2 * u
  {
    assert Pow2(1) == 2;
    DivUnique(u * 2, WordSize(f), 0, u * 2);
  }

  /** The sign of a wrapped difference tells which operand is larger. */
  lemma Difference(f: Format, a: nat, b: nat)
    requires a < SignBit(f) && b < SignBit(f)
    ensures Minus(f, a, b) / SignBit(f) == 0 <==> a >= b
    ensures a >= b ==> Minus(f, a, b) == a - b
  {
    var w := WordSize(f);
    if a >= b {
      DivUnique(a - b, w, 0, a - b);
      DivUnique(a - b, SignBit(f), 0, a - b);
    } else {
      DivUnique(a - b, w, -1, a - b + w);
      DivUnique(a - b + w, SignBit(f), 1, a - b + SignBit(f));
    }
  }

  // ----- significands -----

  /** Subtracting the divisor at a higher exponent removes a multiple of the divisor. */
  lemma Subtracted(f: Format, vx: nat, ex: int, vy: nat, ey: int)
    requires ey + f.fraction >= 0 && ex >= ey && vx >= vy
    ensures Scaled(f, vx, ex) == Scaled(f, vx - vy, ex) + Pow2(ex - ey) * Scaled(f, vy, ey)
  {
    var p, q := Pow2(ey + f.fraction), Pow2(ex - ey);
    Pow2Add(ex - ey, ey + f.fraction);
    assert vx * (q * p) == (vx - vy) * (q * p) + vy * (q * p);
    assert vy * (q * p) == q * (vy * p);
  }

  lemma Halved(f: Format, v: nat, e: int)
    requires e + f.fraction >= 1
    ensures Scaled(f, 2 * v, e - 1) == Scaled(f, v, e)
  {
    assert Pow2(e + f.fraction) == 2 * Pow2(e - 1 + f.fraction);
    assert (2 * v) * Pow2(e - 1 + f.fraction) == v * (2 * Pow2(e - 1 + f.fraction));
  }

  /** Among normalized significands the larger number has the larger exponent. */
  lemma ExponentsOrdered(f: Format, vx: nat, ex: int, vy: nat, ey: int)
    requires ex + f.fraction >= 0 && ey + f.fraction >= 0
    requires vx < 2 * Hidden(f) && Hidden(f) <= vy && Scaled(f, vx, ex) > Scaled(f, vy, ey)
    ensures ex >= ey
  {
    var p, h := Pow2(ex + f.fraction), Hidden(f);
    assert (2 * h) * p == h * (2 * p);
    Monotone(vx, p, 2 * h, p);
    if ex < ey {
      Pow2Monotone(ex + f.fraction, ey + f.fraction);
      Monotone(h, 2 * p, vy, Pow2(ey + f.fraction));
    }
  }

  lemma ScaledNormal(f: Format, e: nat, d: nat)
    requires e > 0
    ensures Scaled(f, Hidden(f) + d, e) == ValueOf(f, e, d) * Scale(f)
  {
    Pow2Add(e - 1, f.fraction + 1);
    var v, p, q := Hidden(f) + d, Pow2(e - 1), Scale(f);
    assert v * (p * q) == (v * p) * q;
  }

  lemma ScaledSubnormal(f: Format, d: nat, k: nat)
    requires 1 <= k <= f.fraction + 1
    ensures Scaled(f, d * Pow2(k), 1 - k) == d * Scale(f)
  {
    hide Pow2;
    var p, q := Pow2(k), Pow2(1 - k + f.fraction);
    Pow2Add(k, 1 - k + f.fraction);
    assert (d * p) * q == d * (p * q);
  }

  /** A positive number below `2^(fraction+1)` times `2^k` bounds `k`. */
  lemma ShiftBounded(f: Format, d: nat, k: nat)
    requires d > 0 && d * Pow2(k) < 2 * Hidden(f)
    ensures k <= f.fraction
  {
    Grows(Pow2(k), d);
    if k > f.fraction {
      Pow2Monotone(f.fraction, k);
    }
  }

  /** Doubling a significand below the hidden bit, in both registers of the search. */
  lemma ShiftStep(f: Format, d: nat, e: int, g: nat, i: nat)
    requires e <= 0 && g == d * Pow2(1 - e) && i == g * Exponents(f) && i / SignBit(f) == 0 && g > 0
    ensures ShiftLeft(f, i, 1) == 2 * i == (2 * g) * Exponents(f) && i > 0 && 2 * i < WordSize(f)
    ensures 2 * g == d * Pow2(1 - (e - 1)) && 2 * g < 2 * Hidden(f)
  {
    BelowSign(f, i);
    BelowHidden(f, g);
    Doubled(f, i);
    Grows(Exponents(f), g);
    var p := Pow2(1 - e);
    assert Pow2(1 - (e - 1)) == 2 * p;
    assert d * (2 * p) == 2 * (d * p);
    assert (2 * g) * Exponents(f) == 2 * (g * Exponents(f));
  }

  /** A subnormal's fraction, shifted up until its leading bit is the hidden one. */
  method NormalizeSubnormal(f: Format, u: nat) returns (v: nat, e: int)
    requires Supported(f) && u < WordSize(f) && ExponentOf(f, u) == 0 && FractionOf(f, u) > 0
    ensures Hidden(f) <= v < 2 * Hidden(f)
    ensures 1 - f.fraction <= e <= 0
    ensures Scaled(f, v, e) == FractionOf(f, u) * Scale(f)
  {
    hide ExponentOf, FractionOf, Scaled, SignBit, ShiftLeft, Pow2;
    ghost var d, n := FractionOf(f, u), Exponents(f);
    ghost var g := d * 2;
    SubnormalStart(f, u);
    e := 0;
    var i := ShiftLeft(f, u, f.exponent + 1);
    while i / SignBit(f) == 0
      invariant e <= 0 && g == d * Pow2(1 - e) && i == g * n && i < WordSize(f) && 0 < g < 2 * Hidden(f)
      decreases WordSize(f) - i
    {
      ShiftStep(f, d, e, g, i);
      e, g, i := e - 1, 2 * g, ShiftLeft(f, i, 1);
    }
    AboveHidden(f, g);
    ShiftBounded(f, d, 1 - e);
    Sizes(f);
    ShiftedFraction(f, u, 1 - e);
    v := ShiftLeft(f, u, -e + 1);
    ScaledSubnormal(f, d, 1 - e);
  }

  lemma SubnormalStart(f: Format, u: nat)
    requires Supported(f) && u < WordSize(f) && ExponentOf(f, u) == 0
    ensures var g := FractionOf(f, u) * 2;
            && ShiftLeft(f, u, f.exponent + 1) == g * Exponents(f) < WordSize(f) && g < 2 * Hidden(f)
            && g == FractionOf(f, u) * Pow2(1)
  {
    hide ExponentOf, FractionOf, ShiftLeft;
    Fields(f, u);
    var d, n := FractionOf(f, u), Exponents(f);
    assert Pow2(f.exponent + 1) == 2 * n && Pow2(1) == 2;
    assert d * (2 * n) == (d * 2) * n;
    Wraps(f, d);
    ShiftedFraction(f, u, f.exponent + 1);
  }

  /** The significand of a finite nonzero number with its leading bit at the hidden one. */
  method Normalize(f: Format, u: nat) returns (v: nat, e: int)
    requires Supported(f) && u < WordSize(f) && AbsValue(f, u) > 0
    ensures Hidden(f) <= v < 2 * Hidden(f)
    ensures 1 - f.fraction <= e <= ExponentOf(f, u)
    ensures Scaled(f, v, e) == AbsValue(f, u) * Scale(f)
  {
    hide Pow2, Scaled, ExponentOf, SignBit;
    Fields(f, u);
    e := ExponentOf(f, u);
    if e == 0 {
      v, e := NormalizeSubnormal(f, u);
    } else {
      v := u % Hidden(f) + Hidden(f);
      ScaledNormal(f, e, u % Hidden(f));
    }
  }

  lemma Wraps(f: Format, d: nat)
    requires d < Hidden(f)
    ensures d * 2 * Exponents(f) < WordSize(f)
  {
    var n := Exponents(f);
    assert WordSize(f) - d * 2 * n == (Hidden(f) - d) * 2 * n;
    Grows(n, (Hidden(f) - d) * 2);
  }

  lemma BelowSign(f: Format, i: nat)
    requires i / SignBit(f) == 0
    ensures i < SignBit(f)
  {
    DivMod(i, SignBit(f));
  }

  lemma BelowHidden(f: Format, g: nat)
    requires g * Exponents(f) < SignBit(f)
    ensures g < Hidden(f)
  {
    if g >= Hidden(f) {
      Monotone(Hidden(f), Exponents(f), g, Exponents(f));
    }
  }

  lemma AboveHidden(f: Format, g: nat)
    requires g * Exponents(f) / SignBit(f) != 0
    ensures g >= Hidden(f)
  {
    if g < Hidden(f) {
      var n := Exponents(f);
      assert SignBit(f) - g * n == (Hidden(f) - g) * n;
      Grows(n, Hidden(f) - g);
      DivUnique(g * n, SignBit(f), 0, g * n);
    }
  }

  // ----- the remainder -----

  /** `ghost` step of the division: what was taken off so far is a multiple of the divisor. */
  ghost predicate Congruent(f: Format, x: nat, vx: nat, ex: int, y: nat, q: nat) {
    ex + f.fraction >= 0 && x == q * y + Scaled(f, vx, ex)
  }

  lemma Reduced(f: Format, x: nat, vx: nat, ex: int, vy: nat, ey: int, q: nat)
    requires ey + f.fraction >= 0 && ex >= ey && vx >= vy
    requires Congruent(f, x, vx, ex, Scaled(f, vy, ey), q)
    ensures Congruent(f, x, vx - vy, ex, Scaled(f, vy, ey), q + Pow2(ex - ey))
  {
    Subtracted(f, vx, ex, vy, ey);
    var y, p := Scaled(f, vy, ey), Pow2(ex - ey);
    assert (q + p) * y == q * y + p * y;
  }

  lemma ScaledOrder(f: Format, vx: nat, vy: nat, e: int)
    requires e + f.fraction >= 0 && vx < vy
    ensures Scaled(f, vx, e) < Scaled(f, vy, e)
  {
    var p := Pow2(e + f.fraction);
    assert vy * p - vx * p == (vy - vx) * p;
    Grows(p, vy - vx);
  }

  lemma Start(f: Format, v: nat, e: int, y: nat)
    requires e + f.fraction >= 0
    ensures Congruent(f, Scaled(f, v, e), v, e, y, 0)
  {
  }

  lemma Shifted(f: Format, x: nat, vx: nat, ex: int, y: nat, q: nat)
    requires ex + f.fraction >= 1 && Congruent(f, x, vx, ex, y, q)
    ensures Congruent(f, x, 2 * vx, ex - 1, y, q)
  {
    Halved(f, vx, ex);
  }

  lemma Conclude(f: Format, x: nat, vx: nat, vy: nat, ex: int, ey: int, q: nat)
    requires ey + f.fraction >= 0 && vx < vy && Congruent(f, x, vx, ex, Scaled(f, vy, ey), q) && (vx == 0 || ex == ey)
    ensures Scaled(f, vy, ey) > 0 && x % Scaled(f, vy, ey) == Scaled(f, vx, ey)
  {
    ScaledOrder(f, vx, vy, ey);
    DivUnique(x, Scaled(f, vy, ey), q, Scaled(f, vx, ey));
  }

  /** One conditional subtraction, decided by the sign bit of the wrapped difference. */
  method Subtract(f: Format, vx: nat, vy: nat) returns (v: nat)
    requires vx < SignBit(f) && vy < SignBit(f)
    ensures v == if vx >= vy then vx - vy else vx
  {
    Difference(f, vx, vy);
    var i := Minus(f, vx, vy);
    v := if i / SignBit(f) == 0 then i else vx;
  }

  /** Shift and subtract; a significand of zero stands for the early return. */
  method Reduce(f: Format, vx0: nat, ex0: int, vy: nat, ey: int) returns (vx: nat, ex: int)
    requires Supported(f) && Hidden(f) <= vx0 < 2 * Hidden(f) && Hidden(f) <= vy < 2 * Hidden(f)
    requires ey + f.fraction >= 0 && ex0 >= ey
    ensures vx < vy && (vx > 0 ==> ex == ey)
    ensures Scaled(f, vy, ey) > 0 && Scaled(f, vx0, ex0) % Scaled(f, vy, ey) == Scaled(f, vx, ey)
  {
    hide Pow2, Scaled, ShiftLeft, SignBit, Hidden, Congruent;
    Sizes(f);
    vx, ex := vx0, ex0;
    ghost var x, y := Scaled(f, vx0, ex0), Scaled(f, vy, ey);
    ghost var q: nat := 0;
    Start(f, vx0, ex0, y);
    while ex > ey
      invariant ex >= ey && 0 < vx < 2 * vy && Congruent(f, x, vx, ex, y, q)
    {
      if vx >= vy {
        Reduced(f, x, vx, ex, vy, ey, q);
        q := q + Pow2(ex - ey);
      }
      vx := Subtract(f, vx, vy);
      if vx == 0 {
        Conclude(f, x, 0, vy, ex, ey, q);
        return;
      }
      Doubled(f, vx);
      Shifted(f, x, vx, ex, y, q);
      vx, ex := ShiftLeft(f, vx, 1), ex - 1;
    }
    if vx >= vy {
      Reduced(f, x, vx, ex, vy, ey, q);
      q := q + Pow2(ex - ey);
    }
    vx := Subtract(f, vx, vy);
    Conclude(f, x, vx, vy, ex, ey, q);
  }

  lemma Cancel(a: nat, b: nat, p: nat)
    requires p > 0 && a * p == b * p
    ensures a == b
  {
    DivUnique(a * p, p, a, 0);
    DivUnique(a * p, p, b, 0);
  }

  /** A whole number whose significand is below the hidden bit has room to shift it up. */
  lemma Room(f: Format, v: nat, e: int, n: nat)
    requires e + f.fraction >= 0 && v < Hidden(f) && n > 0 && Scaled(f, v, e) == n * Scale(f)
    ensures e + f.fraction >= 2
  {
    if e + f.fraction <= 1 {
      Pow2Monotone(e + f.fraction, 1);
      assert Pow2(1) == 2;
      Monotone(v, Pow2(e + f.fraction), v, 2);
      assert Scale(f) == 2 * Hidden(f);
      Grows(Scale(f), n);
    }
  }

  /** The bits that the last shift of a subnormal result drops are zero. */
  lemma ShiftExact(f: Format, v: nat, e: int, n: nat)
    requires 0 <= e + f.fraction <= f.fraction && v < 2 * Hidden(f) && Scaled(f, v, e) == n * Scale(f)
    ensures v == n * Pow2(1 - e) && v / Pow2(1 - e) == n && n < Hidden(f)
  {
    var p, k := Pow2(e + f.fraction), Pow2(1 - e);
    Pow2Add(1 - e, e + f.fraction);
    assert n * (k * p) == (n * k) * p;
    Cancel(v, n * k, p);
    DivUnique(v, k, n, 0);
    assert k == 2 * Pow2(-e);
    Monotone(n, 2, n, k);
  }

  /** Puts a significand and an exponent back into the format. */
  method Pack(f: Format, v0: nat, e0: int, s: nat, ghost n: nat) returns (u: nat)
    requires Supported(f) && s <= 1 && 0 < v0 < 2 * Hidden(f) && n > 0
    requires e0 + f.fraction >= 0 && e0 + 1 < Exponents(f) && Scaled(f, v0, e0) == n * Scale(f)
    ensures u < WordSize(f) && Finite(f, u) && SignOf(f, u) == s && AbsValue(f, u) == n
  {
    Sizes(f);
    var v, e := v0, e0;
    while v / Hidden(f) == 0
      invariant e + f.fraction >= 0 && e <= e0 && 0 < v < 2 * Hidden(f) && Scaled(f, v, e) == n * Scale(f)
      decreases 2 * Hidden(f) - v
    {
      DivMod(v, Hidden(f));
      Room(f, v, e, n);
      Doubled(f, v);
      Halved(f, v, e);
      v, e := ShiftLeft(f, v, 1), e - 1;
    }
    if v < Hidden(f) {
      DivUnique(v, Hidden(f), 0, v);
    }
    if e > 0 {
      v := v - Hidden(f);
      u := v + e * Hidden(f);
      ScaledNormal(f, e, v);
      Cancel(ValueOf(f, e, v), n, Scale(f));
      Assembled(f, s, e, v);
    } else {
      ShiftExact(f, v, e, n);
      u := v / Pow2(-e + 1);
      Assembled(f, s, 0, n);
    }
    u := u + s * SignBit(f);
  }

  lemma ModScale(a: nat, b: nat, k: nat)
    requires b > 0 && k > 0
    ensures b * k > 0 && (a * k) % (b * k) == (a % b) * k
  {
    Grows(b, k);
    DivMod(a, b);
    var q, r := a / b, a % b;
    assert a * k == q * (b * k) + r * k;
    assert b * k - r * k == (b - r) * k;
    Grows(k, b - r);
    DivUnique(a * k, b * k, q, r * k);
  }

  /** Which operands the special cases of the remainder select. */
  lemma Special(f: Format, y: nat)
    requires Supported(f) && y < WordSize(f)
    ensures Magnitude(f, y) == 0 <==> AbsValue(f, y) == 0
    ensures Magnitude(f, y) > (Exponents(f) - 1) * Hidden(f) <==> IsNaN(f, y)
    ensures Magnitude(f, y) < (Exponents(f) - 1) * Hidden(f) <==> Finite(f, y)
  {
    Fields(f, y);
    var h, e, d, top := Hidden(f), ExponentOf(f, y), FractionOf(f, y), Exponents(f) - 1;
    if e > 0 {
      Grows(h, e);
      Grows(h + d, Pow2(e - 1));
    }
    if e < top {
      Monotone(e + 1, h, top, h);
      assert (e + 1) * h == e * h + h;
    }
  }

  lemma TruncRemOfAbs(a: int, b: int)
    requires b != 0
    ensures TruncRem(a, b) == if a < 0 then -(Abs(a) % Abs(b)) else Abs(a) % Abs(b)
  {
    var x, y := Abs(a), Abs(b);
    DivMod(x, y);
    Negations(x / y, y);
  }

  /** What the remainder of two words is, in terms of the numbers they stand for. */
  ghost predicate IsRemainder(f: Format, x: nat, y: nat, r: Number) {
    if !Finite(f, x) || IsNaN(f, y) || AbsValue(f, y) == 0 then r == NotANumber
    else if !Finite(f, y) then r == Bits(x)
    else
      && r.Bits? && r.u < WordSize(f) && Finite(f, r.u) && SignOf(f, r.u) == SignOf(f, x)
      && AbsValue(f, r.u) == AbsValue(f, x) % AbsValue(f, y)
  }

  /** The result is `x - trunc(x / y) * y` without rounding, and keeps the sign of `x` when it is zero. */
  lemma RemainderTruncates(f: Format, x: nat, y: nat, r: Number)
    requires Supported(f) && x < WordSize(f) && y < WordSize(f) && IsRemainder(f, x, y, r)
    requires Finite(f, x) && Finite(f, y) && RealValue(f, y) != 0
    ensures r.Bits? && Finite(f, r.u) && RealValue(f, r.u) == TruncRem(RealValue(f, x), RealValue(f, y))
    ensures SignOf(f, r.u) == SignOf(f, x)
  {
    Fields(f, x);
    TruncRemOfAbs(RealValue(f, x), RealValue(f, y));
  }

  /** Operands of equal magnitude leave a zero with the dividend's sign, a smaller dividend is its own remainder. */
  lemma SmallDividend(f: Format, x: nat, y: nat)
    requires Supported(f) && x < WordSize(f) && y < WordSize(f)
    requires Finite(f, x) && !IsNaN(f, y) && AbsValue(f, y) != 0
    ensures Magnitude(f, x) == Magnitude(f, y) ==> IsRemainder(f, x, y, Bits(SignOf(f, x) * SignBit(f)))
    ensures Magnitude(f, x) < Magnitude(f, y) ==> IsRemainder(f, x, y, Bits(x))
  {
    hide Pow2, ValueOf, SignBit;
    Fields(f, x);
    Special(f, x);
    Special(f, y);
    ValueMonotone(f, x, y);
    Sizes(f);
    Assembled(f, SignOf(f, x), 0, 0);
    var a, b := AbsValue(f, x), AbsValue(f, y);
    if Magnitude(f, x) == Magnitude(f, y) {
      DivUnique(a, b, 1, 0);
      ZeroValue(f, SignOf(f, x) * SignBit(f));
    } else if Magnitude(f, x) < Magnitude(f, y) {
      DivUnique(a, b, 0, a);
    }
  }

  lemma ZeroValue(f: Format, u: nat)
    requires ExponentOf(f, u) == 0 && FractionOf(f, u) == 0
    ensures AbsValue(f, u) == 0
  {
  }

  method Remainder(f: Format, x: nat, y: nat) returns (r: Number)
    requires Supported(f) && x < WordSize(f) && y < WordSize(f)
    ensures IsRemainder(f, x, y, r)
  {
    hide Pow2, ValueOf, AbsValue, SignBit, ShiftLeft, Magnitude, FractionOf, ExponentOf;
    Fields(f, x);
    Special(f, x);
    Special(f, y);
    ShiftedMagnitude(f, x);
    ShiftedMagnitude(f, y);
    ValueMonotone(f, y, x);
    var ex, sx := ExponentOf(f, x), SignOf(f, x);
    var twiceX, twiceY := ShiftLeft(f, x, 1), ShiftLeft(f, y, 1);
    if twiceY == 0 || twiceY > 2 * ((Exponents(f) - 1) * Hidden(f)) || ex == Exponents(f) - 1 {
      return NotANumber;
    }
    if twiceX <= twiceY {
      SmallDividend(f, x, y);
      return if twiceX == twiceY then Bits(sx * SignBit(f)) else Bits(x);
    }
    r := RemainderOfLarger(f, x, y);
  }

  method RemainderOfLarger(f: Format, x: nat, y: nat) returns (r: Number)
    requires Supported(f) && x < WordSize(f) && y < WordSize(f)
    requires Finite(f, x) && 0 < AbsValue(f, y) < AbsValue(f, x) && Finite(f, y)
    ensures IsRemainder(f, x, y, r)
  {
    hide Pow2, ValueOf, SignBit, Scaled, FractionOf, ExponentOf;
    Fields(f, x);
    Fields(f, y);
    Sizes(f);
    var sx := SignOf(f, x);
    var vx, ex := Normalize(f, x);
    var vy, ey := Normalize(f, y);
    ghost var a, b := AbsValue(f, x), AbsValue(f, y);
    Larger(a, b, Scale(f));
    ExponentsOrdered(f, vx, ex, vy, ey);
    var v, e := Reduce(f, vx, ex, vy, ey);
    ModScale(a, b, Scale(f));
    if v == 0 {
      ScaledZero(f, ey);
      Cancel(a % b, 0, Scale(f));
      Assembled(f, sx, 0, 0);
      ZeroValue(f, sx * SignBit(f));
      return Bits(sx * SignBit(f));
    }
    ScaledOrder(f, 0, v, ey);
    var u := Pack(f, v, e, sx, a % b);
    r := Bits(u);
  }

  lemma ScaledZero(f: Format, e: int)
    requires e + f.fraction >= 0
    ensures Scaled(f, 0, e) == 0
  {
  }

  lemma Larger(a: nat, b: nat, k: nat)
    requires a > b && k > 0
    ensures a * k > b * k
  {
    assert a * k - b * k == (a - b) * k;
    Grows(k, a - b);
  }
}
