/**
 The floating remainder that the Wasm backend emits inline: it scales the divisor up by
 doubling, then subtracts and halves on the way back, all in the format's own arithmetic.

 Every operation rounds to nearest, ties to even (section 4.3.3 of the WebAssembly Core
 Specification 1.0); the proof is that all but the comparison operand `x * 0.5` are exact.
 */
module WasmRemainder {
  import opened Nonlinear
  import opened Integers
  import opened Floats
  import opened Fmod

  /** A number that is not negative and not a NaN. */
  datatype Float = Fin(n: nat) | Inf

  // ----- rounding -----

  /** Counts of the smallest subnormal that the format can hold, were its exponents unbounded. */
  predicate Exact(f: Format, n: nat) {
    n < 2 * Hidden(f) || (n % 2 == 0 && Exact(f, n / 2))
  }

  /** The exponent of the spacing of numbers around `n`. */
  function Spacing(f: Format, n: nat): nat {
    if n < 2 * Hidden(f) then 0 else 1 + Spacing(f, n / 2)
  }

  /** The integer nearest to `n / d`, and the even one of two that are equally near. */
  function Nearest(n: nat, d: nat): nat
    requires d > 0
  {
    FloorBounds(n, d);
    var q, r := n / d, n % d;
    if 2 * r < d || (2 * r == d && q % 2 == 0) then q else q + 1
  }

  /** The first number too large for the format. */
  function Limit(f: Format): nat
    requires Exponents(f) >= 2
  {
    Hidden(f) * Pow2(Exponents(f) - 2)
  }

  /** The result of an operation whose exact value is `n / 2`. */
  function Rounded(f: Format, n: nat): Float
    requires Exponents(f) >= 2
  {
    var unit := Pow2(Spacing(f, n / 2));
    var m := Nearest(n, 2 * unit) * unit;
    if m >= Limit(f) then Inf else Fin(m)
  }

  function HalfOf(f: Format, x: Float): Float
    requires Exponents(f) >= 2
  {
    if x.Inf? then Inf else Rounded(f, x.n)
  }

  function TwiceOf(f: Format, x: Float): Float
    requires Exponents(f) >= 2
  {
    if x.Inf? then Inf else Rounded(f, 4 * x.n)
  }

  function DifferenceOf(f: Format, x: Float, y: Float): Float
    requires Exponents(f) >= 2 && x.Fin? && y.Fin? && y.n <= x.n
  {
    Rounded(f, 2 * (x.n - y.n))
  }

  predicate Less(x: Float, y: Float) {
    x.Fin? && (y.Inf? || x.n < y.n)
  }

  lemma {:induction false} SpacingDivides(f: Format, n: nat)
    requires Exact(f, n)
    ensures n / Pow2(Spacing(f, n)) * Pow2(Spacing(f, n)) == n
  {
    if n >= 2 * Hidden(f) {
      SpacingDivides(f, n / 2);
      var p := Pow2(Spacing(f, n / 2));
      var q := n / 2 / p;
      assert n == 2 * (q * p) == q * (2 * p);
      DivUnique(n, 2 * p, q, 0);
    }
  }

  lemma NearestMultiple(n: nat, q: nat, d: nat)
    requires d > 0 && n == q * d
    ensures Nearest(n, d) == q
  {
    DivUnique(n, d, q, 0);
  }

  /** Representable results are not changed by rounding. */
  lemma RoundedExact(f: Format, n: nat)
    requires Exponents(f) >= 2 && Exact(f, n) && n < Limit(f)
    ensures Rounded(f, 2 * n) == Fin(n)
  {
    hide Nearest, Spacing, Exact, Pow2, Limit;
    SpacingDivides(f, n);
    assert 2 * n / 2 == n;
    var p := Pow2(Spacing(f, n));
    var q := n / p;
    FloorBounds(n, p);
    assert q * (2 * p) == 2 * (q * p);
    NearestMultiple(2 * n, q, 2 * p);
  }

  /** Halving is exact for even counts; an odd count is off by one half. */
  lemma HalfNearly(f: Format, n: nat)
    requires Exponents(f) >= 2 && Exact(f, n) && n < Limit(f)
    ensures n % 2 == 0 ==> Exact(f, n / 2) && Rounded(f, n) == Fin(n / 2)
    ensures n % 2 == 1 && n + 1 < Limit(f) ==> n < 2 * Hidden(f) && Rounded(f, n).Fin? && n - 1 <= 2 * Rounded(f, n).n <= n + 1
  {
    if n % 2 == 0 {
      RoundedExact(f, n / 2);
    } else {
      assert Pow2(0) == 1;
    }
  }

  /** Sterbenz's lemma: the difference of nearby numbers is representable. */
  lemma {:induction false} Sterbenz(f: Format, a: nat, b: nat)
    requires Exact(f, a) && Exact(f, b) && b <= a <= 2 * b
    ensures Exact(f, a - b)
  {
    if a - b >= 2 * Hidden(f) {
      Sterbenz(f, a / 2, b / 2);
      assert (a - b) / 2 == a / 2 - b / 2;
    }
  }

  // ----- words and numbers -----

  function Load(f: Format, u: nat): Float {
    if Finite(f, u) then Fin(AbsValue(f, u)) else Inf
  }

  /** The word without sign that holds a representable count. */
  function Encoded(f: Format, n: nat): nat {
    if n < 2 * Hidden(f) then n else Hidden(f) + Encoded(f, n / 2)
  }

  lemma PowerUp(n: nat, k: nat)
    ensures n * Pow2(k + 1) == 2 * (n * Pow2(k))
  {
    assert n * (2 * Pow2(k)) == 2 * (n * Pow2(k));
  }

  lemma ExactDouble(f: Format, n: nat)
    requires Exact(f, n)
    ensures Exact(f, 2 * n)
  {
    assert 2 * n / 2 == n;
  }

  lemma {:induction false} ValueExact(f: Format, e: nat, d: nat)
    requires d < Hidden(f)
    ensures Exact(f, ValueOf(f, e, d))
  {
    if e >= 2 {
      ValueExact(f, e - 1, d);
      PowerUp(Hidden(f) + d, e - 2);
      ExactDouble(f, ValueOf(f, e - 1, d));
    }
  }

  lemma ValueBounds(f: Format, e: nat, d: nat)
    requires d < Hidden(f) && Exponents(f) >= 4
    ensures e + 1 < Exponents(f) <==> ValueOf(f, e, d) < Limit(f)
  {
    var top := Exponents(f) - 1;
    assert ValueOf(f, top, 0) == Limit(f);
    if e < top {
      ValueOrder(f, e, d, top, 0);
    } else if e > top || d > 0 {
      ValueOrder(f, top, 0, e, d);
    }
  }

  lemma LoadFacts(f: Format, u: nat)
    requires Supported(f) && Finite(f, u)
    ensures Exponents(f) >= 4 && Exact(f, AbsValue(f, u)) && AbsValue(f, u) < Limit(f)
  {
    Sizes(f);
    Fields(f, u);
    ValueExact(f, ExponentOf(f, u), FractionOf(f, u));
    ValueBounds(f, ExponentOf(f, u), FractionOf(f, u));
  }

  lemma {:induction false} EncodedFields(f: Format, n: nat) returns (e: nat, d: nat)
    requires Exact(f, n)
    ensures d < Hidden(f) && Encoded(f, n) == e * Hidden(f) + d && ValueOf(f, e, d) == n
    ensures n >= Hidden(f) ==> e > 0
  {
    var h := Hidden(f);
    if n < h {
      e, d := 0, n;
    } else if n < 2 * h {
      e, d := 1, n - h;
      assert Pow2(0) == 1;
    } else {
      e, d := EncodedFields(f, n / 2);
      assert (e + 1) * h == e * h + h;
      PowerUp(h + d, e - 1);
      e := e + 1;
    }
  }

  lemma EncodedCorrect(f: Format, n: nat, s: nat)
    requires Supported(f) && Exponents(f) >= 4 && Exact(f, n) && n < Limit(f) && s <= 1
    ensures var u := Encoded(f, n) + s * SignBit(f);
            u < WordSize(f) && Finite(f, u) && SignOf(f, u) == s && AbsValue(f, u) == n
  {
    var e, d := EncodedFields(f, n);
    ValueBounds(f, e, d);
    Assembled(f, s, e, d);
  }

  // ----- the emitted code -----

  /** A scaled divisor: the divisor times a power of two, held exactly. */
  ghost predicate Scaling(f: Format, y: nat, k: nat, scale: nat)
    requires Exponents(f) >= 2
  {
    scale == y * Pow2(k) && Exact(f, scale) && scale < Limit(f)
  }

  /** Doubling a scale that is not above `x * 0.5` neither rounds nor overflows. */
  lemma ScaleUp(f: Format, x: nat, y: nat, k: nat, scale: nat)
    requires Supported(f) && Exponents(f) >= 4 && Exact(f, x) && x < Limit(f) && y > 0 && Scaling(f, y, k, scale)
    requires !Less(HalfOf(f, Fin(x)), Fin(scale))
    ensures TwiceOf(f, Fin(scale)) == Fin(2 * scale) && Scaling(f, y, k + 1, 2 * scale) && scale <= x
  {
    hide Rounded, Limit, Pow2, Exact, Hidden;
    HalfNearly(f, x);
    OddBelowLimit(f, x);
    PowerUp(y, k);
    ExactDouble(f, scale);
    RoundedExact(f, 2 * scale);
  }

  lemma Largest(f: Format)
    requires Supported(f) && Exponents(f) >= 4
    ensures Limit(f) >= 4 * Hidden(f)
  {
    assert Pow2(2) == 4;
    Pow2Monotone(2, Exponents(f) - 2);
    Monotone(Hidden(f), 4, Hidden(f), Pow2(Exponents(f) - 2));
  }

  lemma OddBelowLimit(f: Format, x: nat)
    requires Supported(f) && Exponents(f) >= 4 && Exact(f, x) && x < Limit(f)
    ensures x % 2 == 1 ==> x + 1 < Limit(f)
  {
    Largest(f);
  }

  /** Once the scale is above the rounded half of `x`, twice the scale is above `x`. */
  lemma ScaleEnough(f: Format, x: nat, scale: nat)
    requires Supported(f) && Exponents(f) >= 4 && Exact(f, x) && x < Limit(f)
    requires Less(HalfOf(f, Fin(x)), Fin(scale))
    ensures x < 2 * scale
  {
    HalfNearly(f, x);
    OddBelowLimit(f, x);
  }

  /** Halving a scale above the divisor is exact. */
  lemma ScaleDown(f: Format, y: nat, k: nat, scale: nat)
    requires Exponents(f) >= 2 && k > 0 && Scaling(f, y, k, scale)
    ensures scale % 2 == 0 && HalfOf(f, Fin(scale)) == Fin(scale / 2) && Scaling(f, y, k - 1, scale / 2)
  {
    hide Rounded, Limit, Pow2, Exact;
    PowerUp(y, k - 1);
    HalfNearly(f, scale);
  }

  /** Subtracting the scale is exact and takes off a multiple of the divisor. */
  lemma TakeOff(f: Format, x: nat, y: nat, k: nat, scale: nat)
    requires Exponents(f) >= 2 && Exact(f, x) && x < Limit(f) && Scaling(f, y, k, scale) && scale <= x < 2 * scale && y > 0
    ensures DifferenceOf(f, Fin(x), Fin(scale)) == Fin(x - scale) && Exact(f, x - scale)
    ensures (x - scale) % y == x % y
  {
    hide Rounded, Limit, Pow2, Exact, Hidden;
    Sterbenz(f, x, scale);
    RoundedExact(f, x - scale);
    Multiples(x - scale, Pow2(k), y);
  }

  lemma Multiples(x: nat, k: nat, m: nat)
    requires m > 0
    ensures (x + m * k) % m == x % m
  {
    ModMultiple(x, k, m);
    assert m * k == k * m;
  }

  lemma ScaleIsDivisor(f: Format, y: nat, k: nat, scale: nat)
    requires Exponents(f) >= 2 && y > 0 && Scaling(f, y, k, scale)
    ensures scale <= y <==> k == 0
    ensures scale >= y
  {
    Grows(y, Pow2(k));
    if k > 0 {
      assert Pow2(k) == 2 * Pow2(k - 1);
    }
  }

  /** The two loops; an infinite divisor falls through both. */
  method Loops(f: Format, x0: Float, y: Float) returns (x: Float)
    requires Supported(f) && Exponents(f) >= 4
    requires x0.Fin? && Exact(f, x0.n) && x0.n < Limit(f)
    requires y.Fin? ==> Exact(f, y.n) && 0 < y.n < Limit(f)
    ensures x.Fin? && Exact(f, x.n) && x.n < Limit(f) && x.n == if y.Inf? then x0.n else x0.n % y.n
  {
    hide Exact, Rounded, Pow2, Limit;
    x := x0;
    var scale := y;
    ghost var k: nat := 0;
    HalfFinite(f, x.n);
    if y.Fin? {
      ScaleStart(f, y.n);
    }
    while !Less(HalfOf(f, x), scale)
      invariant scale.Fin? == y.Fin?
      invariant y.Fin? ==> Scaling(f, y.n, k, scale.n) && scale.n > 0
      decreases if scale.Fin? then 2 * x.n - scale.n else 0
    {
      ScaleUp(f, x.n, y.n, k, scale.n);
      scale, k := TwiceOf(f, scale), k + 1;
    }
    if y.Fin? {
      ScaleEnough(f, x.n, scale.n);
    }
    while true
      invariant scale.Fin? == y.Fin?
      invariant x.Fin? && Exact(f, x.n) && x.n < Limit(f)
      invariant if y.Inf? then x == x0
                else Scaling(f, y.n, k, scale.n) && x.n < 2 * scale.n && x.n % y.n == x0.n % y.n
      decreases k
    {
      if !Less(x, scale) {
        TakeOff(f, x.n, y.n, k, scale.n);
        x := DifferenceOf(f, x, scale);
      }
      if y.Fin? {
        ScaleIsDivisor(f, y.n, k, scale.n);
      }
      if !Less(y, scale) {
        break;
      }
      ScaleDown(f, y.n, k, scale.n);
      scale, k := HalfOf(f, scale), k - 1;
    }
    if y.Fin? {
      DivUnique(x.n, y.n, 0, x.n);
    }
  }

  lemma HalfFinite(f: Format, x: nat)
    requires Supported(f) && Exponents(f) >= 4 && Exact(f, x) && x < Limit(f)
    ensures HalfOf(f, Fin(x)).Fin?
  {
    HalfNearly(f, x);
    OddBelowLimit(f, x);
  }

  lemma ScaleStart(f: Format, y: nat)
    requires Exponents(f) >= 2 && Exact(f, y) && y < Limit(f)
    ensures Scaling(f, y, 0, y)
  {
  }

  /**
   The emitted remainder. `x - x` differs from zero for infinities and NaNs alone, so the first
   test selects the operands without a remainder; the last step copies the dividend's sign.
   */
  method EmittedRemainder(f: Format, l: nat, r: nat) returns (result: Number)
    requires Supported(f) && l < WordSize(f) && r < WordSize(f)
    ensures IsRemainder(f, l, r, result)
  {
    hide Exact, Rounded, Pow2, Limit, ValueOf, ExponentOf, FractionOf, SignBit, Encoded;
    Sizes(f);
    if !Finite(f, l) || IsNaN(f, r) || Load(f, r) == Fin(0) {
      return NotANumber;
    }
    LoadFacts(f, l);
    Fields(f, l);
    var x, y := Load(f, l), Load(f, r);
    Special(f, r);
    Grows(Hidden(f), Exponents(f) - 1);
    if y.Fin? {
      LoadFacts(f, r);
    }
    x := Loops(f, x, y);
    EncodedCorrect(f, x.n, SignOf(f, l));
    result := Bits(Encoded(f, x.n) + SignOf(f, l) * SignBit(f));
    if y.Inf? {
      SameWord(f, l, result.u);
    }
  }

  /** A finite number has one word for each sign. */
  lemma SameWord(f: Format, u: nat, v: nat)
    requires Supported(f) && SignOf(f, u) == SignOf(f, v) && AbsValue(f, u) == AbsValue(f, v)
    ensures u == v
  {
    Fields(f, u);
    Fields(f, v);
    ValueMonotone(f, u, v);
    ValueMonotone(f, v, u);
  }

  /** The native runtime's remainder and the emitted one agree on every pair of words. */
  lemma RemaindersAgree(f: Format, x: nat, y: nat, native: Number, emitted: Number)
    requires Supported(f) && IsRemainder(f, x, y, native) && IsRemainder(f, x, y, emitted)
    ensures native == emitted
  {
    if native.Bits? && emitted.Bits? && Finite(f, x) && Finite(f, y) {
      SameWord(f, native.u, emitted.u);
    }
  }
}
