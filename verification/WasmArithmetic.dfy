/**
 Why the instruction sequences for checked arithmetic decide representability.

 A value of an integer type lives in an i32 or i64 local in canonical form: the pattern of
 the value itself, that is, sign-extended for signed and zero-extended for unsigned types.
 */
module WasmArithmetic {
  import opened Integers
  import opened Nonlinear
  import opened WasmMachine

  /** Wasm pointers have four bytes. */
  const PB: nat := 4

  predicate Wide(t: IntType) {
    t.I64? || t.U64?
  }

  function WidthOf(t: IntType): Width {
    if Wide(t) then W64 else W32
  }

  function Canonical(t: IntType, n: int): Word {
    Encode(WidthOf(t), n)
  }

  /** A canonical local shows its value in the interpretation that suits its type. */
  lemma Views(t: IntType, n: int)
    requires InRange(t, PB, n)
    ensures var p := Canonical(t, n).bits;
            if Signed(t) then AsSigned(WidthOf(t), p) == n else p == n
  {
  }

  /** Patterns of a signed interpretation. */
  lemma SignedPattern(w: Width, n: int)
    requires -(Size(w) / 2) <= n < Size(w) / 2
    ensures AsSigned(w, Encode(w, n).bits) == n
  {
  }

  // ----- bits -----

  /** The most significant of `n` bits of a bitwise result depends on the operands' most significant bits. */
  lemma {:induction false} TopBit(op: Op, x: nat, y: nat, n: nat)
    requires op.BitAnd? || op.BitOr? || op.BitXor?
    requires n > 0 && x < Pow2(n) && y < Pow2(n)
    ensures Bitwise(op, x, y) < Pow2(n)
    ensures Bitwise(op, x, y) >= Pow2(n - 1) <==>
            Bit(op, if x >= Pow2(n - 1) then 1 else 0, if y >= Pow2(n - 1) then 1 else 0) == 1
    decreases n
  {
    BitwiseWidth(op, x, y, n);
    if n > 1 {
      assert Pow2(n) == 2 * Pow2(n - 1) && Pow2(n - 1) == 2 * Pow2(n - 2);
      TopBit(op, x / 2, y / 2, n - 1);
      assert x / 2 >= Pow2(n - 2) <==> x >= Pow2(n - 1);
      assert y / 2 >= Pow2(n - 2) <==> y >= Pow2(n - 1);
    }
  }

  /** The low bits of a bitwise result depend on the operands' low bits. */
  lemma {:induction false} LowBits(op: Op, x: nat, y: nat, n: nat)
    requires op.BitAnd? || op.BitOr? || op.BitXor?
    ensures Bitwise(op, x, y) % Pow2(n) == Bitwise(op, x % Pow2(n), y % Pow2(n))
  {
    if n > 0 {
      LowBits(op, x / 2, y / 2, n - 1);
      HalfMod(x, n);
      HalfMod(y, n);
      HalfMod(Bitwise(op, x, y), n);
      Halves(op, x, y);
      Halves(op, x % Pow2(n), y % Pow2(n));
    }
  }

  lemma Halves(op: Op, x: nat, y: nat)
    requires op.BitAnd? || op.BitOr? || op.BitXor?
    ensures Bitwise(op, x, y) / 2 == Bitwise(op, x / 2, y / 2)
    ensures Bitwise(op, x, y) % 2 == Bit(op, x % 2, y % 2)
    ensures Bitwise(op, x, y) == 2 * (Bitwise(op, x, y) / 2) + Bitwise(op, x, y) % 2
  {
  }

  lemma HalfMod(x: nat, n: nat)
    requires n > 0
    ensures x % Pow2(n) == 2 * ((x / 2) % Pow2(n - 1)) + x % 2
    ensures (x % Pow2(n)) / 2 == (x / 2) % Pow2(n - 1) && (x % Pow2(n)) % 2 == x % 2
  {
    var p := Pow2(n - 1);
    DivMod(x / 2, p);
    var q, r := x / 2 / p, (x / 2) % p;
    assert q * (2 * p) == 2 * (q * p);
    DivUnique(x, 2 * p, q, 2 * r + x % 2);
  }

  /** Masking with ones keeps the low bits. */
  lemma {:induction false} Mask(x: nat, n: nat)
    ensures Bitwise(BitAnd, x, Pow2(n) - 1) == x % Pow2(n)
  {
    if n == 0 {
      ZeroAnd(x);
    } else {
      var ones := Pow2(n) - 1;
      assert ones / 2 == Pow2(n - 1) - 1 && ones % 2 == 1;
      Mask(x / 2, n - 1);
      HalfMod(x, n);
      assert Bit(BitAnd, x % 2, 1) == x % 2;
      assert Bitwise(BitAnd, x, ones) == 2 * Bitwise(BitAnd, x / 2, ones / 2) + x % 2;
    }
  }

  lemma {:induction false} ZeroAnd(x: nat)
    ensures Bitwise(BitAnd, x, 0) == 0
  {
    if x > 0 {
      ZeroAnd(x / 2);
    }
  }

  /** The sign test `(x ^ v) & (y ^ v) < 0`: both operands differ in sign from `v`. */
  lemma SignTest(x: nat, v: nat, y: nat, u: nat)
    requires x < Size(W64) && v < Size(W64) && y < Size(W64) && u < Size(W64)
    ensures var a, b := Bitwise(BitXor, x, v), Bitwise(BitXor, y, u);
            && a < Size(W64) && b < Size(W64) && Bitwise(BitAnd, a, b) < Size(W64)
            && (AsSigned(W64, Bitwise(BitAnd, a, b)) < 0 <==>
                (AsSigned(W64, x) < 0) != (AsSigned(W64, v) < 0) && (AsSigned(W64, y) < 0) != (AsSigned(W64, u) < 0))
  {
    assert Pow2(64) == 2 * Pow2(63);
    TopBit(BitXor, x, v, 64);
    TopBit(BitXor, y, u, 64);
    TopBit(BitAnd, Bitwise(BitXor, x, v), Bitwise(BitXor, y, u), 64);
  }

  // ----- sums of 64-bit values -----

  /** Signed 64-bit addition overflows iff the wrapped sum differs in sign from both operands. */
  lemma SignedSum(a: int, b: int, subtract: bool)
    requires InRange(I64, PB, a) && InRange(I64, PB, b)
    ensures var exact := if subtract then a - b else a + b;
            var v := AsSigned(W64, Encode(W64, exact).bits);
            InRange(I64, PB, exact) <==>
            !((a < 0) != (v < 0) && (if subtract then (a < 0) != (b < 0) else (b < 0) != (v < 0)))
  {
  }

  // ----- shifts -----

  /** The interpretation of a 64-bit pattern at a 64-bit type. */
  function View(t: IntType, v: nat): int {
    if Signed(t) then AsSigned(W64, v) else v
  }

  lemma ViewOf(t: IntType, n: int)
    requires Wide(t)
    ensures var v := View(t, Encode(W64, n).bits); InRange(t, PB, v) && v % Size(W64) == n % Size(W64)
    ensures InRange(t, PB, n) ==> View(t, Encode(W64, n).bits) == n
  {
  }

  /** Shifting back tells whether a 64-bit left shift lost anything. */
  lemma ShiftBack(t: IntType, a: int, p: nat)
    requires Wide(t) && InRange(t, PB, a) && 0 < p <= 0x8000_0000_0000_0000
    ensures Encode(W64, View(t, Encode(W64, a * p).bits) / p) == Canonical(t, a) <==> InRange(t, PB, a * p)
  {
    var exact := a * p;
    var view := View(t, Encode(W64, exact).bits);
    ViewOf(t, exact);
    DivMod(view, p);
    FloorBounds(view, p);
    Quotients(t, exact, view, p, a, view / p, view % p);
    ViewOf(t, a);
    ViewOf(t, view / p);
  }

  /** `view` is the wrapped form of `exact == a * p`; it divides back to `a` iff nothing was lost. */
  lemma Quotients(t: IntType, exact: int, view: int, p: nat, a: int, back: int, rest: int)
    requires Wide(t) && p <= 0x8000_0000_0000_0000 && exact == a * p && Divides(view, p, back, rest)
    requires InRange(t, PB, view) && view % Size(W64) == exact % Size(W64)
    ensures back == a <==> InRange(t, PB, exact)
  {
    if InRange(t, PB, exact) {
      SameNumber(t, exact, view);
      DivUnique(view, p, a, 0);
      DivUnique(view, p, back, rest);
    } else if back == a {
      Congruent(exact, view, rest);
    }
  }

  lemma SameNumber(t: IntType, exact: int, view: int)
    requires Wide(t) && InRange(t, PB, exact) && InRange(t, PB, view) && view % Size(W64) == exact % Size(W64)
    ensures view == exact
  {
    Congruent(exact, view, view - exact);
  }

  lemma SmallPow(k: nat)
    requires k < 64
    ensures Pow2(k) <= 0x8000_0000_0000_0000
    ensures k < 32 ==> Pow2(k) <= 0x8000_0000
  {
    Pow2Add(k, 63 - k);
    Grows(Pow2(k), Pow2(63 - k));
    assert Pow2(63) == 0x8000_0000_0000_0000 by { MachineWidths(); assert Pow2(64) == 2 * Pow2(63); }
    if k < 32 {
      Pow2Add(k, 31 - k);
      Grows(Pow2(k), Pow2(31 - k));
      assert Pow2(31) == 0x8000_0000 by { MachineWidths(); assert Pow2(32) == 2 * Pow2(31); }
    }
  }

  /** Two views of one 64-bit pattern that are close are equal. */
  lemma Congruent(exact: int, view: int, gap: int)
    requires view % Size(W64) == exact % Size(W64)
    requires view == exact + gap && 0 - Size(W64) < gap < Size(W64)
    ensures gap == 0
  {
  }

  // ----- products of 64-bit values -----

  /** Dividing back tells whether an unsigned 64-bit product lost anything. */
  lemma UnsignedProduct(a: nat, b: nat)
    requires a < Size(W64) && 0 < b < Size(W64)
    ensures var v := Encode(W64, a * b).bits; v / b == a <==> a * b < Size(W64)
  {
    DividesBack(a, b, a * b, (a * b) % Size(W64));
  }

  lemma DividesBack(a: nat, b: nat, exact: nat, v: nat)
    requires b > 0 && exact == a * b && v == exact % Size(W64)
    ensures v / b == a <==> exact < Size(W64)
  {
    DivMod(v, b);
    if exact < Size(W64) {
      DivUnique(v, b, a, 0);
    }
  }

  /** The same for signed products, once `MIN * -1` and `-1 * MIN` are excluded. */
  lemma SignedProduct(a: int, b: int)
    requires InRange(I64, PB, a) && InRange(I64, PB, b) && b != 0
    requires !(a == MinOf(I64, PB) && b == -1) && !(b == MinOf(I64, PB) && a == -1)
    ensures var v := AsSigned(W64, Encode(W64, a * b).bits);
            && TruncDiv(v, b) != Size(W64) / 2
            && (TruncDiv(v, b) == a <==> InRange(I64, PB, a * b))
  {
    var v := AsSigned(W64, Encode(W64, a * b).bits);
    if b == -1 {
      assert a * b == -a;
    } else {
      TruncSmall(v, b);
    }
    if InRange(I64, PB, a * b) {
      assert v == a * b;
      TruncExact(a, b);
    } else if TruncDiv(v, b) == a {
      TruncRest(v, b);
      Congruent(a * b, v, TruncRem(v, b));
    }
  }

  lemma TruncSmall(v: int, b: int)
    requires InRange(I64, PB, v) && InRange(I64, PB, b) && b != 0 && b != -1
    ensures TruncDiv(v, b) < Size(W64) / 2
  {
    FloorBounds(Abs(v), Abs(b));
  }

  lemma TruncExact(a: int, b: int)
    requires b != 0
    ensures TruncDiv(a * b, b) == a
  {
    var p, q := Abs(a), Abs(b);
    Negations(p, q);
    assert Abs(a * b) == p * q;
    DivUnique(p * q, q, p, 0);
    if a > 0 && b < 0 {
      SignOfProduct(a, -b);
    } else if a < 0 && b > 0 {
      SignOfProduct(-a, b);
    } else if a > 0 {
      SignOfProduct(a, b);
    } else if a < 0 {
      SignOfProduct(-a, -b);
    }
  }

  lemma SignOfProduct(p: int, q: int)
    requires p > 0 && q > 0
    ensures p * q > 0 && -p * q < 0 && p * -q < 0 && -p * -q > 0
  {
    Grows(p, q);
    Negations(p, q);
  }

  lemma TruncRest(v: int, b: int)
    requires b != 0
    ensures v == TruncDiv(v, b) * b + TruncRem(v, b)
    ensures 0 - Abs(b) < TruncRem(v, b) < Abs(b)
  {
    var p, q := Abs(v), Abs(b);
    DivMod(p, q);
    Negations(p / q, q);
  }

  // ----- wrapping operators on canonical operands -----

  /** Wrapping sums, differences and products of patterns are patterns of the exact results. */
  lemma WrapsExactly(w: Width, a: int, b: int)
    ensures Compute(IAdd, w, Encode(w, a).bits, Encode(w, b).bits) == Push(Encode(w, a + b))
    ensures Compute(ISub, w, Encode(w, a).bits, Encode(w, b).bits) == Push(Encode(w, a - b))
    ensures Compute(IMul, w, Encode(w, a).bits, Encode(w, b).bits) == Push(Encode(w, a * b))
  {
    ModSum(a, b, Size(w));
    ModProduct(a, b, Size(w));
  }

  lemma ShiftsLeft(w: Width, a: int, k: nat)
    requires k < BitsOf(w)
    ensures Compute(IShl, w, Encode(w, a).bits, k) == Push(Encode(w, a * Pow2(k)))
  {
    assert k % BitsOf(w) == k;
    ModProduct(a, Pow2(k), Size(w));
  }

  /** The mathematical result of an operator that can overflow. */
  function Exact(op: Op, a: int, b: int): int {
    if op.Add? then a + b else if op.Sub? then a - b else if op.Mul? then a * b else a * Pow2(Abs(b))
  }

  /** The i64 result of a narrow operation is exact. */
  lemma NarrowBounds(op: Op, t: IntType, a: int, b: int)
    requires !Wide(t) && InRange(t, PB, a)
    requires if op.Shl? then 0 <= b < Bits(t, PB) else (op.Add? || op.Sub? || op.Mul?) && InRange(t, PB, b)
    ensures var x := Exact(op, a, b);
            if Signed(t) then -0x8000_0000_0000_0000 <= x < 0x8000_0000_0000_0000
            else -0x1_0000_0000 < x < 0x1_0000_0000_0000_0000
  {
    var limit: nat := if Signed(t) then 0x8000_0000 else 0xFFFF_FFFF;
    assert Abs(a) <= limit;
    if op.Mul? {
      ProductBound(a, b, limit, limit);
    } else if op.Shl? {
      SmallPow(b);
      ProductBound(a, Pow2(b), limit, 0x8000_0000);
    }
  }

  lemma ProductBound(a: int, b: int, c: nat, d: nat)
    requires Abs(a) <= c && Abs(b) <= d
    ensures 0 - c * d <= a * b <= c * d
    ensures a >= 0 && b >= 0 ==> a * b >= 0
  {
    Monotone(Abs(a), Abs(b), c, d);
    Negations(Abs(a), Abs(b));
  }

  /** Comparing the i64 result with the type's bounds decides representability. */
  lemma NarrowCheck(t: IntType, x: int)
    requires !Wide(t)
    requires if Signed(t) then -0x8000_0000_0000_0000 <= x < 0x8000_0000_0000_0000
             else -0x1_0000_0000 < x < 0x1_0000_0000_0000_0000
    ensures var v, hi, lo := Encode(W64, x).bits, Encode(W64, MaxOf(t, PB)).bits, Encode(W64, MinOf(t, PB)).bits;
            InRange(t, PB, x) <==>
            (if Signed(t) then AsSigned(W64, v) <= AsSigned(W64, hi) && AsSigned(W64, v) >= AsSigned(W64, lo) else v <= hi)
  {
    if Signed(t) {
      SignedPattern(W64, x);
      SignedPattern(W64, MaxOf(t, PB));
      SignedPattern(W64, MinOf(t, PB));
    } else {
      UnsignedBound(x, MaxOf(t, PB));
    }
  }

  lemma UnsignedBound(x: int, hi: int)
    requires 0 <= hi < 0x1_0000_0000 && -0x1_0000_0000 < x < 0x1_0000_0000_0000_0000
    ensures Encode(W64, x).bits <= Encode(W64, hi).bits <==> 0 <= x <= hi
  {
    if x < 0 {
      ModMultiple(x, 1, Size(W64));
    }
  }

  lemma Narrows(x: int)
    ensures Encode(W32, Encode(W64, x).bits) == Encode(W32, x)
  {
  }

  /** Extending a canonical i32 to i64 keeps its value. */
  lemma Extends(t: IntType, n: int)
    requires !Wide(t) && InRange(t, PB, n)
    ensures (if Signed(t) then Encode(W64, AsSigned(W32, Canonical(t, n).bits)) else Encode(W64, Canonical(t, n).bits))
            == Encode(W64, n)
  {
    Views(t, n);
  }

  // ----- normalisation of narrow results -----

  /** A type's own pattern is the low part of the canonical local. */
  lemma OwnPattern(t: IntType, n: int)
    ensures Canonical(t, n).bits % Modulus(t, PB) == Pattern(t, PB, n)
  {
    match t
    case I8 | U8 => ModMod(n, 0x100, 0x100_0000);
    case I16 | U16 => ModMod(n, 0x1_0000, 0x1_0000);
    case _ => WholePattern(t, n);
  }

  lemma WholePattern(t: IntType, n: int)
    requires Bits(t, PB) >= 32
    ensures Canonical(t, n).bits % Modulus(t, PB) == Pattern(t, PB, n)
  {
  }

  /** Dividing the signed view of a shifted-up field gives the field's signed view. */
  lemma SignedQuotient(low: nat, m: nat, k: nat)
    requires m * k == Size(W32) && low < m && m % 2 == 0 && k > 0
    ensures low * k < Size(W32)
    ensures AsSigned(W32, low * k) / k == if low >= m / 2 then low - m else low
  {
    Monotone(low, k, m - 1, k);
    var h := m / 2;
    assert h * k == Size(W32) / 2;
    if low >= h {
      Monotone(h, k, low, k);
      assert low * k - m * k == (low - m) * k;
      DivUnique(low * k - Size(W32), k, low - m, 0);
    } else {
      Monotone(low, k, h - 1, k);
      DivUnique(low * k, k, low, 0);
    }
  }

  /** Multiplying by `k` and reducing modulo `m * k` keeps the residue modulo `m`. */
  lemma ShiftedResidue(p: nat, m: nat, k: nat)
    requires m > 0 && k > 0
    ensures m * k > 0 && (p * k) % (m * k) == p % m * k
  {
    Grows(m, k);
    DivMod(p, m);
    var h, low := p / m, p % m;
    assert p * k == low * k + h * (m * k);
    Monotone(low, k, m - 1, k);
    DivUnique(p * k, m * k, h, low * k);
  }

  /** Shifting a pattern up and down again sign-extends its low bits. */
  lemma SignExtends(t: IntType, n: int)
    requires t.I8? || t.I16?
    ensures var k := 32 - Bits(t, PB);
            var up := Encode(W32, Encode(W32, n).bits * Pow2(k)).bits;
            Encode(W32, AsSigned(W32, up) / Pow2(k)) == Canonical(t, Wrap(t, PB, n))
  {
    var p := Encode(W32, n).bits;
    MachineWidths();
    Pow2Add(8, 16);
    OwnPattern(t, n);
    if t.I8? {
      ShiftedResidue(p, 0x100, 0x100_0000);
      SignedQuotient(p % 0x100, 0x100, 0x100_0000);
    } else {
      ShiftedResidue(p, 0x1_0000, 0x1_0000);
      SignedQuotient(p % 0x1_0000, 0x1_0000, 0x1_0000);
    }
  }

  lemma ZeroExtends(t: IntType, n: int)
    requires t.U8? || t.U16?
    ensures Encode(W32, Bitwise(BitAnd, Encode(W32, n).bits, Modulus(t, PB) - 1)) == Canonical(t, Wrap(t, PB, n))
  {
    var p := Encode(W32, n).bits;
    Mask(p, Bits(t, PB));
    OwnPattern(t, n);
  }

  lemma FullWidth(t: IntType, n: int)
    requires Bits(t, PB) >= 32
    ensures Encode(WidthOf(t), n) == Canonical(t, Wrap(t, PB, n))
  {
  }

  // ----- division, right shift and bitwise operators -----

  /** A representable quotient is not the one value that traps. */
  lemma QuotientBelow(t: IntType, a: int, b: int)
    requires Signed(t) && b != 0 && InRange(t, PB, TruncDiv(a, b))
    ensures TruncDiv(a, b) != Size(WidthOf(t)) / 2
  {
  }

  lemma Divides2(t: IntType, a: int, b: int)
    requires InRange(t, PB, a) && InRange(t, PB, b) && b != 0
    requires !(Signed(t) && a == MinOf(t, PB) && b == -1)
    ensures var w, p, q := WidthOf(t), Canonical(t, a).bits, Canonical(t, b).bits;
            && Compute(if Signed(t) then IDivS else IDivU, w, p, q) == Push(Canonical(t, TruncDiv(a, b)))
            && Compute(if Signed(t) then IRemS else IRemU, w, p, q) == Push(Canonical(t, TruncRem(a, b)))
    ensures InRange(t, PB, TruncDiv(a, b)) && InRange(t, PB, TruncRem(a, b))
  {
    hide Pow2, Bitwise;
    Views(t, a);
    Views(t, b);
    TruncDivInRange(t, PB, a, b);
    if Signed(t) {
      QuotientBelow(t, a, b);
    } else {
      DivMod(a, b);
    }
  }

  lemma ShiftsRight(t: IntType, a: int, k: nat)
    requires InRange(t, PB, a) && k < Bits(t, PB)
    ensures Compute(if Signed(t) then IShrS else IShrU, WidthOf(t), Canonical(t, a).bits, k) == Push(Canonical(t, a / Pow2(k)))
  {
    Views(t, a);
    ShiftComputes(WidthOf(t), Canonical(t, a).bits, k);
  }

  lemma ShiftComputes(w: Width, p: nat, k: nat)
    requires k < BitsOf(w)
    ensures Compute(IShrS, w, p, k) == Push(Encode(w, AsSigned(w, p) / Pow2(k)))
    ensures Compute(IShrU, w, p, k) == Push(Encode(w, p / Pow2(k)))
  {
    assert k % BitsOf(w) == k;
  }

  lemma ShiftedInRange(t: IntType, a: int, p: nat)
    requires InRange(t, PB, a) && p > 0
    ensures InRange(t, PB, a / p)
  {
    FloorBounds(a, p);
  }

  function BitInstr(op: Op): IntOp
    requires op.BitAnd? || op.BitOr? || op.BitXor?
  {
    if op.BitAnd? then IAnd else if op.BitOr? then IOr else IXor
  }

  lemma BitwiseComputes(op: Op, w: Width, p: nat, q: nat)
    requires op.BitAnd? || op.BitOr? || op.BitXor?
    ensures Compute(BitInstr(op), w, p, q) == Push(Encode(w, Bitwise(op, p, q)))
  {
  }

  /** A bitwise operator on canonical locals, wrapped, is the operator on the type's own patterns. */
  lemma BitwiseAgrees(op: Op, t: IntType, a: int, b: int)
    requires op.BitAnd? || op.BitOr? || op.BitXor?
    ensures Apply(op, t, PB, a, b, false).Value?
    ensures Wrap(t, PB, Bitwise(op, Canonical(t, a).bits, Canonical(t, b).bits)) == Apply(op, t, PB, a, b, false).n
  {
    var p, q := Canonical(t, a).bits, Canonical(t, b).bits;
    OwnPattern(t, a);
    OwnPattern(t, b);
    var x, y := Bitwise(op, p, q), Bitwise(op, Pattern(t, PB, a), Pattern(t, PB, b));
    assert x % Modulus(t, PB) == y by { LowBits(op, p, q, Bits(t, PB)); }
    assert y < Modulus(t, PB) by { BitwiseWidth(op, Pattern(t, PB, a), Pattern(t, PB, b), Bits(t, PB)); }
    SameWrap(t, x, y);
    ApplyBitwise(op, t, a, b);
  }

  lemma ApplyBitwise(op: Op, t: IntType, a: int, b: int)
    requires op.BitAnd? || op.BitOr? || op.BitXor?
    ensures Apply(op, t, PB, a, b, false) == Value(Wrap(t, PB, Bitwise(op, Pattern(t, PB, a), Pattern(t, PB, b))))
  {
  }

  lemma SameWrap(t: IntType, x: nat, y: nat)
    requires y < Modulus(t, PB) && x % Modulus(t, PB) == y
    ensures Wrap(t, PB, x) == Wrap(t, PB, y)
  {
    Nonlinear.DivUnique(y, Modulus(t, PB), 0, y);
    assert Pattern(t, PB, x) == Pattern(t, PB, y);
  }

  /** Comparisons of canonical locals compare the values. */
  lemma ComparesAgree(t: IntType, a: int, b: int)
    requires InRange(t, PB, a) && InRange(t, PB, b)
    ensures var w, p, q := WidthOf(t), Canonical(t, a).bits, Canonical(t, b).bits;
            && (p == q <==> a == b)
            && (if Signed(t) then AsSigned(w, p) == a && AsSigned(w, q) == b else p == a && q == b)
  {
    Views(t, a);
    Views(t, b);
  }
}
