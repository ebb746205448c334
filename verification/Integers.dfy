/**
 Fixed-width integer types and the checked operators of the source language.

 Values are mathematical integers; a type contributes its range. The operators state
 what a program may observe: either a value of the type, or the runtime check that
 fails. Both the range prover and the Wasm lowering are proved against them.
 */
module Integers {
  import opened Nonlinear

  datatype IntType = I8 | I16 | I32 | I64 | Isize | U8 | U16 | U32 | U64 | Usize

  datatype Op =
    | Add | Sub | Mul | Div | Rem
    | Eq | Ne | Lt | Le | Gt | Ge
    | BitAnd | BitOr | BitXor | Shl | Shr

  datatype Check = Overflow | DivideByZero | DivisionOverflow | ShiftCount | IndexBounds

  datatype Arith = Value(n: int) | Failed(check: Check)

  function Pow2(n: nat): (p: nat)
    ensures p > 0
  {
    if n == 0 then 1 else 2 * Pow2(n - 1)
  }

  lemma {:induction false} Pow2Add(a: nat, b: nat)
    ensures Pow2(a + b) == Pow2(a) * Pow2(b)
  {
    if a == 0 {
    } else {
      Pow2Add(a - 1, b);
    }
  }

  lemma MachineWidths()
    ensures Pow2(8) == 0x100
    ensures Pow2(16) == 0x1_0000
    ensures Pow2(32) == 0x1_0000_0000
    ensures Pow2(64) == 0x1_0000_0000_0000_0000
  {
    assert Pow2(8) == 0x100;
    Pow2Add(8, 8);
    Pow2Add(16, 16);
    Pow2Add(32, 32);
  }

  /** A C `uint64_t` holding a count or a bound. */
  type Word64 = n: nat | n < 0x1_0000_0000_0000_0000

  const WORD_MAX: Word64 := 0xFFFF_FFFF_FFFF_FFFF

  predicate Signed(t: IntType) {
    t.I8? || t.I16? || t.I32? || t.I64? || t.Isize?
  }

  function Bits(t: IntType, pointerBytes: nat): (bits: nat)
    ensures bits == 8 || bits == 16 || bits == 32 || bits == 64
  {
    match t
    case I8 | U8 => 8
    case I16 | U16 => 16
    case I32 | U32 => 32
    case I64 | U64 => 64
    case Isize | Usize => if pointerBytes == 4 then 32 else 64
  }

  /** The number of values of a type. */
  function Modulus(t: IntType, pointerBytes: nat): (m: nat)
    ensures m == 0x100 || m == 0x1_0000 || m == 0x1_0000_0000 || m == 0x1_0000_0000_0000_0000
    ensures m == Pow2(Bits(t, pointerBytes))
  {
    MachineWidths();
    match Bits(t, pointerBytes)
    case 8 => 0x100
    case 16 => 0x1_0000
    case 32 => 0x1_0000_0000
    case _ => 0x1_0000_0000_0000_0000
  }

  function MinOf(t: IntType, pointerBytes: nat): int {
    if Signed(t) then -(Modulus(t, pointerBytes) / 2) else 0
  }

  function MaxOf(t: IntType, pointerBytes: nat): int {
    if Signed(t) then Modulus(t, pointerBytes) / 2 - 1 else Modulus(t, pointerBytes) - 1
  }

  predicate InRange(t: IntType, pointerBytes: nat, n: int) {
    MinOf(t, pointerBytes) <= n <= MaxOf(t, pointerBytes)
  }

  /** Two's-complement bit pattern of a value, as a natural number. */
  function Pattern(t: IntType, pointerBytes: nat, n: int): (p: nat)
    ensures p < Modulus(t, pointerBytes)
  {
    match Bits(t, pointerBytes)
    case 8 => n % 0x100
    case 16 => n % 0x1_0000
    case 32 => n % 0x1_0000_0000
    case _ => n % 0x1_0000_0000_0000_0000
  }

  lemma PatternOfValue(t: IntType, pointerBytes: nat, n: int)
    ensures InRange(t, pointerBytes, n) ==> Pattern(t, pointerBytes, n) == if n >= 0 then n else n + Modulus(t, pointerBytes)
  {
    hide Pow2;
    var bits := Bits(t, pointerBytes);
    if InRange(t, pointerBytes, n) {
      if bits == 8 {
        assert -0x100 <= n < 0x100;
      } else if bits == 16 {
        assert -0x1_0000 <= n < 0x1_0000;
      } else if bits == 32 {
        assert -0x1_0000_0000 <= n < 0x1_0000_0000;
      }
    }
  }

  /** The value of the type congruent to `n`. */
  function Wrap(t: IntType, pointerBytes: nat, n: int): (w: int)
    ensures InRange(t, pointerBytes, w)
    ensures InRange(t, pointerBytes, n) ==> w == n
  {
    PatternOfValue(t, pointerBytes, n);
    var p := Pattern(t, pointerBytes, n);
    if Signed(t) && p >= Modulus(t, pointerBytes) / 2 then p - Modulus(t, pointerBytes) else p
  }

  /** One result bit of a bitwise operator. */
  function Bit(op: Op, a: nat, b: nat): (bit: nat)
    requires op.BitAnd? || op.BitOr? || op.BitXor?
    requires a < 2 && b < 2
    ensures bit < 2
  {
    if op.BitAnd? then a * b
    else if op.BitOr? then a + b - a * b
    else a + b - 2 * (a * b)
  }

  function Bitwise(op: Op, a: nat, b: nat): (c: nat)
    requires op.BitAnd? || op.BitOr? || op.BitXor?
    ensures op.BitAnd? ==> c <= a && c <= b
    decreases a + b
  {
    if a == 0 && b == 0 then 0
    else 2 * Bitwise(op, a / 2, b / 2) + Bit(op, a % 2, b % 2)
  }

  /** A bitwise result needs no more bits than its operands. */
  lemma {:induction false} BitwiseWidth(op: Op, a: nat, b: nat, bits: nat)
    requires op.BitAnd? || op.BitOr? || op.BitXor?
    requires a < Pow2(bits) && b < Pow2(bits)
    ensures Bitwise(op, a, b) < Pow2(bits)
    decreases bits
  {
    if bits > 0 && (a != 0 || b != 0) {
      BitwiseWidth(op, a / 2, b / 2, bits - 1);
    }
  }

  /** Division truncating toward zero, as C, Wasm and the source language define it. */
  function TruncDiv(a: int, b: int): int
    requires b != 0
  {
    if (a < 0) == (b < 0) then Abs(a) / Abs(b) else -(Abs(a) / Abs(b))
  }

  function TruncRem(a: int, b: int): int
    requires b != 0
  {
    a - TruncDiv(a, b) * b
  }

  function Abs(a: int): (n: nat)
    ensures n == a || n == -a
  {
    if a < 0 then -a else a
  }

  predicate Comparison(op: Op) {
    op.Eq? || op.Ne? || op.Lt? || op.Le? || op.Gt? || op.Ge?
  }

  predicate Compare(op: Op, a: int, b: int)
    requires Comparison(op)
  {
    if op.Eq? then a == b
    else if op.Ne? then a != b
    else if op.Lt? then a < b
    else if op.Le? then a <= b
    else if op.Gt? then a > b
    else a >= b
  }

  /** An arithmetic result: wrapped when unchecked, otherwise only if representable. */
  function Fit(t: IntType, pointerBytes: nat, n: int, unchecked: bool): Arith {
    if unchecked then Value(Wrap(t, pointerBytes, n))
    else if InRange(t, pointerBytes, n) then Value(n)
    else Failed(Overflow)
  }

  /**
   `a op b` at type `t`. `unchecked` drops only the overflow check: it holds inside
   `#wrap` and where the compiler has proved the check redundant.
   */
  function Apply(op: Op, t: IntType, pointerBytes: nat, a: int, b: int, unchecked: bool): Arith {
    match op
    case Add => Fit(t, pointerBytes, a + b, unchecked)
    case Sub => Fit(t, pointerBytes, a - b, unchecked)
    case Mul => Fit(t, pointerBytes, a * b, unchecked)
    case Div | Rem =>
      if b == 0 then Failed(DivideByZero)
      else if Signed(t) && a == MinOf(t, pointerBytes) && b == -1 then Failed(DivisionOverflow)
      else Value(if op.Div? then TruncDiv(a, b) else TruncRem(a, b))
    case Shl | Shr =>
      if !(0 <= b < Bits(t, pointerBytes)) then Failed(ShiftCount)
      else if op.Shl? then Fit(t, pointerBytes, a * Pow2(b), unchecked)
      else Value(a / Pow2(b))
    case BitAnd | BitOr | BitXor =>
      Value(Wrap(t, pointerBytes, Bitwise(op, Pattern(t, pointerBytes, a), Pattern(t, pointerBytes, b))))
    case _ => Value(if Compare(op, a, b) then 1 else 0)
  }

  /** Truncated quotient and remainder lie between zero and the dividend, up to sign. */
  lemma TruncBounds(a: int, b: int)
    requires b != 0
    ensures 0 - Abs(a) <= TruncDiv(a, b) <= Abs(a)
    ensures a >= 0 && b > 0 ==> TruncDiv(a, b) >= 0
    ensures a < 0 && TruncDiv(a, b) == Abs(a) ==> b == -1
    ensures if a < 0 then a <= TruncRem(a, b) <= 0 else 0 <= TruncRem(a, b) <= a
  {
    var p, q := Abs(a), Abs(b);
    FloorBounds(p, q);
    DivMod(p, q);
    TruncAux(a, b, p / q, p % q);
  }

  lemma TruncAux(a: int, b: int, d: int, r: int)
    requires b != 0 && Divides(Abs(a), Abs(b), d, r) && 0 <= d
    ensures var t := if (a < 0) == (b < 0) then d else -d;
            if a < 0 then a <= a - t * b <= 0 else 0 <= a - t * b <= a
  {
    Negations(d, b);
    var prod := d * b;
    if b > 0 {
      Grows(d, b);
    } else {
      Grows(d, -b);
    }
  }

  lemma TruncDivInRange(t: IntType, pb: nat, a: int, b: int)
    requires InRange(t, pb, a) && InRange(t, pb, b) && b != 0
    requires !(Signed(t) && a == MinOf(t, pb) && b == -1)
    ensures InRange(t, pb, TruncDiv(a, b)) && InRange(t, pb, TruncRem(a, b))
  {
    TruncBounds(a, b);
    var q, r := TruncDiv(a, b), TruncRem(a, b);
    assert Signed(t) ==> MinOf(t, pb) == -MaxOf(t, pb) - 1;
  }

  /** An operator's value belongs to its operand type, or is a truth value. */
  lemma ApplyInRange(op: Op, t: IntType, pb: nat, a: int, b: int, unchecked: bool)
    requires InRange(t, pb, a)
    requires op.Shl? || op.Shr? || InRange(t, pb, b)
    requires Apply(op, t, pb, a, b, unchecked).Value?
    ensures var n := Apply(op, t, pb, a, b, unchecked).n;
            if Comparison(op) then n == 0 || n == 1 else InRange(t, pb, n)
  {
    hide Pattern, Bitwise, TruncDiv, TruncRem, Wrap, MinOf, MaxOf, InRange, Pow2, Bits;
    if op.Div? || op.Rem? {
      TruncDivInRange(t, pb, a, b);
    } else if op.Shr? {
      ShiftInRange(t, pb, a, Pow2(b));
    } else if op.Add? || op.Sub? || op.Mul? || op.Shl? {
      FitInRange(t, pb, if op.Add? then a + b else if op.Sub? then a - b else if op.Mul? then a * b else a * Pow2(b), unchecked);
    }
  }

  lemma FitInRange(t: IntType, pb: nat, n: int, unchecked: bool)
    ensures var r := Fit(t, pb, n, unchecked); r.Value? ==> InRange(t, pb, r.n)
  {
    hide Wrap, MinOf, MaxOf;
  }

  lemma ShiftInRange(t: IntType, pb: nat, a: int, d: nat)
    requires InRange(t, pb, a) && d > 0
    ensures InRange(t, pb, a / d)
  {
    FloorBounds(a, d);
    BetweenInRange(t, pb, a, a / d);
  }

  lemma BetweenInRange(t: IntType, pb: nat, a: int, n: int)
    requires InRange(t, pb, a) && (if a >= 0 then 0 <= n <= a else a <= n < 0)
    ensures InRange(t, pb, n)
  {
  }
}
