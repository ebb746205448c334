/**
 What the range prover does not miss: each computed range is the best for its operands' ranges,
 ranges are carried as far as they hold, and a check of a counted loop is marked exactly if the
 arithmetic of the loop allows it.
 */
module RangeCompleteness {
  import opened Nonlinear
  import opened Integers
  import opened Ranges
  import opened RangeIr
  import opened RangeProver
  import opened RangeSoundness

  // ----- ranges of operators -----

  /** An exact range says the same twice. */
  predicate Sharp(r: Range) {
    r.valid && (r.exact ==> r.value == r.max)
  }

  /** The values that an operator can have, of operands within two ranges. */
  ghost predicate Sums(l: Range, r: Range, v: int) {
    exists a: nat, b: nat :: Fits(Num(a), l) && Fits(Num(b), r) && v == a + b
  }

  ghost predicate Products(l: Range, r: Range, v: int) {
    exists a: nat, b: nat :: Fits(Num(a), l) && Fits(Num(b), r) && v == a * b
  }

  ghost predicate Meets(l: Range, r: Range, v: int) {
    exists a: nat, b: nat :: Fits(Num(a), l) && Fits(Num(b), r) && v == Bitwise(BitAnd, a, b)
  }

  /** The range of a sum is known unless it may exceed a machine word, and its maximum is reached. */
  lemma SumBest(e: Expr, locals: RangeLocals, pb: nat)
    requires e.Binary? && e.op.Add? && !e.wrap
    requires Sharp(UintRange(e.left, locals, pb)) && Sharp(UintRange(e.right, locals, pb))
    ensures var l, r, s := UintRange(e.left, locals, pb), UintRange(e.right, locals, pb), UintRange(e, locals, pb);
            && (s.valid <==> l.max + r.max <= WORD_MAX)
            && (s.valid ==> Sums(l, r, s.max) && (forall v :: Sums(l, r, v) ==> v <= s.max) && Sharp(s) && (s.exact <==> l.exact && r.exact))
  {
    var l, r := UintRange(e.left, locals, pb), UintRange(e.right, locals, pb);
    if l.max + r.max <= WORD_MAX {
      assert Fits(Num(l.max), l) && Fits(Num(r.max), r);
      assert Sums(l, r, l.max + r.max);
    }
  }

  lemma ProductBest(e: Expr, locals: RangeLocals, pb: nat)
    requires e.Binary? && e.op.Mul? && !e.wrap
    requires Sharp(UintRange(e.left, locals, pb)) && Sharp(UintRange(e.right, locals, pb))
    ensures var l, r, s := UintRange(e.left, locals, pb), UintRange(e.right, locals, pb), UintRange(e, locals, pb);
            && (s.valid <==> l.max * r.max <= WORD_MAX)
            && (s.valid ==> Products(l, r, s.max) && (forall v :: Products(l, r, v) ==> v <= s.max) && Sharp(s) && (s.exact <==> l.exact && r.exact))
  {
    hide Products, UintRange;
    var l, r := UintRange(e.left, locals, pb), UintRange(e.right, locals, pb);
    ProductKnown(e, locals, pb);
    WordProduct(l.max, r.max);
    ProductReached(l, r);
  }

  lemma ProductKnown(e: Expr, locals: RangeLocals, pb: nat)
    requires e.Binary? && e.op.Mul? && !e.wrap
    ensures var l, r, s := UintRange(e.left, locals, pb), UintRange(e.right, locals, pb), UintRange(e, locals, pb);
            if l.valid && r.valid && (l.max == 0 || r.max <= WORD_MAX / l.max)
            then s.valid && s.max == l.max * r.max && s.exact == (l.exact && r.exact) && s.value == l.value * r.value
            else !s.valid
  {
  }

  /** The division test of the source is the product's. */
  lemma WordProduct(a: nat, b: nat)
    ensures (a == 0 || b <= WORD_MAX / a) <==> a * b <= WORD_MAX
  {
    if a > 0 {
      DivMod(WORD_MAX, a);
      Quotient(a, b, WORD_MAX, WORD_MAX / a, WORD_MAX % a);
    }
  }

  lemma Quotient(a: nat, b: nat, w: nat, q: nat, r: nat)
    requires a > 0 && w == a * q + r && r < a
    ensures b <= q <==> a * b <= w
  {
    if b <= q {
      Monotone(a, b, a, q);
    } else {
      Monotone(a, q + 1, a, b);
      assert a * (q + 1) == a * q + a;
    }
  }

  lemma ProductReached(l: Range, r: Range)
    requires Sharp(l) && Sharp(r)
    ensures Products(l, r, l.max * r.max) && forall v :: Products(l, r, v) ==> v <= l.max * r.max
  {
    assert Fits(Num(l.max), l) && Fits(Num(r.max), r);
    forall v | Products(l, r, v)
      ensures v <= l.max * r.max
    {
      var a: nat, b: nat :| Fits(Num(a), l) && Fits(Num(b), r) && v == a * b;
      Monotone(a, b, l.max, r.max);
    }
  }

  function Top(r: Range): nat {
    if r.exact then r.value else r.max
  }

  /** An exact operand has all the bits of a number. */
  predicate Covers(r: Range, n: nat) {
    r.exact ==> Bitwise(BitAnd, n, r.value) == n
  }

  /**
   The range of a conjunction is always known. Its maximum, the smaller of both, is a bound, and it
   is reached if and only if the exact operands have all its bits; without exact ones it always is.
   */
  lemma MeetBest(e: Expr, locals: RangeLocals, pb: nat)
    requires e.Binary? && e.op.BitAnd? && !e.wrap
    requires UintRange(e.left, locals, pb).valid && UintRange(e.right, locals, pb).valid
    ensures var l, r, s := UintRange(e.left, locals, pb), UintRange(e.right, locals, pb), UintRange(e, locals, pb);
            && s.valid && s.max == (if Top(l) < Top(r) then Top(l) else Top(r))
            && (forall v :: Meets(l, r, v) ==> v <= s.max) && (Meets(l, r, s.max) <==> Covers(l, s.max) && Covers(r, s.max))
            && (s.exact <==> l.exact && r.exact) && (s.exact ==> Meets(l, r, s.value))
  {
    hide Meets;
    var l, r := UintRange(e.left, locals, pb), UintRange(e.right, locals, pb);
    MeetReached(l, r, if Top(l) < Top(r) then Top(l) else Top(r));
  }

  lemma MeetReached(l: Range, r: Range, m: nat)
    requires l.valid && r.valid && m == if Top(l) < Top(r) then Top(l) else Top(r)
    ensures forall v :: Meets(l, r, v) ==> v <= m
    ensures Meets(l, r, m) <==> Covers(l, m) && Covers(r, m)
    ensures l.exact && r.exact ==> Meets(l, r, Bitwise(BitAnd, l.value, r.value))
  {
    hide Bitwise;
    forall v | Meets(l, r, v)
      ensures v <= m && (v == m ==> Covers(l, m) && Covers(r, m))
    {
      var a: nat, b: nat :| Fits(Num(a), l) && Fits(Num(b), r) && v == Bitwise(BitAnd, a, b);
      MeetBelow(a, b);
    }
    if Covers(l, m) && Covers(r, m) {
      var a, b := if l.exact then l.value else m, if r.exact then r.value else m;
      MeetSame(m);
      MeetTurned(m, a);
      MeetTurned(m, b);
      assert Fits(Num(a), l) && Fits(Num(b), r) && Bitwise(BitAnd, a, b) == m;
    }
    if l.exact && r.exact {
      assert Fits(Num(l.value), l) && Fits(Num(r.value), r);
    }
  }

  lemma {:induction false} MeetSame(a: nat)
    ensures Bitwise(BitAnd, a, a) == a
  {
    if a > 0 {
      MeetSame(a / 2);
      assert a % 2 * (a % 2) == a % 2;
    }
  }

  lemma {:induction false} MeetTurned(a: nat, b: nat)
    ensures Bitwise(BitAnd, a, b) == Bitwise(BitAnd, b, a)
    decreases a + b
  {
    if a != 0 || b != 0 {
      MeetTurned(a / 2, b / 2);
      assert a % 2 * (b % 2) == b % 2 * (a % 2);
    }
  }

  /** A conjunction is below both operands and has only their bits. */
  lemma {:induction false} MeetBelow(a: nat, b: nat)
    ensures Bitwise(BitAnd, a, b) <= a && Bitwise(BitAnd, a, b) <= b
    ensures Bitwise(BitAnd, Bitwise(BitAnd, a, b), a) == Bitwise(BitAnd, a, b) == Bitwise(BitAnd, Bitwise(BitAnd, a, b), b)
    decreases a + b
  {
    hide Bitwise;
    if a != 0 || b != 0 {
      MeetBelow(a / 2, b / 2);
      var c, bit := Bitwise(BitAnd, a / 2, b / 2), a % 2 * (b % 2);
      MeetStep(a, b);
      MeetBit(a % 2, b % 2);
      var m := 2 * c + bit;
      assert m / 2 == c && m % 2 == bit;
      MeetStep(m, a);
      MeetStep(m, b);
    } else {
      MeetSame(0);
    }
  }

  lemma MeetBit(a: nat, b: nat)
    requires a < 2 && b < 2
    ensures a * b <= 1 && a * b * a == a * b == a * b * b && a * b <= a && a * b <= b
  {
  }

  lemma MeetStep(a: nat, b: nat)
    ensures Bitwise(BitAnd, a, b) == 2 * Bitwise(BitAnd, a / 2, b / 2) + a % 2 * (b % 2)
  {
  }

  /** A conversion keeps a range that fits; of any other the whole type can come, and its maximum does. */
  lemma ConvertBest(t: Type, source: Expr, locals: RangeLocals, pb: nat)
    requires UnsignedType(t)
    ensures var from, r := UintRange(source, locals, pb), UintRange(Convert(t, source), locals, pb);
            if from.valid && from.max <= MaxOf(t.it, pb) then r == from
            else
              && r.valid && !r.exact && r.max == MaxOf(t.it, pb) && Wrap(t.it, pb, r.max) == r.max
              && (!from.exact ==> Fits(Num(r.max), from))
  {
  }

  /** Literals are known exactly, names as the table says, elements up to their type's maximum. */
  lemma LeavesBest(e: Expr, locals: RangeLocals, pb: nat)
    ensures e.Literal? ==> UintRange(e, locals, pb) == Exactly(e.integer)
    ensures e.BoolLiteral? ==> UintRange(e, locals, pb) == Exactly(if e.value then 1 else 0)
    ensures e.Name? && locals.Has(e.local) ==> UintRange(e, locals, pb) == locals.Get(e.local)
    ensures e.Index? && UnsignedType(e.typ) ==>
              var r := UintRange(e, locals, pb); r.valid && r.max == MaxOf(e.typ.it, pb) && Conforms(Num(r.max), e.typ, pb)
  {
  }

  // ----- how far ranges are carried -----

  /** No statement from `i` to `j` writes a local. */
  predicate Untouched(body: seq<Stmt>, i: nat, j: nat, x: nat)
    requires j <= |body|
  {
    forall k :: i <= k < j ==> !Touches(body[k], x)
  }

  /** In a loop body a range stays until its local is written. */
  lemma {:induction false} InsideStays(body: seq<Stmt>, i: nat, j: nat, inside: RangeLocals, pb: nat, x: nat)
    requires i <= j <= |body| && inside.Has(x) && Untouched(body, i, j, x)
    ensures Inside(body, j, inside, pb).Get(x) == Inside(body, i, inside, pb).Get(x)
    decreases j
  {
    if i < j {
      InsideStays(body, i, j - 1, inside, pb, x);
      assert !Touches(body[j - 1], x);
    }
  }

  /** A declaration in the body gives its local the range of its value. */
  lemma InsideDeclared(body: seq<Stmt>, i: nat, j: nat, inside: RangeLocals, pb: nat, x: nat)
    requires i < j <= |body| && inside.Has(x) && body[i].Local? && body[i].target == x && Untouched(body, i + 1, j, x)
    ensures Inside(body, j, inside, pb).Get(x) == UintRange(body[i].init, Inside(body, i, inside, pb), pb)
  {
    InsideStays(body, i + 1, j, inside, pb, x);
  }

  /** Entering a body, what it does not write is known as before. */
  lemma CarriedStays(outer: RangeLocals, body: seq<Stmt>, x: nat)
    requires outer.Has(x) && Untouched(body, 0, |body|, x)
    ensures Carried(outer, body).Has(x) && Carried(outer, body).Get(x) == outer.Get(x)
  {
    assert !Touched(body, x) && outer.start + (x - outer.start) == x;
  }

  /** A plain statement: an assignment or declaration of a local in the table, without effects. */
  predicate PlainStmt(st: Stmt, locals: RangeLocals) {
    (st.Local? || st.Assign?) && locals.Has(st.target) && Pure(st.init)
  }

  /** At function level a written local has the range of its value until it is written again. */
  lemma {:induction false} FlowKnown(body: seq<Stmt>, i: nat, j: nat, locals: RangeLocals, pb: nat, x: nat)
    requires i < j <= |body| && locals.Has(x) && Touches(body[i], x)
    requires forall k :: i <= k < j ==> PlainStmt(body[k], locals)
    requires Untouched(body, i + 1, j, x)
    ensures FlowTo(body, j, locals, pb).Get(x) == UintRange(body[i].init, FlowTo(body, i, locals, pb), pb)
    decreases j
  {
    FlowToNext(body, j - 1, locals, pb);
    assert PlainStmt(body[j - 1], locals);
    if i < j - 1 {
      FlowKnown(body, i, j - 1, locals, pb, x);
      assert !Touches(body[j - 1], x);
    }
  }

  // ----- marks of a loop -----

  predicate Occurs(node: Expr, e: Expr) {
    || e == node
    || match e
       case Convert(_, source) => Occurs(node, source)
       case Index(_, _, base, index) => Occurs(node, base) || Occurs(node, index)
       case Binary(_, _, _, _, left, right) => Occurs(node, left) || Occurs(node, right)
       case Logical(_, left, right) => Occurs(node, left) || Occurs(node, right)
       case _ => false
  }

  lemma {:induction false} OccursId(node: Expr, e: Expr)
    requires Occurs(node, e) && (node.Index? || node.Binary?)
    ensures node.id in Ids(e)
  {
    if e != node {
      match e
      case Convert(_, source) => OccursId(node, source);
      case Index(_, _, base, index) =>
        if Occurs(node, base) { OccursId(node, base); } else { OccursId(node, index); }
      case Binary(_, _, _, _, left, right) =>
        if Occurs(node, left) { OccursId(node, left); } else { OccursId(node, right); }
      case Logical(_, left, right) =>
        if Occurs(node, left) { OccursId(node, left); } else { OccursId(node, right); }
    }
  }

  /** The known range of an index lies inside the array. */
  predicate IndexInside(node: Expr, locals: RangeLocals, pb: nat)
    requires node.Index?
  {
    var r := UintRange(node.index, locals, pb);
    TypeOf(node.base).Array? && r.valid && r.max < TypeOf(node.base).length
  }

  /** An array access is marked exactly if the range of its index lies inside the array. */
  lemma {:induction false} BoundsExactly(e: Expr, locals: RangeLocals, pb: nat, node: Expr)
    requires Tree(e) && Pure(e) && Occurs(node, e) && node.Index?
    ensures node.id in BoundsMarks(e, locals, pb) <==> IndexInside(node, locals, pb)
    decreases e, 1
  {
    OccursId(node, e);
    match e
    case Convert(_, source) => BoundsExactly(source, locals, pb, node);
    case Index(_, _, base, index) =>
      BoundsMarksOwn(base, locals, pb);
      BoundsMarksOwn(index, locals, pb);
      if e != node {
        if Occurs(node, base) {
          OccursId(node, base);
          BoundsExactly(base, locals, pb, node);
        } else {
          OccursId(node, index);
          BoundsExactly(index, locals, pb, node);
        }
      }
    case Binary(_, _, _, _, left, right) => EitherExactly(e, locals, pb, node);
    case Logical(_, left, right) => EitherExactly(e, locals, pb, node);
  }

  lemma {:induction false} EitherExactly(e: Expr, locals: RangeLocals, pb: nat, node: Expr)
    requires (e.Binary? || e.Logical?) && Tree(e) && Pure(e) && node.Index? && e != node && Occurs(node, e)
    ensures node.id in BoundsMarks(e.left, locals, pb) + BoundsMarks(e.right, locals, pb) <==> IndexInside(node, locals, pb)
    decreases e, 0
  {
    BoundsMarksOwn(e.left, locals, pb);
    BoundsMarksOwn(e.right, locals, pb);
    if Occurs(node, e.left) {
      OccursId(node, e.left);
      BoundsExactly(e.left, locals, pb, node);
    } else {
      OccursId(node, e.right);
      BoundsExactly(e.right, locals, pb, node);
    }
  }

  predicate Is(r: Range, n: nat) {
    r.exact && r.value == n
  }

  /** A loop that counts a local by ones from `first` while it is below, or at most, `bound`. */
  predicate CountsTo(cond: Expr, body: seq<Stmt>, outer: RangeLocals, pb: nat, first: nat, bound: nat) {
    && SimpleBody(body) && body != [] && Countable(cond, outer) && first <= bound
    && (cond.op.Le? ==> bound < MaxOf(cond.left.typ.it, pb))
    && Is(outer.Get(cond.left.local), first) && Is(UintRange(cond.right, Carried(outer, body), pb), bound)
    && Writes(body, cond.left.local) == 1 && Increments(body[|body| - 1], cond.left.local)
    && Is(UintRange(body[|body| - 1].init.right, Carried(outer, body), pb), 1)
  }

  /** The local has the value in some iteration. */
  predicate TakesValue(cond: Expr, first: nat, bound: nat, v: nat)
    requires cond.Binary? && Comparison(cond.op)
  {
    first <= v && Compare(cond.op, v, bound)
  }

  /** What is known at the start of an iteration: the local is at most the last value for which the condition holds. */
  function Entering(cond: Expr, body: seq<Stmt>, outer: RangeLocals, last: Word64): RangeLocals
    requires Countable(cond, outer)
  {
    Carried(outer, body).Set(cond.left.local, AtMost(last))
  }

  /** The plan of such a loop. */
  lemma PlanOf(cond: Expr, body: seq<Stmt>, outer: RangeLocals, pb: nat, first: nat, bound: nat) returns (last: Word64)
    requires CountsTo(cond, body, outer, pb, first, bound)
    ensures var plan := LoopPlan(cond, body, outer, pb);
            && plan.Plan? && plan.induction == cond.left.local && plan.iterations == Count(first, bound, cond.op.Le?)
            && plan.inside == Entering(cond, body, outer, last)
    ensures if TakesValue(cond, first, bound, first)
            then TakesValue(cond, first, bound, last) && forall v: nat :: TakesValue(cond, first, bound, v) ==> v <= last
            else last == (if bound == 0 then 0 else bound - 1)
  {
    var plan := LoopPlan(cond, body, outer, pb);
    last := if cond.op.Le? then bound else if bound > 0 then bound - 1 else 0;
  }

  /** The marks of one statement are those of its own place in the loop. */
  lemma MarkedHere(cond: Expr, body: seq<Stmt>, outer: RangeLocals, pb: nat, j: nat, id: nat)
    requires LoopPlan(cond, body, outer, pb).Plan? && TreeStmt(For(cond, body)) && j < |body| && id in StmtIds(body[j])
    ensures id in LoopMarks(cond, body, outer, pb) <==> id in MarksAt(body, j, LoopPlan(cond, body, outer, pb), outer, pb)
  {
    var plan := LoopPlan(cond, body, outer, pb);
    MarksLocal(body, |body|, j, plan, outer, pb);
    MarksAtOwn(body, j, plan, outer, pb);
    MarksThere(body, |body|, j, plan, outer, pb);
    var marks := MarksUpTo(body, |body|, plan, outer, pb);
    assert id in marks ==> id in marks * StmtIds(body[j]);
  }

  lemma {:induction false} MarksThere(body: seq<Stmt>, n: nat, j: nat, plan: Plan, outer: RangeLocals, pb: nat)
    requires j < n <= |body| && SimpleBody(body) && plan.Plan?
    requires |plan.inside.values| == |outer.values| && plan.inside.start == outer.start
    ensures MarksAt(body, j, plan, outer, pb) <= MarksUpTo(body, n, plan, outer, pb)
  {
    if j < n - 1 {
      MarksThere(body, n - 1, j, plan, outer, pb);
    }
  }

  /** An array access in a counted loop is marked exactly if what is known there puts its index inside the array. */
  lemma IndexMarked(cond: Expr, body: seq<Stmt>, outer: RangeLocals, pb: nat, first: nat, bound: nat, j: nat, node: Expr) returns (last: Word64)
    requires CountsTo(cond, body, outer, pb, first, bound) && TreeStmt(For(cond, body)) && j < |body|
    requires node.Index? && Occurs(node, body[j].init)
    ensures if TakesValue(cond, first, bound, first)
            then TakesValue(cond, first, bound, last) && forall v: nat :: TakesValue(cond, first, bound, v) ==> v <= last
            else last == (if bound == 0 then 0 else bound - 1)
    ensures node.id in LoopMarks(cond, body, outer, pb) <==>
            IndexInside(node, Inside(body, j, Entering(cond, body, outer, last), pb), pb)
  {
    hide LoopPlan, LoopMarks, MarksUpTo, BoundsMarks, UintRange, CountsTo, Accumulates;
    last := PlanOf(cond, body, outer, pb, first, bound);
    var plan, st := LoopPlan(cond, body, outer, pb), body[j];
    OccursId(node, st.init);
    StatementTree(cond, body, j);
    MarkedHere(cond, body, outer, pb, j, node.id);
    BoundsExactly(st.init, Inside(body, j, plan.inside, pb), pb, node);
    NotTheSum(body, j, Inside(body, j, plan.inside, pb), outer, plan.iterations, pb, node);
  }

  lemma StatementTree(cond: Expr, body: seq<Stmt>, j: nat)
    requires TreeStmt(For(cond, body)) && j < |body| && (body[j].Local? || body[j].Assign?)
    ensures Tree(body[j].init) && StmtIds(body[j]) == Ids(body[j].init)
  {
    assert TreeStmt(body[j]);
  }

  /** The overflow check of an accumulation is another node than an access in it. */
  lemma NotTheSum(body: seq<Stmt>, j: nat, inside: RangeLocals, outer: RangeLocals, iterations: Word64, pb: nat, node: Expr)
    requires j < |body| && (body[j].Local? || body[j].Assign?) && Tree(body[j].init) && Occurs(node, body[j].init) && node.Index?
    requires |inside.values| == |outer.values| && inside.start == outer.start
    ensures Accumulates(body, body[j], inside, outer, iterations, pb) ==> body[j].init.Binary? && body[j].init.id != node.id
  {
    var e := body[j].init;
    if e.Binary? {
      if Occurs(node, e.left) {
        OccursId(node, e.left);
      } else {
        OccursId(node, e.right);
      }
    }
  }

  /**
   An access `a[x]` with the loop's own local, before anything else writes it, is marked if and only
   if every value that the local takes lies inside the array.
   */
  lemma InductionMarked(cond: Expr, body: seq<Stmt>, outer: RangeLocals, pb: nat, first: nat, bound: nat, j: nat, node: Expr)
    requires CountsTo(cond, body, outer, pb, first, bound) && TreeStmt(For(cond, body)) && j < |body|
    requires node.Index? && Occurs(node, body[j].init) && TypeOf(node.base).Array?
    requires node.index.Name? && node.index.local == cond.left.local && Untouched(body, 0, j, cond.left.local)
    requires TakesValue(cond, first, bound, first)
    ensures node.id in LoopMarks(cond, body, outer, pb) <==>
            forall v: nat :: TakesValue(cond, first, bound, v) ==> v < TypeOf(node.base).length
  {
    hide LoopMarks, LoopPlan;
    var last := IndexMarked(cond, body, outer, pb, first, bound, j, node);
    InsideStays(body, 0, j, Entering(cond, body, outer, last), pb, cond.left.local);
  }

  /** For a loop without iterations the source still compares the bound's predecessor, or zero, with the length. */
  lemma EmptyLoopMarked(cond: Expr, body: seq<Stmt>, outer: RangeLocals, pb: nat, bound: nat, j: nat, node: Expr)
    requires CountsTo(cond, body, outer, pb, bound, bound) && TreeStmt(For(cond, body)) && j < |body| && cond.op.Lt?
    requires node.Index? && Occurs(node, body[j].init) && TypeOf(node.base).Array?
    requires node.index.Name? && node.index.local == cond.left.local && Untouched(body, 0, j, cond.left.local)
    ensures node.id in LoopMarks(cond, body, outer, pb) <==> (if bound == 0 then 0 else bound - 1) < TypeOf(node.base).length
  {
    hide LoopMarks, LoopPlan;
    var last := IndexMarked(cond, body, outer, pb, bound, bound, j, node);
    InsideStays(body, 0, j, Entering(cond, body, outer, last), pb, cond.left.local);
  }

  /**
   The overflow check of an accumulation is marked if and only if its initial value and as many
   steps as the loop has iterations, each at its largest, fit the type.
   */
  lemma AccumulationMarked(cond: Expr, body: seq<Stmt>, outer: RangeLocals, pb: nat, first: nat, bound: nat, j: nat) returns (last: Word64)
    requires CountsTo(cond, body, outer, pb, first, bound) && TreeStmt(For(cond, body)) && j < |body|
    requires body[j].Assign? && outer.Has(body[j].target) && Writes(body, body[j].target) == 1 && Increments(body[j], body[j].target)
    requires UnsignedType(body[j].init.typ)
    ensures if TakesValue(cond, first, bound, first)
            then TakesValue(cond, first, bound, last) && forall v: nat :: TakesValue(cond, first, bound, v) ==> v <= last
            else last == (if bound == 0 then 0 else bound - 1)
    ensures var x, e := body[j].target, body[j].init;
            var initial, step := outer.Get(x), UintRange(e.right, Inside(body, j, Entering(cond, body, outer, last), pb).Set(x, UNKNOWN), pb);
            e.id in LoopMarks(cond, body, outer, pb) <==>
            initial.valid && step.valid && initial.max + step.max * Count(first, bound, cond.op.Le?) <= MaxOf(e.typ.it, pb)
  {
    hide LoopPlan, LoopMarks, MarksUpTo, UintRange, CountsTo;
    last := PlanOf(cond, body, outer, pb, first, bound);
    var plan, e := LoopPlan(cond, body, outer, pb), body[j].init;
    StatementTree(cond, body, j);
    MarkedHere(cond, body, outer, pb, j, e.id);
    var inside := Inside(body, j, plan.inside, pb);
    BoundsMarksOwn(e.left, inside, pb);
    BoundsMarksOwn(e.right, inside, pb);
    var step := StepRange(body[j], inside, pb);
    GrowthFits(step.max, plan.iterations, MaxOf(e.typ.it, pb));
    TypeFits(e.typ.it, pb);
  }

  /** A product below a word passes the test by division. */
  lemma GrowthFits(step: nat, iterations: nat, limit: nat)
    requires limit <= WORD_MAX
    ensures step * iterations <= limit ==> iterations == 0 || step <= WORD_MAX / iterations
  {
    WordProduct(iterations, step);
    assert iterations * step == step * iterations;
  }

  lemma TypeFits(t: IntType, pb: nat)
    requires !Signed(t)
    ensures 0 <= MaxOf(t, pb) <= WORD_MAX
  {
  }

  // ----- marks of a function -----

  /** The marks in a loop of a function are those that the loop gets from the ranges in front of it. */
  lemma {:induction false} LoopInFunction(body: seq<Stmt>, i: nat, locals: RangeLocals, pb: nat, id: nat)
    requires i < |body| && body[i].For? && Separate(body) && (forall k :: 0 <= k < |body| ==> TreeStmt(body[k])) && id in StmtIds(body[i])
    ensures id in FunctionMarks(body, locals, pb) <==>
            id in LoopMarks(body[i].cond, body[i].body, FlowTo(body, i, locals, pb), pb)
    decreases i
  {
    hide LoopMarks, Flow;
    var rest := body[1..];
    assert forall k :: 0 <= k < |rest| ==> rest[k] == body[k + 1];
    var next := Flow(body[0], locals, pb);
    if i == 0 {
      FunctionMarksInside(rest, next, pb);
      BlockIdsApart(rest, body[0]);
    } else {
      LoopInFunction(rest, i - 1, next, pb, id);
      if body[0].For? {
        LoopMarksOwn(body[0].cond, body[0].body, locals, pb);
      }
      assert StmtIds(body[0]) !! StmtIds(body[i]);
    }
  }

  lemma {:induction false} FunctionMarksInside(body: seq<Stmt>, locals: RangeLocals, pb: nat)
    requires forall k :: 0 <= k < |body| ==> TreeStmt(body[k])
    ensures FunctionMarks(body, locals, pb) <= BlockIds(body)
  {
    hide LoopMarks, Flow;
    if body != [] {
      assert TreeStmt(body[0]);
      FunctionMarksInside(body[1..], Flow(body[0], locals, pb), pb);
      if body[0].For? {
        LoopMarksOwn(body[0].cond, body[0].body, locals, pb);
      }
    }
  }

  lemma {:induction false} BlockIdsApart(sts: seq<Stmt>, st: Stmt)
    requires forall k :: 0 <= k < |sts| ==> StmtIds(st) !! StmtIds(sts[k])
    ensures StmtIds(st) !! BlockIds(sts)
  {
    if sts != [] {
      BlockIdsApart(sts[1..], st);
    }
  }

  predicate Between(a: nat, v: nat, b: nat) {
    a <= v < b
  }

  /**
   The usual loop, from literal to literal: `x = a; while x < b { ... array[x] ...; x = x + 1 }`.
   Its accesses with `x` lose their check if and only if all of `a .. b` lie inside the array.
   */
  lemma LiteralLoop(body: seq<Stmt>, i: nat, start: nat, count: nat, pb: nat, t: Type, a: Word64, b: Word64, j: nat, node: Expr)
    requires 0 < i < |body| && Separate(body) && (forall k :: 0 <= k < |body| ==> TreeStmt(body[k])) && body[i].For? && a < b
    requires UnsignedType(t) && b <= MaxOf(t.it, pb) && (body[i - 1].Local? || body[i - 1].Assign?)
    requires var x, loop := body[i - 1].target, body[i].body;
             && body[i - 1].init == Literal(t, a) && start <= x < start + count
             && body[i].cond.Binary? && body[i].cond.op.Lt? && body[i].cond.left == Name(t, x) && body[i].cond.right == Literal(t, b)
             && SimpleBody(loop) && |loop| > 0 && Untouched(loop, 0, |loop| - 1, x) && Increments(loop[|loop| - 1], x)
             && loop[|loop| - 1].init.right == Literal(t, 1)
             && j < |loop| && node.Index? && Occurs(node, loop[j].init) && TypeOf(node.base).Array? && node.index == Name(t, x)
    ensures node.id in FunctionMarks(body, RangeLocals(start, seq(count, _ => UNKNOWN)), pb) <==>
            forall v: nat :: Between(a, v, b) ==> v < TypeOf(node.base).length
  {
    hide FunctionMarks, LoopMarks, UintRange, CountsTo, FlowTo, Writes, Increments, Pure;
    var locals := RangeLocals(start, seq(count, _ => UNKNOWN));
    var x, cond, loop, outer := body[i - 1].target, body[i].cond, body[i].body, FlowTo(body, i, locals, pb);
    KnownStart(body, i, locals, pb, t, a);
    LiteralCounts(cond, loop, outer, pb, t, x, a, b);
    assert TreeStmt(body[i]) && TreeStmt(loop[j]);
    assert body[i] == For(cond, loop);
    OccursId(node, loop[j].init);
    BlockIdsMember(loop, j);
    LoopInFunction(body, i, locals, pb, node.id);
    InductionMarked(cond, loop, outer, pb, a, b, j, node);
    assert forall v: nat :: TakesValue(cond, a, b, v) <==> Between(a, v, b);
  }

  lemma KnownStart(body: seq<Stmt>, i: nat, locals: RangeLocals, pb: nat, t: Type, a: Word64)
    requires 0 < i <= |body| && (body[i - 1].Local? || body[i - 1].Assign?) && body[i - 1].init == Literal(t, a) && locals.Has(body[i - 1].target)
    ensures FlowTo(body, i, locals, pb).Has(body[i - 1].target) && FlowTo(body, i, locals, pb).Get(body[i - 1].target) == Exactly(a)
  {
    FlowKnown(body, i - 1, i, locals, pb, body[i - 1].target);
  }

  lemma LiteralCounts(cond: Expr, loop: seq<Stmt>, outer: RangeLocals, pb: nat, t: Type, x: nat, a: Word64, b: Word64)
    requires UnsignedType(t) && a <= b && outer.Has(x) && outer.Get(x) == Exactly(a)
    requires cond.Binary? && cond.op.Lt? && cond.left == Name(t, x) && cond.right == Literal(t, b)
    requires SimpleBody(loop) && |loop| > 0 && Untouched(loop, 0, |loop| - 1, x) && Increments(loop[|loop| - 1], x)
    requires loop[|loop| - 1].init.right == Literal(t, 1)
    ensures CountsTo(cond, loop, outer, pb, a, b)
  {
    hide Carried, Pure;
    OneIncrement(loop, x);
  }

  lemma {:induction false} OneIncrement(body: seq<Stmt>, x: nat)
    requires |body| > 0 && Untouched(body, 0, |body| - 1, x) && body[|body| - 1].Assign? && body[|body| - 1].target == x
    ensures Writes(body, x) == 1
  {
    if |body| == 1 {
      assert body[1..] == [];
    } else {
      assert forall k :: 0 <= k < |body| - 1 ==> body[1..][k] == body[k + 1];
      assert !Touches(body[0], x);
      OneIncrement(body[1..], x);
    }
  }
}
