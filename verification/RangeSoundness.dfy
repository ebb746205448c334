/**
 Leaving out every check the range prover marks changes no run of a function.
 */
module RangeSoundness {
  import opened Integers
  import opened Nonlinear
  import opened RangeIr
  import opened RangeProver

  /** The value obeys the range. */
  predicate Fits(v: Value, r: Range) {
    && (r.valid ==> v.Num? && 0 <= v.n <= r.max)
    && (r.exact ==> v == Num(r.value))
  }

  predicate Holds(ranges: RangeLocals, s: Store) {
    forall x: nat :: ranges.Has(x) && x in s.locals ==> Fits(s.locals[x], ranges.Get(x))
  }

  // ----- values stay within their types -----

  lemma {:induction false} EvalConforms(e: Expr, s: Store, c: Context, proven: set<nat>)
    ensures var r := Eval(e, s, c, proven); r.Ok? ==> Conforms(r.value, TypeOf(e), c.pointerBytes)
    decreases e
  {
    match e
    case Binary(id, t, op, wrap, left, right) =>
      EvalConforms(left, s, c, proven);
      var l := Eval(left, s, c, proven);
      if l.Ok? {
        EvalConforms(right, l.store, c, proven);
        var r := Eval(right, l.store, c, proven);
        if Eval(e, s, c, proven).Ok? {
          ApplyInRange(op, TypeOf(left).it, c.pointerBytes, l.value.n, r.value.n, wrap || id in proven);
        }
      }
    case Logical(op, left, right) =>
      EvalConforms(left, s, c, proven);
      var l := Eval(left, s, c, proven);
      if l.Ok? {
        EvalConforms(right, l.store, c, proven);
      }
    case _ =>
  }

  /** A pure expression leaves the store alone. */
  lemma {:induction false} PureKeepsStore(e: Expr, s: Store, c: Context, proven: set<nat>)
    requires Pure(e)
    ensures var r := Eval(e, s, c, proven); r.Ok? ==> r.store == s
  {
    match e
    case Convert(_, source) =>
      PureKeepsStore(source, s, c, proven);
    case Index(_, _, base, index) =>
      PureKeepsStore(index, s, c, proven);
      PureKeepsStore(base, s, c, proven);
    case Binary(_, _, _, _, left, right) =>
      PureKeepsStore(left, s, c, proven);
      PureKeepsStore(right, s, c, proven);
    case Logical(_, left, right) =>
      PureKeepsStore(left, s, c, proven);
      PureKeepsStore(right, s, c, proven);
    case _ =>
  }

  // ----- soundness of ranges -----

  /** Conjunction of two values bounded by their ranges. */
  lemma AndFits(t: IntType, pb: nat, a: int, b: int, left: Range, right: Range)
    requires left.valid && right.valid && Fits(Num(a), left) && Fits(Num(b), right)
    requires InRange(t, pb, a) && InRange(t, pb, b)
    ensures Fits(Num(Apply(BitAnd, t, pb, a, b, false).n), AndRange(left, right))
  {
    PatternOfValue(t, pb, a);
    PatternOfValue(t, pb, b);
    assert Pattern(t, pb, a) == a && Pattern(t, pb, b) == b;
    var n := Bitwise(BitAnd, a, b);
    assert InRange(t, pb, n);
  }

  lemma {:induction false} ExactIsPure(e: Expr, ranges: RangeLocals, pb: nat)
    requires UintRange(e, ranges, pb).exact
    ensures Pure(e)
  {
    match e
    case Convert(_, source) =>
      ExactIsPure(source, ranges, pb);
    case Binary(_, _, _, _, left, right) =>
      ExactIsPure(left, ranges, pb);
      ExactIsPure(right, ranges, pb);
    case _ =>
  }

  /** Whatever a pure expression evaluates to obeys the range computed for it. */
  lemma {:induction false} RangeSound(e: Expr, s: Store, c: Context, ranges: RangeLocals)
    requires Pure(e) && Holds(ranges, s)
    ensures var r := Eval(e, s, c, {});
            r.Ok? ==> Fits(r.value, UintRange(e, ranges, c.pointerBytes))
  {
    hide Apply, Wrap, AndRange, AddRange, MulRange;
    EvalConforms(e, s, c, {});
    match e
    case Convert(t, source) =>
      RangeSound(source, s, c, ranges);
      if Eval(e, s, c, {}).Ok? && UnsignedType(t) {
        ConvertFits(t, c.pointerBytes, Eval(source, s, c, {}).value.n, UintRange(source, ranges, c.pointerBytes));
      }
    case Binary(id, t, op, wrap, left, right) =>
      RangeSound(left, s, c, ranges);
      PureKeepsStore(left, s, c, {});
      RangeSound(right, s, c, ranges);
      EvalConforms(left, s, c, {});
      EvalConforms(right, s, c, {});
      if Eval(e, s, c, {}).Ok? && UintRange(e, ranges, c.pointerBytes) != UNKNOWN {
        var l, r := UintRange(left, ranges, c.pointerBytes), UintRange(right, ranges, c.pointerBytes);
        BinaryFits(op, TypeOf(left).it, c.pointerBytes, Eval(left, s, c, {}).value.n, Eval(right, s, c, {}).value.n, l, r);
      }
    case _ =>
  }

  lemma ConvertFits(t: Type, pb: nat, n: int, from: Range)
    requires UnsignedType(t) && Fits(Num(n), from)
    ensures var limit := UnsignedMax(t, pb);
            Fits(Num(Wrap(t.it, pb, n)), if !from.valid || from.max > limit then AtMost(limit) else from)
  {
    hide Wrap;
  }

  lemma BinaryFits(op: Op, t: IntType, pb: nat, a: int, b: int, l: Range, r: Range)
    requires l.valid && r.valid && Fits(Num(a), l) && Fits(Num(b), r)
    requires InRange(t, pb, a) && InRange(t, pb, b)
    requires Apply(op, t, pb, a, b, false).Value?
    ensures var v := Num(Apply(op, t, pb, a, b, false).n);
            && (op.BitAnd? ==> Fits(v, AndRange(l, r)))
            && (op.Add? && WORD_MAX - l.max >= r.max ==> Fits(v, AddRange(l, r)))
            && (op.Mul? && (l.max == 0 || r.max <= WORD_MAX / l.max) ==> Fits(v, MulRange(l, r)))
  {
    hide Wrap, Bitwise, Pattern, AndRange, TruncDiv, TruncRem, Pow2;
    if op.BitAnd? {
      AndFits(t, pb, a, b, l, r);
    } else if op.Mul? && (l.max == 0 || r.max <= WORD_MAX / l.max) {
      MulFits(a, b, l, r);
    }
  }

  lemma MulFits(a: nat, b: nat, l: Range, r: Range)
    requires l.valid && r.valid && Fits(Num(a), l) && Fits(Num(b), r)
    requires l.max == 0 || r.max <= WORD_MAX / l.max
    ensures Fits(Num(a * b), MulRange(l, r))
  {
    Monotone(a, b, l.max, r.max);
  }

  // ----- marks that do not matter -----

  /** Only the flags of an expression's own nodes influence it. */
  lemma {:induction false} OtherMarks(e: Expr, s: Store, c: Context, a: set<nat>, b: set<nat>)
    requires a * Ids(e) == b * Ids(e)
    ensures Eval(e, s, c, a) == Eval(e, s, c, b)
    decreases e, 0
  {
    assert forall id :: id in Ids(e) ==> (id in a <==> id in a * Ids(e)) && (id in b <==> id in b * Ids(e));
    match e
    case Convert(_, source) =>
      OtherMarks(source, s, c, a, b);
    case Index(id, _, base, index) =>
      assert a * Ids(index) == b * Ids(index) && a * Ids(base) == b * Ids(base) && id in Ids(e);
      OtherMarks(index, s, c, a, b);
      var i := Eval(index, s, c, a);
      if i.Ok? { OtherMarks(base, i.store, c, a, b); }
    case Binary(id, _, _, _, left, right) =>
      assert a * Ids(left) == b * Ids(left) && a * Ids(right) == b * Ids(right) && id in Ids(e);
      OtherMarks(left, s, c, a, b);
      var l := Eval(left, s, c, a);
      if l.Ok? { OtherMarks(right, l.store, c, a, b); }
    case Logical(_, left, right) =>
      assert a * Ids(left) == b * Ids(left) && a * Ids(right) == b * Ids(right);
      OtherMarks(left, s, c, a, b);
      var l := Eval(left, s, c, a);
      if l.Ok? { OtherMarks(right, l.store, c, a, b); }
    case Call(_, _, args) =>
      OtherMarksAll(args, s, c, a, b);
    case _ =>
  }

  lemma {:induction false} OtherMarksAll(es: seq<Expr>, s: Store, c: Context, a: set<nat>, b: set<nat>)
    requires a * IdsAll(es) == b * IdsAll(es)
    ensures EvalAll(es, s, c, a) == EvalAll(es, s, c, b)
    decreases es, 1
  {
    if es != [] {
      assert forall id :: id in IdsAll(es) ==> (id in a <==> id in a * IdsAll(es)) && (id in b <==> id in b * IdsAll(es));
      assert a * Ids(es[0]) == b * Ids(es[0]) && a * IdsAll(es[1..]) == b * IdsAll(es[1..]);
      OtherMarks(es[0], s, c, a, b);
      var r := Eval(es[0], s, c, a);
      if r.Ok? { OtherMarksAll(es[1..], r.store, c, a, b); }
    }
  }

  lemma {:induction false} OtherMarksStmt(st: Stmt, s: Store, c: Context, proven: set<nat>, fuel: nat)
    requires proven !! StmtIds(st)
    ensures Exec(st, s, c, proven, fuel) == Exec(st, s, c, {}, fuel)
    decreases fuel, st, 0
  {
    match st
    case Local(_, e) => OtherMarks(e, s, c, proven, {});
    case Assign(_, e) => OtherMarks(e, s, c, proven, {});
    case If(cond, thn, els) =>
      OtherMarks(cond, s, c, proven, {});
      var r := Eval(cond, s, c, proven);
      if r.Ok? {
        OtherMarksBlock(thn, r.store, c, proven, fuel);
        OtherMarksBlock(els, r.store, c, proven, fuel);
      }
    case For(cond, body) =>
      if fuel > 0 {
        OtherMarks(cond, s, c, proven, {});
        var r := Eval(cond, s, c, proven);
        if r.Ok? {
          OtherMarksBlock(body, r.store, c, proven, fuel);
          var o := ExecAll(body, r.store, c, proven, fuel);
          if o.Next? || o.Continued? { OtherMarksStmt(st, o.store, c, proven, fuel - 1); }
        }
      }
    case Return(e) => OtherMarks(e, s, c, proven, {});
    case Other(_, operands) => OtherMarksAll(operands, s, c, proven, {});
    case _ =>
  }

  lemma {:induction false} OtherMarksBlock(sts: seq<Stmt>, s: Store, c: Context, proven: set<nat>, fuel: nat)
    requires proven !! BlockIds(sts)
    ensures ExecAll(sts, s, c, proven, fuel) == ExecAll(sts, s, c, {}, fuel)
    decreases fuel, sts, 1
  {
    if sts != [] {
      OtherMarksStmt(sts[0], s, c, proven, fuel);
      var o := Exec(sts[0], s, c, proven, fuel);
      if o.Next? { OtherMarksBlock(sts[1..], o.store, c, proven, fuel); }
    }
  }

  // ----- bounds checks -----

  lemma {:induction false} BoundsMarksOwn(e: Expr, ranges: RangeLocals, pb: nat)
    requires Pure(e)
    ensures BoundsMarks(e, ranges, pb) <= Ids(e)
  {
    match e
    case Convert(_, source) => BoundsMarksOwn(source, ranges, pb);
    case Index(_, _, base, index) =>
      BoundsMarksOwn(base, ranges, pb);
      BoundsMarksOwn(index, ranges, pb);
    case Binary(_, _, _, _, left, right) =>
      BoundsMarksOwn(left, ranges, pb);
      BoundsMarksOwn(right, ranges, pb);
    case Logical(_, left, right) =>
      BoundsMarksOwn(left, ranges, pb);
      BoundsMarksOwn(right, ranges, pb);
    case _ =>
  }

  /** A marked index is inside the array, so that leaving its check out changes nothing. */
  lemma IndexElision(e: Expr, s: Store, c: Context, ranges: RangeLocals, proven: set<nat>)
    requires e.Index? && Pure(e) && Tree(e) && Holds(ranges, s)
    requires e.id in proven ==> e.id in BoundsMarks(e, ranges, c.pointerBytes)
    requires Eval(e.index, s, c, proven) == Eval(e.index, s, c, {}) && Eval(e.base, s, c, proven) == Eval(e.base, s, c, {})
    ensures Eval(e, s, c, proven) == Eval(e, s, c, {})
  {
    hide Apply, Wrap, Pattern, Pow2, Bitwise, MinOf, MaxOf;
    BoundsMarksOwn(e.base, ranges, c.pointerBytes);
    BoundsMarksOwn(e.index, ranges, c.pointerBytes);
    PureKeepsStore(e.index, s, c, {});
    if e.id in proven {
      RangeSound(e.index, s, c, ranges);
      EvalConforms(e.base, s, c, {});
    }
  }

  /** Bounds checks marked under ranges that hold would have passed. */
  lemma {:induction false} BoundsElision(e: Expr, s: Store, c: Context, ranges: RangeLocals, proven: set<nat>)
    requires Pure(e) && Tree(e) && Holds(ranges, s)
    requires proven * Ids(e) <= BoundsMarks(e, ranges, c.pointerBytes)
    ensures Eval(e, s, c, proven) == Eval(e, s, c, {})
  {
    hide Apply, Wrap, Pattern, Pow2, Bitwise, MinOf, MaxOf;
    var pb := c.pointerBytes;
    assert forall id :: id in proven && id in Ids(e) ==> id in proven * Ids(e);
    match e
    case Convert(_, source) =>
      BoundsElision(source, s, c, ranges, proven);
    case Index(id, t, base, index) =>
      BoundsMarksOwn(base, ranges, pb);
      BoundsMarksOwn(index, ranges, pb);
      assert proven * Ids(base) <= BoundsMarks(base, ranges, pb);
      assert proven * Ids(index) <= BoundsMarks(index, ranges, pb);
      BoundsElision(index, s, c, ranges, proven);
      BoundsElision(base, s, c, ranges, proven);
      IndexElision(e, s, c, ranges, proven);
    case Binary(id, _, _, _, left, right) =>
      BoundsMarksOwn(left, ranges, pb);
      BoundsMarksOwn(right, ranges, pb);
      assert proven * Ids(left) <= BoundsMarks(left, ranges, pb);
      assert proven * Ids(right) <= BoundsMarks(right, ranges, pb);
      BoundsElision(left, s, c, ranges, proven);
      BoundsElision(right, s, c, ranges, proven);
      PureKeepsStore(left, s, c, {});
      assert id in Ids(e) && id !in BoundsMarks(e, ranges, pb);
    case Logical(_, left, right) =>
      BoundsMarksOwn(left, ranges, pb);
      BoundsMarksOwn(right, ranges, pb);
      assert proven * Ids(left) <= BoundsMarks(left, ranges, pb);
      assert proven * Ids(right) <= BoundsMarks(right, ranges, pb);
      BoundsElision(left, s, c, ranges, proven);
      BoundsElision(right, s, c, ranges, proven);
      PureKeepsStore(left, s, c, {});
    case _ =>
  }

  // ----- one iteration of a counted loop -----

  predicate Known(r: Range) {
    r.valid || r.exact
  }

  /** Facts about a counted loop that the lemmas below share. */
  predicate Counted(cond: Expr, body: seq<Stmt>, outer: RangeLocals, pb: nat, plan: Plan) {
    && plan == LoopPlan(cond, body, outer, pb) && plan.Plan?
    && TreeStmt(For(cond, body))
    && outer.start + |outer.values| <= NO_LOCAL
    && (forall j :: 0 <= j < |body| && body[j].Local? && outer.Has(body[j].target) ==> !Known(outer.Get(body[j].target)))
  }

  /** Statement `i` is an accumulation proved not to overflow. */
  predicate Proved(body: seq<Stmt>, i: nat, plan: Plan, outer: RangeLocals, pb: nat)
    requires i < |body| && plan.Plan?
    requires |plan.inside.values| == |outer.values| && plan.inside.start == outer.start
  {
    Accumulates(body, body[i], Inside(body, i, plan.inside, pb), outer, plan.iterations, pb)
  }

  /** Bound on the accumulator of statement `i` after `k` accumulations. */
  function Cap(body: seq<Stmt>, i: nat, plan: Plan, outer: RangeLocals, pb: nat, k: nat): int
    requires i < |body| && plan.Plan?
    requires |plan.inside.values| == |outer.values| && plan.inside.start == outer.start
    requires Proved(body, i, plan, outer, pb)
  {
    outer.Get(body[i].target).max + StepRange(body[i], Inside(body, i, plan.inside, pb), pb).max * k
  }

  /** In iteration `k`, before statement `j`: accumulators are within their caps. */
  predicate Accumulated(body: seq<Stmt>, j: nat, plan: Plan, outer: RangeLocals, pb: nat, k: nat, s: Store)
    requires plan.Plan?
    requires |plan.inside.values| == |outer.values| && plan.inside.start == outer.start
  {
    forall i :: 0 <= i < |body| && Proved(body, i, plan, outer, pb) && body[i].target in s.locals ==>
      var v := s.locals[body[i].target];
      v.Num? && 0 <= v.n <= Cap(body, i, plan, outer, pb, if i < j then k + 1 else k)
  }

  predicate InductionIs(plan: Plan, n: nat, s: Store)
    requires plan.Plan?
  {
    plan.induction in s.locals ==> s.locals[plan.induction] == Num(n)
  }

  predicate BodyInv(body: seq<Stmt>, j: nat, plan: Plan, outer: RangeLocals, pb: nat, k: nat, s: Store)
    requires plan.Plan? && j <= |body|
    requires |plan.inside.values| == |outer.values| && plan.inside.start == outer.start
  {
    && Holds(Inside(body, j, plan.inside, pb), s)
    && InductionIs(plan, plan.start.value + k + (if j == |body| then 1 else 0), s)
    && Accumulated(body, j, plan, outer, pb, k, s)
  }

  /** A local assigned once is assigned at one place. */
  lemma {:induction false} OneWrite(body: seq<Stmt>, i: nat, j: nat, x: nat)
    requires i < |body| && j < |body| && Writes(body, x) == 1
    requires body[i].Assign? && body[i].target == x && body[j].Assign? && body[j].target == x
    ensures i == j
  {
    if i > 0 && j > 0 {
      SomeWrite(body[1..], i - 1, x);
      OneWrite(body[1..], i - 1, j - 1, x);
    } else if i != j {
      SomeWrite(body[1..], if i == 0 then j - 1 else i - 1, x);
    }
  }

  lemma {:induction false} SomeWrite(body: seq<Stmt>, i: nat, x: nat)
    requires i < |body| && body[i].Assign? && body[i].target == x
    ensures Writes(body, x) > 0
  {
    if i > 0 {
      SomeWrite(body[1..], i - 1, x);
    }
  }

  lemma {:induction false} BlockIdsMember(sts: seq<Stmt>, i: nat)
    requires i < |sts|
    ensures StmtIds(sts[i]) <= BlockIds(sts)
  {
    if i > 0 {
      BlockIdsMember(sts[1..], i - 1);
    }
  }

  lemma MarksAtOwn(body: seq<Stmt>, j: nat, plan: Plan, outer: RangeLocals, pb: nat)
    requires j < |body| && SimpleBody(body) && plan.Plan?
    requires |plan.inside.values| == |outer.values| && plan.inside.start == outer.start
    ensures MarksAt(body, j, plan, outer, pb) <= StmtIds(body[j])
  {
    BoundsMarksOwn(body[j].init, Inside(body, j, plan.inside, pb), pb);
  }

  /** A loop's marks restricted to one of its statements were raised at that statement. */
  lemma {:induction false} MarksLocal(body: seq<Stmt>, n: nat, j: nat, plan: Plan, outer: RangeLocals, pb: nat)
    requires j < |body| && n <= |body| && SimpleBody(body) && plan.Plan? && Separate(body)
    requires |plan.inside.values| == |outer.values| && plan.inside.start == outer.start
    ensures MarksUpTo(body, n, plan, outer, pb) * StmtIds(body[j]) <= MarksAt(body, j, plan, outer, pb)
    ensures MarksUpTo(body, n, plan, outer, pb) <= BlockIds(body)
  {
    if n > 0 {
      MarksLocal(body, n - 1, j, plan, outer, pb);
      MarksAtOwn(body, n - 1, plan, outer, pb);
      BlockIdsMember(body, n - 1);
      if n - 1 < j {
        assert StmtIds(body[n - 1]) !! StmtIds(body[j]);
      } else if j < n - 1 {
        assert StmtIds(body[j]) !! StmtIds(body[n - 1]);
      }
    }
  }

  /** Facts about locals the body never touches survive it. */
  lemma {:induction false} InsideCarried(cond: Expr, body: seq<Stmt>, j: nat, plan: Plan, outer: RangeLocals, pb: nat, s: Store)
    requires plan == LoopPlan(cond, body, outer, pb) && plan.Plan? && j <= |body|
    requires Holds(Inside(body, j, plan.inside, pb), s)
    ensures Holds(Carried(outer, body), s)
  {
    var carried, inside := Carried(outer, body), Inside(body, j, plan.inside, pb);
    forall x: nat | carried.Has(x) && x in s.locals
      ensures Fits(s.locals[x], carried.Get(x))
    {
      if !Touched(body, x) {
        assert Touches(body[|body| - 1], plan.induction);
        InsideUntouched(body, j, plan.inside, pb, x);
        assert Fits(s.locals[x], inside.Get(x));
      }
    }
  }

  lemma {:induction false} InsideUntouched(body: seq<Stmt>, j: nat, inside: RangeLocals, pb: nat, x: nat)
    requires j <= |body| && inside.Has(x) && !Touched(body, x)
    ensures Inside(body, j, inside, pb).Get(x) == inside.Get(x)
  {
    if j > 0 {
      InsideUntouched(body, j - 1, inside, pb, x);
      assert !Touches(body[j - 1], x);
    }
  }

  /** Updating one local keeps the ranges of the others. */
  lemma HoldsUpdate(ranges: RangeLocals, s: Store, x: nat, v: Value, r: Range)
    requires Holds(ranges, s) && ranges.start + |ranges.values| <= NO_LOCAL
    requires ranges.Has(x) ==> Fits(v, r)
    ensures Holds(if ranges.Has(x) then ranges.Set(x, r) else ranges, SetLocal(s, x, v))
  {
  }

  lemma StepBound(st: Stmt, inside: RangeLocals, c: Context, s: Store)
    requires st.Assign? && inside.Has(st.target) && st.init.Binary? && Pure(st.init.right) && Holds(inside, s)
    requires StepRange(st, inside, c.pointerBytes).valid
    ensures var r := Eval(st.init.right, s, c, {});
            r.Ok? ==> r.value.Num? && 0 <= r.value.n <= StepRange(st, inside, c.pointerBytes).max
  {
    var forgotten := inside.Set(st.target, UNKNOWN);
    forall x: nat | forgotten.Has(x) && x in s.locals
      ensures Fits(s.locals[x], forgotten.Get(x))
    {
      assert Fits(s.locals[x], inside.Get(x));
    }
    RangeSound(st.init.right, s, c, forgotten);
  }

  lemma CapStep(initial: nat, step: nat, k: nat, iterations: nat, limit: nat)
    requires k < iterations && initial <= limit && step * iterations <= limit - initial
    ensures initial + step * (k + 1) == initial + step * k + step <= limit
  {
    Monotone(step, k + 1, step, iterations);
  }

  /** The sum of a proved accumulation stays below its cap, which the type can represent. */
  lemma SumFits(body: seq<Stmt>, j: nat, plan: Plan, outer: RangeLocals, c: Context, k: nat, s: Store)
    requires j < |body| && plan.Plan? && k < plan.iterations && SimpleBody(body)
    requires |plan.inside.values| == |outer.values| && plan.inside.start == outer.start
    requires Proved(body, j, plan, outer, c.pointerBytes)
    requires Holds(Inside(body, j, plan.inside, c.pointerBytes), s)
    requires Accumulated(body, j, plan, outer, c.pointerBytes, k, s)
    requires Eval(body[j].init.left, s, c, {}).Ok? && Eval(body[j].init.right, s, c, {}).Ok?
    ensures var l, r := Eval(body[j].init.left, s, c, {}).value, Eval(body[j].init.right, s, c, {}).value;
            && l.Num? && l.n >= 0 && r.Num? && r.n >= 0
            && l.n + r.n <= Cap(body, j, plan, outer, c.pointerBytes, k + 1)
    ensures Cap(body, j, plan, outer, c.pointerBytes, k + 1) <= MaxOf(body[j].init.typ.it, c.pointerBytes)
  {
    var pb, st := c.pointerBytes, body[j];
    var inside := Inside(body, j, plan.inside, pb);
    StepBound(st, inside, c, s);
    CapStep(outer.Get(st.target).max, StepRange(st, inside, pb).max, k, plan.iterations, UnsignedMax(st.init.typ, pb));
    assert Cap(body, j, plan, outer, pb, k + 1) == Cap(body, j, plan, outer, pb, k) + StepRange(st, inside, pb).max;
  }

  /** An unsigned addition whose sum is representable does not depend on its overflow check. */
  lemma PlainAddition(e: Expr, s: Store, c: Context, proven: set<nat>)
    requires e.Binary? && e.op.Add? && UnsignedType(e.typ)
    requires Eval(e.left, s, c, proven) == Eval(e.left, s, c, {})
    requires var l := Eval(e.left, s, c, {}); l.Ok? ==>
               && l.store == s && Eval(e.right, s, c, proven) == Eval(e.right, s, c, {})
               && var r := Eval(e.right, s, c, {}); r.Ok? ==>
                 && l.value.Num? && r.value.Num? && l.value.n >= 0 && r.value.n >= 0
                 && l.value.n + r.value.n <= MaxOf(e.typ.it, c.pointerBytes)
    ensures Eval(e, s, c, proven) == Eval(e, s, c, {})
    ensures var r := Eval(e, s, c, {});
            r.Ok? ==> r.value == Num(Eval(e.left, s, c, {}).value.n + Eval(e.right, s, c, {}).value.n)
  {
  }

  /** One statement of a counted loop runs the same with its marked checks left out. */
  lemma StatementElision(cond: Expr, body: seq<Stmt>, j: nat, outer: RangeLocals, c: Context, plan: Plan,
                         proven: set<nat>, k: nat, s: Store)
    requires Counted(cond, body, outer, c.pointerBytes, plan) && j < |body| && k < plan.iterations
    requires proven * StmtIds(body[j]) <= MarksAt(body, j, plan, outer, c.pointerBytes)
    requires BodyInv(body, j, plan, outer, c.pointerBytes, k, s)
    ensures Eval(body[j].init, s, c, proven) == Eval(body[j].init, s, c, {})
  {
    var pb, e := c.pointerBytes, body[j].init;
    var inside := Inside(body, j, plan.inside, pb);
    assert TreeStmt(body[j]);
    if !Proved(body, j, plan, outer, pb) {
      BoundsElision(e, s, c, inside, proven);
    } else {
      assert forall id :: id in proven && id in Ids(e.right) ==> id in proven * StmtIds(body[j]);
      assert proven * Ids(e.right) <= BoundsMarks(e.right, inside, pb);
      BoundsElision(e.right, s, c, inside, proven);
      if Eval(e.left, s, c, {}).Ok? && Eval(e.right, s, c, {}).Ok? {
        SumFits(body, j, plan, outer, c, k, s);
      }
      PlainAddition(e, s, c, proven);
    }
  }

  /** What evaluating a statement's expression yields, for the invariant. */
  lemma StatementInv(cond: Expr, body: seq<Stmt>, j: nat, outer: RangeLocals, c: Context, plan: Plan, k: nat, s: Store)
    requires Counted(cond, body, outer, c.pointerBytes, plan) && j < |body| && k < plan.iterations
    requires plan.induction in c.types && c.types[plan.induction] == cond.left.typ
    requires plan.start.value + k + 1 <= MaxOf(cond.left.typ.it, c.pointerBytes)
    requires BodyInv(body, j, plan, outer, c.pointerBytes, k, s)
    requires Eval(body[j].init, s, c, {}).Ok?
    ensures BodyInv(body, j + 1, plan, outer, c.pointerBytes, k, SetLocal(s, body[j].target, Eval(body[j].init, s, c, {}).value))
  {
    hide Apply, Wrap, Pattern, Pow2, Bitwise, Eval, UintRange;
    var pb, st := c.pointerBytes, body[j];
    var v := Eval(st.init, s, c, {}).value;
    var s1 := SetLocal(s, st.target, v);
    var inside := Inside(body, j, plan.inside, pb);
    RangeSound(st.init, s, c, inside);
    HoldsUpdate(inside, s, st.target, v, if st.Local? then UintRange(st.init, inside, pb) else UNKNOWN);
    assert Holds(Inside(body, j + 1, plan.inside, pb), s1);
    InductionTarget(cond, body, j, outer, pb, plan);
    if j == |body| - 1 {
      InsideCarried(cond, body, j, plan, outer, pb, s);
      IncrementValue(cond, body, outer, c, plan, k, s);
    }
    assert InductionIs(plan, plan.start.value + k + (if j + 1 == |body| then 1 else 0), s1);
    AccumulationStep(cond, body, j, outer, c, plan, k, s);
  }

  /** What the prover has established about a loop it accepts. */
  lemma PlanFacts(cond: Expr, body: seq<Stmt>, outer: RangeLocals, pb: nat, plan: Plan)
    requires plan == LoopPlan(cond, body, outer, pb) && plan.Plan?
    ensures plan.induction == cond.left.local && plan.start == outer.Get(plan.induction) && plan.start.exact
    ensures plan.bound == UintRange(cond.right, Carried(outer, body), pb) && plan.bound.exact
    ensures plan.inclusive == cond.op.Le?
    ensures plan.inclusive ==> plan.bound.value < UnsignedMax(cond.left.typ, pb)
    ensures plan.iterations == plan.bound.value - plan.start.value + (if plan.inclusive then 1 else 0)
    ensures Writes(body, plan.induction) == 1 && Increments(body[|body| - 1], plan.induction)
    ensures var one := UintRange(body[|body| - 1].init.right, Carried(outer, body), pb); one.exact && one.value == 1
  {
  }

  /** The increment that ends a loop body adds one to the induction variable. */
  lemma IncrementValue(cond: Expr, body: seq<Stmt>, outer: RangeLocals, c: Context, plan: Plan, k: nat, s: Store)
    requires Counted(cond, body, outer, c.pointerBytes, plan)
    requires plan.induction in c.types && c.types[plan.induction] == cond.left.typ
    requires plan.start.value + k + 1 <= MaxOf(cond.left.typ.it, c.pointerBytes)
    requires Holds(Carried(outer, body), s) && InductionIs(plan, plan.start.value + k, s)
    requires Eval(body[|body| - 1].init, s, c, {}).Ok?
    ensures Eval(body[|body| - 1].init, s, c, {}).value == Num(plan.start.value + k + 1)
  {
    var e := body[|body| - 1].init;
    PlanFacts(cond, body, outer, c.pointerBytes, plan);
    RangeSound(e.right, s, c, Carried(outer, body));
    var l, r := Eval(e.left, s, c, {}), Eval(e.right, s, c, {});
    assert l == Ok(Num(plan.start.value + k), s) && r.value == Num(1);
    PlainAddition(e, s, c, {});
  }

  /** Only the last statement writes the induction variable. */
  lemma InductionTarget(cond: Expr, body: seq<Stmt>, j: nat, outer: RangeLocals, pb: nat, plan: Plan)
    requires Counted(cond, body, outer, pb, plan) && j < |body|
    ensures body[j].target == plan.induction <==> j == |body| - 1
  {
    PlanFacts(cond, body, outer, pb, plan);
    if body[j].target == plan.induction {
      assert Known(outer.Get(body[j].target));
      OneWrite(body, j, |body| - 1, plan.induction);
    }
  }

  lemma AccumulationStep(cond: Expr, body: seq<Stmt>, j: nat, outer: RangeLocals, c: Context, plan: Plan, k: nat, s: Store)
    requires Counted(cond, body, outer, c.pointerBytes, plan) && j < |body| && k < plan.iterations
    requires BodyInv(body, j, plan, outer, c.pointerBytes, k, s)
    requires Eval(body[j].init, s, c, {}).Ok?
    ensures Accumulated(body, j + 1, plan, outer, c.pointerBytes, k,
                        SetLocal(s, body[j].target, Eval(body[j].init, s, c, {}).value))
  {
    hide Apply, Wrap, Pattern, Pow2, Bitwise, UintRange;
    var pb := c.pointerBytes;
    var s1 := SetLocal(s, body[j].target, Eval(body[j].init, s, c, {}).value);
    forall i | 0 <= i < |body| && Proved(body, i, plan, outer, pb) && body[i].target in s1.locals
      ensures var v := s1.locals[body[i].target];
              v.Num? && 0 <= v.n <= Cap(body, i, plan, outer, pb, if i < j + 1 then k + 1 else k)
    {
      if body[i].target == body[j].target {
        assert body[j].Assign?;
        OneWrite(body, i, j, body[i].target);
        SumFits(body, j, plan, outer, c, k, s);
        PlainAddition(body[j].init, s, c, {});
      } else {
        assert body[i].target in s.locals;
        assert i != j;
      }
    }
  }

  /** Marks of a statement among those of the whole body. */
  lemma MarksInside(proven: set<nat>, own: set<nat>, all: set<nat>, marks: set<nat>, here: set<nat>)
    requires own <= all && proven * all <= marks && marks * own <= here
    ensures proven * own <= here
  {
    forall id | id in proven * own
      ensures id in here
    {
      assert id in proven * all && id in marks * own;
    }
  }

  /** One iteration, from statement `j` on. */
  lemma {:induction false} BodyElision(cond: Expr, body: seq<Stmt>, j: nat, outer: RangeLocals, c: Context, plan: Plan,
                                       proven: set<nat>, k: nat, s: Store, fuel: nat)
    requires Counted(cond, body, outer, c.pointerBytes, plan) && j <= |body| && k < plan.iterations
    requires plan.induction in c.types && c.types[plan.induction] == cond.left.typ
    requires plan.start.value + k + 1 <= MaxOf(cond.left.typ.it, c.pointerBytes)
    requires proven * BlockIds(body) <= MarksUpTo(body, |body|, plan, outer, c.pointerBytes)
    requires BodyInv(body, j, plan, outer, c.pointerBytes, k, s)
    ensures ExecAll(body[j..], s, c, proven, fuel) == ExecAll(body[j..], s, c, {}, fuel)
    ensures var o := ExecAll(body[j..], s, c, {}, fuel);
            && (o.Next? || o.Stopped?)
            && (o.Next? ==> BodyInv(body, |body|, plan, outer, c.pointerBytes, k, o.store))
    decreases |body| - j
  {
    if j < |body| {
      var pb, st := c.pointerBytes, body[j];
      MarksLocal(body, |body|, j, plan, outer, pb);
      BlockIdsMember(body, j);
      MarksInside(proven, StmtIds(st), BlockIds(body), MarksUpTo(body, |body|, plan, outer, pb), MarksAt(body, j, plan, outer, pb));
      StatementElision(cond, body, j, outer, c, plan, proven, k, s);
      var r := Eval(st.init, s, c, {});
      if r.Ok? {
        PureKeepsStore(st.init, s, c, {});
        StatementInv(cond, body, j, outer, c, plan, k, s);
        var s1 := SetLocal(s, st.target, r.value);
        assert Exec(st, s, c, {}, fuel) == Next(s1);
        assert body[j..][1..] == body[j + 1..] && body[j..][0] == st;
        BodyElision(cond, body, j + 1, outer, c, plan, proven, k, s1, fuel);
      }
    }
  }

  // ----- a whole counted loop -----

  /** Before iteration `k`: carried ranges hold, the induction variable counts, accumulators are capped. */
  predicate LoopInv(body: seq<Stmt>, plan: Plan, outer: RangeLocals, pb: nat, k: nat, s: Store)
    requires plan.Plan?
    requires |plan.inside.values| == |outer.values| && plan.inside.start == outer.start
  {
    && Holds(Carried(outer, body), s)
    && InductionIs(plan, plan.start.value + k, s)
    && Accumulated(body, 0, plan, outer, pb, k, s)
  }

  /** A true loop condition means another iteration was counted, and its increment is representable. */
  lemma ConditionCounts(cond: Expr, body: seq<Stmt>, outer: RangeLocals, c: Context, plan: Plan, k: nat, s: Store)
    requires Counted(cond, body, outer, c.pointerBytes, plan)
    requires LoopInv(body, plan, outer, c.pointerBytes, k, s)
    requires Eval(cond, s, c, {}).Ok?
    ensures Eval(cond, s, c, {}).store == s
    ensures plan.induction in c.types && c.types[plan.induction] == cond.left.typ
    ensures Eval(cond, s, c, {}).value != Num(0) ==>
              && k < plan.iterations && plan.start.value + k + 1 <= MaxOf(cond.left.typ.it, c.pointerBytes)
              && plan.start.value + k <= (if plan.inclusive then plan.bound.value else plan.bound.value - 1)
  {
    hide Wrap, Pattern, Pow2, Bitwise, UintRange;
    PlanFacts(cond, body, outer, c.pointerBytes, plan);
    ExactIsPure(cond.right, Carried(outer, body), c.pointerBytes);
    PureKeepsStore(cond, s, c, {});
    RangeSound(cond.right, s, c, Carried(outer, body));
    EvalConforms(cond.right, s, c, {});
  }

  lemma EnterBody(cond: Expr, body: seq<Stmt>, outer: RangeLocals, pb: nat, plan: Plan, k: nat, s: Store)
    requires Counted(cond, body, outer, pb, plan) && LoopInv(body, plan, outer, pb, k, s)
    requires plan.start.value + k <= (if plan.inclusive then plan.bound.value else plan.bound.value - 1)
    ensures BodyInv(body, 0, plan, outer, pb, k, s)
  {
    var carried := Carried(outer, body);
    forall x: nat | plan.inside.Has(x) && x in s.locals
      ensures Fits(s.locals[x], plan.inside.Get(x))
    {
      assert Fits(s.locals[x], carried.Get(x));
    }
  }

  lemma LeaveBody(cond: Expr, body: seq<Stmt>, outer: RangeLocals, pb: nat, plan: Plan, k: nat, s: Store)
    requires Counted(cond, body, outer, pb, plan)
    requires BodyInv(body, |body|, plan, outer, pb, k, s)
    ensures LoopInv(body, plan, outer, pb, k + 1, s)
  {
    InsideCarried(cond, body, |body|, plan, outer, pb, s);
  }

  /** Any number of further iterations run the same with the marked checks left out. */
  lemma {:induction false} LoopElision(cond: Expr, body: seq<Stmt>, outer: RangeLocals, c: Context, plan: Plan,
                                       proven: set<nat>, k: nat, s: Store, fuel: nat)
    requires Counted(cond, body, outer, c.pointerBytes, plan)
    requires proven !! Ids(cond) && proven * BlockIds(body) <= MarksUpTo(body, |body|, plan, outer, c.pointerBytes)
    requires LoopInv(body, plan, outer, c.pointerBytes, k, s)
    ensures Exec(For(cond, body), s, c, proven, fuel) == Exec(For(cond, body), s, c, {}, fuel)
    decreases fuel
  {
    hide Counted, LoopInv, BodyInv, MarksUpTo, Eval, BlockIds, Ids, UintRange;
    if fuel > 0 {
      OtherMarks(cond, s, c, proven, {});
      var r := Eval(cond, s, c, {});
      if r.Ok? {
        ConditionCounts(cond, body, outer, c, plan, k, s);
        if r.value != Num(0) {
          EnterBody(cond, body, outer, c.pointerBytes, plan, k, s);
          BodyElision(cond, body, 0, outer, c, plan, proven, k, s, fuel);
          assert body[0..] == body;
          var o := ExecAll(body, s, c, {}, fuel);
          if o.Next? {
            LeaveBody(cond, body, outer, c.pointerBytes, plan, k, o.store);
            LoopElision(cond, body, outer, c, plan, proven, k + 1, o.store, fuel - 1);
          }
        }
      }
    }
  }

  // ----- a whole function -----

  /** A local declared in the body of loop `i` is the target of no other statement at function level. */
  predicate Scoped(body: seq<Stmt>) {
    forall i, j, m :: 0 <= i < |body| && body[i].For? && 0 <= j < |body[i].body| && body[i].body[j].Local? &&
                      0 <= m < |body| && (body[m].Local? || body[m].Assign?) ==>
      body[m].target != body[i].body[j].target
  }

  predicate LoopLocalsUnknown(body: seq<Stmt>, locals: RangeLocals) {
    forall i, j :: 0 <= i < |body| && body[i].For? && 0 <= j < |body[i].body| && body[i].body[j].Local? &&
                   locals.Has(body[i].body[j].target) ==>
      !Known(locals.Get(body[i].body[j].target))
  }

  /** The shape every lowered function has: expression trees that share no node, one declaration per local. */
  predicate WellFormed(body: seq<Stmt>) {
    && Separate(body) && Scoped(body)
    && forall i :: 0 <= i < |body| ==> TreeStmt(body[i])
  }

  lemma {:induction false} HeadDisjoint(body: seq<Stmt>, n: nat)
    requires body != [] && Separate(body) && 0 < n <= |body|
    ensures StmtIds(body[0]) !! BlockIds(body[n..])
    decreases |body| - n
  {
    if n < |body| {
      HeadDisjoint(body, n + 1);
      assert body[n..][1..] == body[n + 1..] && body[n..][0] == body[n];
      assert StmtIds(body[0]) !! StmtIds(body[n]);
    }
  }

  lemma WellFormedTail(body: seq<Stmt>)
    requires body != [] && WellFormed(body)
    ensures WellFormed(body[1..])
  {
    var rest := body[1..];
    forall i, j | 0 <= i < j < |rest| ensures StmtIds(rest[i]) !! StmtIds(rest[j]) {
      assert rest[i] == body[i + 1] && rest[j] == body[j + 1];
    }
    forall i, j, m | 0 <= i < |rest| && rest[i].For? && 0 <= j < |rest[i].body| && rest[i].body[j].Local? &&
                     0 <= m < |rest| && (rest[m].Local? || rest[m].Assign?)
      ensures rest[m].target != rest[i].body[j].target
    {
      assert rest[i] == body[i + 1] && rest[m] == body[m + 1];
    }
    forall i | 0 <= i < |rest| ensures TreeStmt(rest[i]) {
      assert rest[i] == body[i + 1];
    }
  }

  lemma UnknownTail(body: seq<Stmt>, locals: RangeLocals, pb: nat)
    requires body != [] && WellFormed(body) && LoopLocalsUnknown(body, locals)
    ensures LoopLocalsUnknown(body[1..], Flow(body[0], locals, pb))
  {
    var rest, next := body[1..], Flow(body[0], locals, pb);
    forall i, j | 0 <= i < |rest| && rest[i].For? && 0 <= j < |rest[i].body| && rest[i].body[j].Local? &&
                  next.Has(rest[i].body[j].target)
      ensures !Known(next.Get(rest[i].body[j].target))
    {
      assert rest[i] == body[i + 1];
      assert !Known(locals.Get(body[i + 1].body[j].target));
    }
  }

  lemma LoopMarksOwn(cond: Expr, body: seq<Stmt>, outer: RangeLocals, pb: nat)
    requires TreeStmt(For(cond, body))
    ensures LoopMarks(cond, body, outer, pb) <= BlockIds(body)
  {
    var plan := LoopPlan(cond, body, outer, pb);
    if plan.Plan? {
      MarksLocal(body, |body|, 0, plan, outer, pb);
    }
  }

  lemma {:induction false} FunctionMarksOwn(body: seq<Stmt>, locals: RangeLocals, pb: nat)
    requires WellFormed(body)
    ensures FunctionMarks(body, locals, pb) <= BlockIds(body)
  {
    if body != [] {
      WellFormedTail(body);
      FunctionMarksOwn(body[1..], Flow(body[0], locals, pb), pb);
      assert TreeStmt(body[0]);
      if body[0].For? {
        LoopMarksOwn(body[0].cond, body[0].body, locals, pb);
      }
    }
  }

  /** The head of a function body runs the same with the function's marked checks left out. */
  lemma HeadElision(body: seq<Stmt>, s: Store, c: Context, locals: RangeLocals, proven: set<nat>, fuel: nat)
    requires body != [] && WellFormed(body) && Holds(locals, s) && LoopLocalsUnknown(body, locals)
    requires locals.start + |locals.values| <= NO_LOCAL
    requires proven * BlockIds(body) <= FunctionMarks(body, locals, c.pointerBytes)
    ensures Exec(body[0], s, c, proven, fuel) == Exec(body[0], s, c, {}, fuel)
  {
    var pb, st := c.pointerBytes, body[0];
    assert TreeStmt(st);
    HeadDisjoint(body, 1);
    WellFormedTail(body);
    FunctionMarksOwn(body[1..], Flow(st, locals, pb), pb);
    assert forall id :: id in proven && id in StmtIds(st) ==> id in proven * BlockIds(body);
    if st.For? {
      LoopMarksOwn(st.cond, st.body, locals, pb);
      var plan := LoopPlan(st.cond, st.body, locals, pb);
      if plan.Plan? {
        assert forall j :: 0 <= j < |st.body| && st.body[j].Local? && locals.Has(st.body[j].target) ==>
          !Known(locals.Get(st.body[j].target));
        LoopStart(st.cond, st.body, locals, pb, plan, s);
        LoopElision(st.cond, st.body, locals, c, plan, proven, 0, s, fuel);
        return;
      }
    }
    OtherMarksStmt(st, s, c, proven, fuel);
  }

  lemma LoopStart(cond: Expr, body: seq<Stmt>, outer: RangeLocals, pb: nat, plan: Plan, s: Store)
    requires Counted(cond, body, outer, pb, plan) && Holds(outer, s)
    ensures LoopInv(body, plan, outer, pb, 0, s)
  {
    PlanFacts(cond, body, outer, pb, plan);
    var carried := Carried(outer, body);
    forall x: nat | carried.Has(x) && x in s.locals
      ensures Fits(s.locals[x], carried.Get(x))
    {
      assert Fits(s.locals[x], outer.Get(x));
    }
    forall i | 0 <= i < |body| && Proved(body, i, plan, outer, pb) && body[i].target in s.locals
      ensures var v := s.locals[body[i].target]; v.Num? && 0 <= v.n <= Cap(body, i, plan, outer, pb, 0)
    {
      assert Fits(s.locals[body[i].target], outer.Get(body[i].target));
    }
  }

  lemma FlowHolds(st: Stmt, s: Store, c: Context, locals: RangeLocals, fuel: nat)
    requires Holds(locals, s) && locals.start + |locals.values| <= NO_LOCAL
    requires Exec(st, s, c, {}, fuel).Next?
    ensures Holds(Flow(st, locals, c.pointerBytes), Exec(st, s, c, {}, fuel).store)
  {
    if (st.Local? || st.Assign?) && locals.Has(st.target) && Pure(st.init) {
      PureKeepsStore(st.init, s, c, {});
      RangeSound(st.init, s, c, locals);
      HoldsUpdate(locals, s, st.target, Eval(st.init, s, c, {}).value, UintRange(st.init, locals, c.pointerBytes));
    }
  }

  lemma {:induction false} BlockElision(body: seq<Stmt>, s: Store, c: Context, locals: RangeLocals, proven: set<nat>, fuel: nat)
    requires WellFormed(body) && Holds(locals, s) && LoopLocalsUnknown(body, locals)
    requires locals.start + |locals.values| <= NO_LOCAL
    requires proven * BlockIds(body) <= FunctionMarks(body, locals, c.pointerBytes)
    ensures ExecAll(body, s, c, proven, fuel) == ExecAll(body, s, c, {}, fuel)
  {
    if body != [] {
      var pb, st, rest := c.pointerBytes, body[0], body[1..];
      var next := Flow(st, locals, pb);
      HeadElision(body, s, c, locals, proven, fuel);
      var o := Exec(st, s, c, {}, fuel);
      if o.Next? {
        FlowHolds(st, s, c, locals, fuel);
        WellFormedTail(body);
        UnknownTail(body, locals, pb);
        HeadDisjoint(body, 1);
        assert TreeStmt(st);
        if st.For? {
          LoopMarksOwn(st.cond, st.body, locals, pb);
        }
        assert forall id :: id in proven && id in BlockIds(rest) ==> id in proven * BlockIds(body);
        assert proven * BlockIds(rest) <= FunctionMarks(rest, next, pb);
        BlockElision(rest, o.store, c, next, proven, fuel);
      }
    }
  }

  /**
   The optimisation is invisible: with every check the prover marks left out, a function run
   from any store, with opaque code behaving in any way and for any number of steps, ends in
   the same store, result or failed check as with all checks in place.
   */
  lemma ElisionPreservesMeaning(body: seq<Stmt>, start: nat, count: nat, s: Store, c: Context, proven: set<nat>, fuel: nat)
    requires WellFormed(body) && start + count <= NO_LOCAL
    requires proven * BlockIds(body) <=
             FunctionMarks(body, RangeLocals(start, seq(count, _ => UNKNOWN)), c.pointerBytes)
    ensures ExecAll(body, s, c, proven, fuel) == ExecAll(body, s, c, {}, fuel)
  {
    BlockElision(body, s, c, RangeLocals(start, seq(count, _ => UNKNOWN)), proven, fuel);
  }

  // ----- memory safety -----

  lemma {:induction false} CheckedNeverWild(e: Expr, s: Store, c: Context)
    ensures Eval(e, s, c, {}) != Wild
    decreases e, 0
  {
    match e
    case Convert(_, source) => CheckedNeverWild(source, s, c);
    case Index(_, _, base, index) =>
      CheckedNeverWild(index, s, c);
      var r := Eval(index, s, c, {});
      if r.Ok? {
        CheckedNeverWild(base, r.store, c);
      }
    case Binary(_, _, _, _, left, right) =>
      CheckedNeverWild(left, s, c);
      var r := Eval(left, s, c, {});
      if r.Ok? {
        CheckedNeverWild(right, r.store, c);
      }
    case Logical(_, left, right) =>
      CheckedNeverWild(left, s, c);
      var r := Eval(left, s, c, {});
      if r.Ok? {
        CheckedNeverWild(right, r.store, c);
      }
    case Call(_, _, args) => CheckedNeverWildAll(args, s, c);
    case _ =>
  }

  lemma {:induction false} CheckedNeverWildAll(args: seq<Expr>, s: Store, c: Context)
    ensures EvalAll(args, s, c, {}) != NotOk(Wild)
    decreases args, 1
  {
    if args != [] {
      CheckedNeverWild(args[0], s, c);
      var r := Eval(args[0], s, c, {});
      if r.Ok? {
        CheckedNeverWildAll(args[1..], r.store, c);
      }
    }
  }

  /** Opaque code is itself safe. */
  ghost predicate SafeSteps(c: Context) {
    forall code, values, s :: c.step(code, values, s) != Stopped(Wild)
  }

  lemma {:induction false} CheckedStmtNeverWild(st: Stmt, s: Store, c: Context, fuel: nat)
    requires SafeSteps(c)
    ensures Exec(st, s, c, {}, fuel) != Stopped(Wild)
    decreases fuel, st, 0
  {
    match st
    case Local(_, e) => CheckedNeverWild(e, s, c);
    case Assign(_, e) => CheckedNeverWild(e, s, c);
    case Return(e) => CheckedNeverWild(e, s, c);
    case Other(_, operands) => CheckedNeverWildAll(operands, s, c);
    case If(cond, thn, els) =>
      CheckedNeverWild(cond, s, c);
      var r := Eval(cond, s, c, {});
      if r.Ok? {
        CheckedBlockNeverWild(thn, r.store, c, fuel);
        CheckedBlockNeverWild(els, r.store, c, fuel);
      }
    case For(cond, body) =>
      CheckedNeverWild(cond, s, c);
      var r := Eval(cond, s, c, {});
      if fuel > 0 && r.Ok? {
        CheckedBlockNeverWild(body, r.store, c, fuel);
        var b := ExecAll(body, r.store, c, {}, fuel);
        if b.Next? || b.Continued? {
          CheckedStmtNeverWild(st, b.store, c, fuel - 1);
        }
      }
    case _ =>
  }

  lemma {:induction false} CheckedBlockNeverWild(sts: seq<Stmt>, s: Store, c: Context, fuel: nat)
    requires SafeSteps(c)
    ensures ExecAll(sts, s, c, {}, fuel) != Stopped(Wild)
    decreases fuel, sts, 1
  {
    if sts != [] {
      CheckedStmtNeverWild(sts[0], s, c, fuel);
      var o := Exec(sts[0], s, c, {}, fuel);
      if o.Next? {
        CheckedBlockNeverWild(sts[1..], o.store, c, fuel);
      }
    }
  }

  /** No run of the optimised function reads outside an array. */
  lemma ElisionIsSafe(body: seq<Stmt>, start: nat, count: nat, s: Store, c: Context, proven: set<nat>, fuel: nat)
    requires WellFormed(body) && start + count <= NO_LOCAL && SafeSteps(c)
    requires proven * BlockIds(body) <=
             FunctionMarks(body, RangeLocals(start, seq(count, _ => UNKNOWN)), c.pointerBytes)
    ensures ExecAll(body, s, c, proven, fuel) != Stopped(Wild)
  {
    ElisionPreservesMeaning(body, start, count, s, c, proven, fuel);
    CheckedBlockNeverWild(body, s, c, fuel);
  }
}
