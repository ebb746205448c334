/**
 The unsigned range prover: which checks of a function are marked redundant.

 The functions say what the pass decides; the `Prover` class is the pass itself, which
 raises flags in place and keeps its range tables in arrays.
 */
module RangeProver {
  import opened Integers
  import opened Nonlinear
  import opened RangeIr

  /** `max` bounds a valid range from above; `value` is the value of an exact one. */
  datatype RawRange = RawRange(valid: bool, exact: bool, max: Word64, value: Word64)

  type Range = r: RawRange | r.value <= r.max witness UNKNOWN

  const UNKNOWN: RawRange := RawRange(false, false, 0, 0)

  /** Ranges of the locals `start .. start + |values|`. */
  datatype RangeLocals = RangeLocals(start: nat, values: seq<Range>) {
    predicate Has(x: nat) {
      start <= x < start + |values|
    }

    function Get(x: nat): Range
      requires Has(x)
    {
      values[x - start]
    }

    function Set(x: nat, r: Range): RangeLocals
      requires Has(x)
    {
      this.(values := values[x - start := r])
    }
  }

  function Exactly(n: Word64): Range {
    RawRange(true, true, n, n)
  }

  function AtMost(n: Word64): Range {
    RawRange(true, false, n, 0)
  }

  predicate UnsignedType(t: Type) {
    t.Int? && !Signed(t.it)
  }

  function UnsignedMax(t: Type, pointerBytes: nat): (m: Word64)
    ensures UnsignedType(t) ==> m == MaxOf(t.it, pointerBytes)
  {
    if UnsignedType(t) then MaxOf(t.it, pointerBytes) else WORD_MAX
  }

  function AndRange(left: Range, right: Range): Range {
    var max := if left.max < right.max then left.max else right.max;
    var max1 := if right.exact && right.value < max then right.value else max;
    var max2 := if left.exact && left.value < max1 then left.value else max1;
    RawRange(true, left.exact && right.exact, max2, Bitwise(BitAnd, left.value, right.value))
  }

  function AddRange(left: Range, right: Range): Range
    requires WORD_MAX - left.max >= right.max
  {
    RawRange(true, left.exact && right.exact, left.max + right.max, left.value + right.value)
  }

  function MulRange(left: Range, right: Range): Range
    requires left.max == 0 || right.max <= WORD_MAX / left.max
  {
    ProductFits(left.max, right.max, WORD_MAX);
    Monotone(left.value, right.value, left.max, right.max);
    RawRange(true, left.exact && right.exact, left.max * right.max, left.value * right.value)
  }

  function UintRange(e: Expr, locals: RangeLocals, pointerBytes: nat): Range {
    match e
    case BoolLiteral(b) => Exactly(if b then 1 else 0)
    case Literal(_, n) => Exactly(n)
    case Name(_, x) => if locals.Has(x) then locals.Get(x) else UNKNOWN
    case Convert(t, source) =>
      if !UnsignedType(t) then UNKNOWN
      else
        var from := UintRange(source, locals, pointerBytes);
        var limit := UnsignedMax(t, pointerBytes);
        if !from.valid || from.max > limit then AtMost(limit) else from
    case Index(_, t, _, _) => if UnsignedType(t) then AtMost(UnsignedMax(t, pointerBytes)) else UNKNOWN
    case Binary(_, _, op, wrap, l, r) =>
      if wrap then UNKNOWN
      else
        var left, right := UintRange(l, locals, pointerBytes), UintRange(r, locals, pointerBytes);
        if !left.valid || !right.valid then UNKNOWN
        else if op.BitAnd? then AndRange(left, right)
        else if op.Add? && WORD_MAX - left.max >= right.max then AddRange(left, right)
        else if op.Mul? && (left.max == 0 || right.max <= WORD_MAX / left.max) then MulRange(left, right)
        else UNKNOWN
    case _ => UNKNOWN
  }

  /** Expressions without calls or other effects besides failing checks. */
  predicate Pure(e: Expr) {
    match e
    case Convert(_, source) => Pure(source)
    case Index(_, _, base, index) => Pure(base) && Pure(index)
    case Binary(_, _, _, _, left, right) => Pure(left) && Pure(right)
    case Logical(_, left, right) => Pure(left) && Pure(right)
    case Call(_, _, _) => false
    case _ => true
  }

  /** Only straight-line declarations and assignments of pure expressions to locals. */
  predicate SimpleBody(body: seq<Stmt>) {
    forall i :: 0 <= i < |body| ==> (body[i].Local? || body[i].Assign?) && Pure(body[i].init)
  }

  /** Array accesses of `e` whose index range lies below the array's length. */
  function BoundsMarks(e: Expr, locals: RangeLocals, pointerBytes: nat): set<nat> {
    match e
    case Convert(_, source) => BoundsMarks(source, locals, pointerBytes)
    case Index(id, _, base, index) =>
      var range := UintRange(index, locals, pointerBytes);
      BoundsMarks(base, locals, pointerBytes) + BoundsMarks(index, locals, pointerBytes) +
      (if TypeOf(base).Array? && range.valid && range.max < TypeOf(base).length then {id} else {})
    case Binary(_, _, _, _, left, right) =>
      BoundsMarks(left, locals, pointerBytes) + BoundsMarks(right, locals, pointerBytes)
    case Logical(_, left, right) =>
      BoundsMarks(left, locals, pointerBytes) + BoundsMarks(right, locals, pointerBytes)
    case Call(_, _, args) => BoundsMarksAll(args, locals, pointerBytes)
    case _ => {}
  }

  function BoundsMarksAll(es: seq<Expr>, locals: RangeLocals, pointerBytes: nat): set<nat> {
    if es == [] then {}
    else BoundsMarks(es[0], locals, pointerBytes) + BoundsMarksAll(es[1..], locals, pointerBytes)
  }

  predicate Touches(st: Stmt, x: nat) {
    (st.Local? || st.Assign?) && st.target == x
  }

  /** Number of assignments to `x` in a loop body. */
  function Writes(body: seq<Stmt>, x: nat): nat {
    if body == [] then 0
    else (if body[0].Assign? && body[0].target == x then 1 else 0) + Writes(body[1..], x)
  }

  predicate Touched(body: seq<Stmt>, x: nat) {
    exists j :: 0 <= j < |body| && Touches(body[j], x)
  }

  /** Outer ranges without those a body invalidates. */
  function Carried(outer: RangeLocals, body: seq<Stmt>): RangeLocals {
    outer.(values := seq(|outer.values|, i requires 0 <= i < |outer.values| =>
      if Touched(body, outer.start + i) then UNKNOWN else outer.values[i]))
  }

  /** A counted loop: its induction variable, trip count and the ranges its body starts with. */
  datatype Plan = NoPlan | Plan(induction: nat, start: Range, bound: Range, inclusive: bool, iterations: Word64,
                                inside: RangeLocals)

  /** `x = x + step` for the local `x`. */
  predicate Increments(st: Stmt, x: nat) {
    && st.Assign? && st.target == x
    && st.init.Binary? && st.init.op.Add? && st.init.left.Name? && st.init.left.local == x
  }

  predicate Countable(cond: Expr, outer: RangeLocals) {
    && cond.Binary? && (cond.op.Lt? || cond.op.Le?)
    && cond.left.Name? && outer.Has(cond.left.local) && UnsignedType(cond.left.typ)
  }

  function LoopPlan(cond: Expr, body: seq<Stmt>, outer: RangeLocals, pointerBytes: nat): (plan: Plan)
    ensures plan.Plan? ==> Countable(cond, outer) && SimpleBody(body) && |body| > 0
    ensures plan.Plan? ==> |plan.inside.values| == |outer.values| && plan.inside.start == outer.start
  {
    if !SimpleBody(body) || !Countable(cond, outer) then NoPlan
    else
      var x, carried := cond.left.local, Carried(outer, body);
      var bound, start := UintRange(cond.right, carried, pointerBytes), outer.Get(x);
      var inclusive := cond.op.Le?;
      if !bound.exact || !start.exact || bound.value < start.value then NoPlan
      else if inclusive && bound.value >= UnsignedMax(cond.left.typ, pointerBytes) then NoPlan
      else if Writes(body, x) != 1 || |body| == 0 || !Increments(body[|body| - 1], x) then NoPlan
      else
        var one := UintRange(body[|body| - 1].init.right, carried, pointerBytes);
        if !one.exact || one.value != 1 then NoPlan
        else
          var last := if inclusive then bound.value else if bound.value > 0 then bound.value - 1 else 0;
          var iterations := bound.value - start.value + (if inclusive then 1 else 0);
          Plan(x, start, bound, inclusive, iterations, carried.Set(x, AtMost(last)))
  }

  /** Ranges after one statement of a loop body. */
  function After(st: Stmt, inside: RangeLocals, pointerBytes: nat): (next: RangeLocals)
    ensures |next.values| == |inside.values| && next.start == inside.start
  {
    if st.Local? && inside.Has(st.target) then inside.Set(st.target, UintRange(st.init, inside, pointerBytes))
    else if st.Assign? && inside.Has(st.target) then inside.Set(st.target, UNKNOWN)
    else inside
  }

  /** Ranges before statement `j` of a loop body. */
  function Inside(body: seq<Stmt>, j: nat, inside: RangeLocals, pointerBytes: nat): (r: RangeLocals)
    requires j <= |body|
    ensures |r.values| == |inside.values| && r.start == inside.start
  {
    if j == 0 then inside else After(body[j - 1], Inside(body, j - 1, inside, pointerBytes), pointerBytes)
  }

  /** Range of the step of an accumulation, with the accumulator's own range forgotten. */
  function StepRange(st: Stmt, inside: RangeLocals, pointerBytes: nat): Range
    requires st.Assign? && inside.Has(st.target) && st.init.Binary?
  {
    UintRange(st.init.right, inside.Set(st.target, UNKNOWN), pointerBytes)
  }

  /** An accumulation that cannot overflow in `iterations` iterations. */
  predicate Accumulates(body: seq<Stmt>, st: Stmt, inside: RangeLocals, outer: RangeLocals, iterations: Word64,
                        pointerBytes: nat)
    requires |inside.values| == |outer.values| && inside.start == outer.start
  {
    && st.Assign? && inside.Has(st.target)
    && Writes(body, st.target) == 1 && Increments(st, st.target)
    && UnsignedType(st.init.typ)
    && var initial, step := outer.Get(st.target), StepRange(st, inside, pointerBytes);
    var limit := UnsignedMax(st.init.typ, pointerBytes);
    && initial.valid && step.valid
    && (iterations == 0 || step.max <= WORD_MAX / iterations)
    && initial.max <= limit && step.max * iterations <= limit - initial.max
  }

  /** Marks raised at statement `j` of a counted loop. */
  function MarksAt(body: seq<Stmt>, j: nat, plan: Plan, outer: RangeLocals, pointerBytes: nat): set<nat>
    requires j < |body| && SimpleBody(body) && plan.Plan?
    requires |plan.inside.values| == |outer.values| && plan.inside.start == outer.start
  {
    var inside := Inside(body, j, plan.inside, pointerBytes);
    BoundsMarks(body[j].init, inside, pointerBytes) +
    (if Accumulates(body, body[j], inside, outer, plan.iterations, pointerBytes) then {body[j].init.id} else {})
  }

  function MarksUpTo(body: seq<Stmt>, j: nat, plan: Plan, outer: RangeLocals, pointerBytes: nat): set<nat>
    requires j <= |body| && SimpleBody(body) && plan.Plan?
    requires |plan.inside.values| == |outer.values| && plan.inside.start == outer.start
  {
    if j == 0 then {}
    else MarksUpTo(body, j - 1, plan, outer, pointerBytes) + MarksAt(body, j - 1, plan, outer, pointerBytes)
  }

  function LoopMarks(cond: Expr, body: seq<Stmt>, outer: RangeLocals, pointerBytes: nat): set<nat> {
    var plan := LoopPlan(cond, body, outer, pointerBytes);
    if plan.NoPlan? then {} else MarksUpTo(body, |body|, plan, outer, pointerBytes)
  }

  function Forget(locals: RangeLocals): RangeLocals {
    locals.(values := seq(|locals.values|, _ => UNKNOWN))
  }

  /** Ranges after a statement at function level. */
  function Flow(st: Stmt, locals: RangeLocals, pointerBytes: nat): (next: RangeLocals)
    ensures |next.values| == |locals.values| && next.start == locals.start
  {
    if (st.Local? || st.Assign?) && locals.Has(st.target) && Pure(st.init)
    then locals.Set(st.target, UintRange(st.init, locals, pointerBytes))
    else Forget(locals)
  }

  /** All marks of a function body whose statements start with the ranges `locals`. */
  function FunctionMarks(body: seq<Stmt>, locals: RangeLocals, pointerBytes: nat): set<nat> {
    if body == [] then {}
    else
      (if body[0].For? then LoopMarks(body[0].cond, body[0].body, locals, pointerBytes) else {}) +
      FunctionMarks(body[1..], Flow(body[0], locals, pointerBytes), pointerBytes)
  }

  lemma WritesAppend(body: seq<Stmt>, j: nat, x: nat)
    requires j < |body|
    ensures Writes(body[..j + 1], x) == Writes(body[..j], x) + (if body[j].Assign? && body[j].target == x then 1 else 0)
  {
    if j == 0 {
      assert body[..1][1..] == [];
    } else {
      assert body[..j + 1][1..] == body[1..][..j] && body[..j][1..] == body[1..][..j - 1];
      WritesAppend(body[1..], j - 1, x);
    }
  }

  lemma TouchedAppend(body: seq<Stmt>, j: nat, x: nat)
    requires j < |body|
    ensures Touched(body[..j + 1], x) <==> Touched(body[..j], x) || Touches(body[j], x)
  {
    if Touched(body[..j], x) {
      var k :| 0 <= k < j && Touches(body[..j][k], x);
      assert Touches(body[..j + 1][k], x);
    }
    if Touches(body[j], x) {
      assert Touches(body[..j + 1][j], x);
    }
    if Touched(body[..j + 1], x) && !Touches(body[j], x) {
      var k :| 0 <= k < j + 1 && Touches(body[..j + 1][k], x);
      assert Touches(body[..j][k], x);
    }
  }

  lemma {:induction false} FunctionMarksAppend(body: seq<Stmt>, i: nat, locals: RangeLocals, pointerBytes: nat)
    requires i < |body|
    ensures FunctionMarks(body[..i + 1], locals, pointerBytes) ==
            FunctionMarks(body[..i], locals, pointerBytes) +
            (if body[i].For? then LoopMarks(body[i].cond, body[i].body, FlowTo(body, i, locals, pointerBytes), pointerBytes) else {})
  {
    if i > 0 {
      assert body[..i + 1][1..] == body[1..][..i] && body[..i][1..] == body[1..][..i - 1];
      FunctionMarksAppend(body[1..], i - 1, Flow(body[0], locals, pointerBytes), pointerBytes);
    }
  }

  /** Ranges before statement `i` of a function. */
  function FlowTo(body: seq<Stmt>, i: nat, locals: RangeLocals, pointerBytes: nat): (r: RangeLocals)
    requires i <= |body|
    ensures |r.values| == |locals.values| && r.start == locals.start
  {
    if i == 0 then locals else FlowTo(body[1..], i - 1, Flow(body[0], locals, pointerBytes), pointerBytes)
  }

  lemma {:induction false} FlowToNext(body: seq<Stmt>, i: nat, locals: RangeLocals, pointerBytes: nat)
    requires i < |body|
    ensures FlowTo(body, i + 1, locals, pointerBytes) ==
            Flow(body[i], FlowTo(body, i, locals, pointerBytes), pointerBytes)
  {
    if i > 0 {
      FlowToNext(body[1..], i - 1, Flow(body[0], locals, pointerBytes), pointerBytes);
    }
  }

  /** The pass: raises `proven` flags, one function at a time. */
  class Prover {
    const pointerBytes: nat
    var proven: set<nat>

    constructor (pointerBytes: nat)
      ensures this.pointerBytes == pointerBytes && proven == {}
    {
      this.pointerBytes := pointerBytes;
      proven := {};
    }

    method ProveArrayBounds(e: Expr, inside: RangeLocals)
      modifies this
      ensures proven == old(proven) + BoundsMarks(e, inside, pointerBytes)
      decreases e, 0
    {
      match e
      case Convert(_, source) =>
        ProveArrayBounds(source, inside);
      case Index(id, _, base, index) =>
        ProveArrayBounds(base, inside);
        ProveArrayBounds(index, inside);
        if TypeOf(base).Array? {
          var range := UintRange(index, inside, pointerBytes);
          if range.valid && range.max < TypeOf(base).length {
            proven := proven + {id};
          }
        }
      case Binary(_, _, _, _, left, right) =>
        ProveArrayBounds(left, inside);
        ProveArrayBounds(right, inside);
      case Logical(_, left, right) =>
        ProveArrayBounds(left, inside);
        ProveArrayBounds(right, inside);
      case Call(_, _, args) =>
        ProveAll(args, inside);
      case _ =>
    }

    method ProveAll(es: seq<Expr>, inside: RangeLocals)
      modifies this
      ensures proven == old(proven) + BoundsMarksAll(es, inside, pointerBytes)
      decreases es, 1
    {
      if es != [] {
        ProveArrayBounds(es[0], inside);
        ProveAll(es[1..], inside);
      }
    }

    /** Clears the range of every local the body touches and counts the assignments to each. */
    method Survey(body: seq<Stmt>, start: nat, inside: array<Range>, writes: array<nat>)
      requires SimpleBody(body)
      requires writes.Length == inside.Length && inside as object != writes
      requires forall i :: 0 <= i < writes.Length ==> writes[i] == 0
      modifies inside, writes
      ensures forall x: nat :: start <= x < start + writes.Length ==> writes[x - start] == Writes(body, x)
      ensures RangeLocals(start, inside[..]) == Carried(RangeLocals(start, old(inside[..])), body)
    {
      ghost var outer := inside[..];
      for j := 0 to |body|
        invariant forall x: nat :: start <= x < start + writes.Length ==> writes[x - start] == Writes(body[..j], x)
        invariant forall x: nat :: start <= x < start + inside.Length ==>
          inside[x - start] == (if Touched(body[..j], x) then UNKNOWN else outer[x - start])
      {
        var x := body[j].target;
        ghost var done, more := body[..j], body[..j + 1];
        forall y: nat
          ensures Writes(more, y) == Writes(done, y) + (if body[j].Assign? && body[j].target == y then 1 else 0)
          ensures Touched(more, y) <==> Touched(done, y) || Touches(body[j], y)
        {
          WritesAppend(body, j, y);
          TouchedAppend(body, j, y);
        }
        if start <= x < start + inside.Length {
          inside[x - start] := UNKNOWN;
          if body[j].Assign? {
            writes[x - start] := writes[x - start] + 1;
          }
        }
      }
      assert body[..|body|] == body;
    }

    /** Decides whether an accumulation whose range has just been forgotten can overflow. */
    method ProveAccumulation(body: seq<Stmt>, st: Stmt, now: RangeLocals, forgotten: RangeLocals, outer: RangeLocals,
                             writes: nat, iterations: Word64)
      requires st.Assign? && outer.Has(st.target)
      requires |now.values| == |outer.values| && now.start == outer.start
      requires forgotten == now.Set(st.target, UNKNOWN)
      requires writes == Writes(body, st.target)
      modifies this
      ensures proven == old(proven) +
                        (if Accumulates(body, st, now, outer, iterations, pointerBytes) then {st.init.id} else {})
    {
      if writes != 1 || !Increments(st, st.target) { return; }
      var initial := outer.Get(st.target);
      var step := UintRange(st.init.right, forgotten, pointerBytes);
      var limit := UnsignedMax(st.init.typ, pointerBytes);
      if !UnsignedType(st.init.typ) || !initial.valid || !step.valid ||
         (iterations != 0 && step.max > WORD_MAX / iterations) { return; }
      ProductFits(iterations, step.max, WORD_MAX);
      var growth: Word64 := step.max * iterations;
      if initial.max <= limit && growth <= limit - initial.max {
        proven := proven + {st.init.id};
      }
    }

    /** Walks the body of a counted loop, statement by statement. */
    method ProveBody(body: seq<Stmt>, outer: RangeLocals, inside: array<Range>, writes: array<nat>,
                     iterations: Word64, ghost plan: Plan)
      requires SimpleBody(body) && plan.Plan? && plan.iterations == iterations
      requires inside.Length == writes.Length == |outer.values|
      requires plan.inside == RangeLocals(outer.start, inside[..])
      requires forall x: nat :: outer.Has(x) ==> writes[x - outer.start] == Writes(body, x)
      modifies this, inside
      ensures proven == old(proven) + MarksUpTo(body, |body|, plan, outer, pointerBytes)
    {
      for j := 0 to |body|
        invariant proven == old(proven) + MarksUpTo(body, j, plan, outer, pointerBytes)
        invariant RangeLocals(outer.start, inside[..]) == Inside(body, j, plan.inside, pointerBytes)
      {
        var st := body[j];
        var now := RangeLocals(outer.start, inside[..]);
        ProveArrayBounds(st.init, now);
        if outer.Has(st.target) {
          if st.Local? {
            inside[st.target - outer.start] := UintRange(st.init, now, pointerBytes);
          } else {
            inside[st.target - outer.start] := UNKNOWN;
            var forgotten := RangeLocals(outer.start, inside[..]);
            ProveAccumulation(body, st, now, forgotten, outer, writes[st.target - outer.start], iterations);
          }
        }
      }
    }

    method ProveLoop(cond: Expr, body: seq<Stmt>, outer: RangeLocals)
      modifies this
      ensures proven == old(proven) + LoopMarks(cond, body, outer, pointerBytes)
    {
      if !SimpleBody(body) || !Countable(cond, outer) { return; }
      var induction, n := cond.left.local, |outer.values|;
      var inside := new Range[n](i requires 0 <= i < n => outer.values[i]);
      var writes := new nat[n](_ => 0);
      assert inside[..] == outer.values;
      Survey(body, outer.start, inside, writes);
      var carried := RangeLocals(outer.start, inside[..]);
      assert carried == Carried(outer, body);
      var bound, start := UintRange(cond.right, carried, pointerBytes), outer.Get(induction);
      if !bound.exact || !start.exact || bound.value < start.value { return; }
      var inclusive := cond.op.Le?;
      if inclusive && bound.value >= UnsignedMax(cond.left.typ, pointerBytes) { return; }
      var iterations: Word64 := bound.value - start.value + (if inclusive then 1 else 0);
      if writes[induction - outer.start] != 1 || |body| == 0 { return; }
      var last := body[|body| - 1];
      if !Increments(last, induction) { return; }
      var one := UintRange(last.init.right, carried, pointerBytes);
      if !one.exact || one.value != 1 { return; }
      inside[induction - outer.start] :=
        AtMost(if inclusive then bound.value else if bound.value > 0 then bound.value - 1 else 0);
      ghost var plan := LoopPlan(cond, body, outer, pointerBytes);
      assert RangeLocals(outer.start, inside[..]) == plan.inside;
      ProveBody(body, outer, inside, writes, iterations, plan);
    }

    /** Proves one function, whose locals are `start .. start + count`. */
    method ProveFunction(body: seq<Stmt>, start: nat, count: nat)
      modifies this
      ensures proven == old(proven) + FunctionMarks(body, RangeLocals(start, seq(count, _ => UNKNOWN)), pointerBytes)
    {
      var locals := new Range[count](_ => UNKNOWN);
      ghost var first := RangeLocals(start, seq(count, _ => UNKNOWN));
      assert RangeLocals(start, locals[..]) == first;
      for i := 0 to |body|
        invariant RangeLocals(start, locals[..]) == FlowTo(body, i, first, pointerBytes)
        invariant proven == old(proven) + FunctionMarks(body[..i], first, pointerBytes)
      {
        var st := body[i];
        var now := RangeLocals(start, locals[..]);
        FlowToNext(body, i, first, pointerBytes);
        FunctionMarksAppend(body, i, first, pointerBytes);
        if (st.Local? || st.Assign?) && now.Has(st.target) && Pure(st.init) {
          locals[st.target - start] := UintRange(st.init, now, pointerBytes);
          assert RangeLocals(start, locals[..]) == Flow(st, now, pointerBytes);
        } else {
          if st.For? {
            ProveLoop(st.cond, st.body, now);
          }
          forall k | 0 <= k < count {
            locals[k] := UNKNOWN;
          }
          assert RangeLocals(start, locals[..]) == Flow(st, now, pointerBytes);
        }
      }
      assert body[..|body|] == body;
    }
  }
}
