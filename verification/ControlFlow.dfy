/**
 Statements with structured control flow and deferred blocks: what they mean.

 A run is the sequence of effects so far; expressions contribute effects and runtime checks,
 whose results, like those of conditions, an arbitrary oracle reads off the run. Every exit
 from a block, whatever its reason, runs the block's own deferred blocks, last registered
 first; enclosing blocks then do the same with the same reason.
 */
module ControlFlow {
  import I = Integers
  import opened Ranges

  /** What a run does: anything observable, or a range loop handing its local the next integer. */
  datatype Event = Happened(code: nat) | Visited(local: nat, value: int)

  type Trace = seq<Event>

  /** A run so far: its effects, and how many more loop iterations are looked at. */
  datatype State = State(trace: Trace, fuel: nat)

  function Emit(s: State, event: Event): State {
    s.(trace := s.trace + [event])
  }

  function Spend(s: State): State
    requires s.fuel > 0
  {
    s.(fuel := s.fuel - 1)
  }

  /** What a run cannot foresee: results of tests, and the integers that expressions compute. */
  datatype Oracle = Oracle(test: (nat, Trace) -> bool, value: (nat, Trace) -> int)

  /** The parts of an expression that matter to control flow, in evaluation order. */
  datatype Micro = Effect(event: nat) | Check(test: nat)

  type Expr = seq<Micro>

  datatype Cond = Known(value: bool) | Asked(operands: Expr, test: nat)

  /** A range of integers: code that evaluates its bounds, and how the loop goes through it. */
  datatype Range = Range(operands: Expr, typ: I.IntType, first: nat, last: nat, inclusive: bool, reverse: bool, local: nat)

  /** Wasm pointers have four bytes. */
  const PointerBytes: nat := 4

  /** A bound of a range: any integer of its type. */
  function BoundOf(typ: I.IntType, id: nat, s: State, o: Oracle): (n: int)
    ensures I.InRange(typ, PointerBytes, n)
  {
    I.Wrap(typ, PointerBytes, o.value(id, s.trace))
  }

  datatype Arm = Arm(test: nat, body: seq<Stmt>)

  datatype Stmt =
    | Do(e: Expr)
    | If(cond: Cond, thn: seq<Stmt>, els: seq<Stmt>)
    | Loop(id: nat, cond: Cond, body: seq<Stmt>)
    | For(id: nat, range: Range, body: seq<Stmt>)
    | Break(target: nat)
    | Continue(target: nat)
    | Return(e: Expr)
    | Panic(e: Expr)
    | Defer(captures: Expr, body: seq<Stmt>)
    | Case(subject: Expr, arms: seq<Arm>)

  /**
   Why a statement stopped. `Unwinding` runs cleanups on the way to a trap: after `#panic`
   in the mode the panic was raised in, after a failed check with `quiet` set, when a further
   failed check ends the run at once.
   */
  datatype Outcome =
    | Normal(s: State)
    | Broke(target: nat, s: State)
    | Continued(target: nat, s: State)
    | Returned(s: State)
    | Unwinding(s: State, quiet: bool)
    | Trapped(s: State)
    | OutOfFuel

  function FuelOf(r: Outcome): nat {
    if r.OutOfFuel? then 0 else r.s.fuel
  }

  /** Evaluates an expression; a failed check starts unwinding, or ends a run that already unwinds. */
  function Evaluate(e: Expr, s: State, o: Oracle, quiet: bool): (r: Outcome)
    ensures r.Normal? || r.Unwinding? || r.Trapped?
    ensures r.s.fuel == s.fuel
  {
    if e == [] then Normal(s)
    else
      match e[0]
      case Effect(event) => Evaluate(e[1..], Emit(s, Happened(event)), o, quiet)
      case Check(test) =>
        if o.test(test, s.trace) then Evaluate(e[1..], s, o, quiet)
        else if quiet then Trapped(s)
        else Unwinding(s, true)
  }

  /** `cleaning` marks the statements of deferred blocks, which cannot defer again. */
  function Exec(st: Stmt, s: State, o: Oracle, quiet: bool, cleaning: bool): (r: Outcome)
    ensures FuelOf(r) <= s.fuel
    decreases s.fuel, if cleaning then 0 else 2, st, 1
  {
    match st
    case Do(e) => Evaluate(e, s, o, quiet)
    case If(Known(b), thn, els) => ExecBlock(if b then thn else els, s, o, quiet, cleaning)
    case If(Asked(operands, test), thn, els) =>
      var r := Evaluate(operands, s, o, quiet);
      if !r.Normal? then r
      else ExecBlock(if o.test(test, r.s.trace) then thn else els, r.s, o, quiet, cleaning)
    case Loop(id, cond, body) =>
      if s.fuel == 0 then OutOfFuel
      else
        var r := if cond.Known? then Normal(Spend(s)) else Evaluate(cond.operands, Spend(s), o, quiet);
        if !r.Normal? then r
        else if !(if cond.Known? then cond.value else o.test(cond.test, r.s.trace)) then r
        else
          var b := ExecBlock(body, r.s, o, quiet, cleaning);
          if b.Normal? || (b.Continued? && b.target == id) then Exec(st, b.s, o, quiet, cleaning)
          else if b.Broke? && b.target == id then Normal(b.s)
          else b
    case For(_, range, _) =>
      var r := Evaluate(range.operands, s, o, quiet);
      if !r.Normal? then r
      else ExecRange(st, BoundOf(range.typ, range.first, r.s, o), BoundOf(range.typ, range.last, r.s, o), 0, r.s, o, quiet, cleaning)
    case Break(target) => Broke(target, s)
    case Continue(target) => Continued(target, s)
    case Return(e) =>
      var r := Evaluate(e, s, o, quiet);
      if r.Normal? then Returned(r.s) else r
    case Panic(e) =>
      var r := Evaluate(e, s, o, quiet);
      if r.Normal? then Unwinding(r.s, quiet) else r
    case Defer(captures, _) => Evaluate(captures, s, o, quiet)
    case Case(subject, arms) =>
      var r := Evaluate(subject, s, o, quiet);
      if r.Normal? then ExecArms(arms, r.s, o, quiet, cleaning) else r
  }

  /** A range loop from its `n`-th integer on; an inclusive one stops behind its last integer without looking again. */
  function ExecRange(st: Stmt, first: int, last: int, n: nat, s: State, o: Oracle, quiet: bool, cleaning: bool): (r: Outcome)
    requires st.For?
    ensures FuelOf(r) <= s.fuel
    decreases s.fuel, if cleaning then 0 else 2, st, 0
  {
    var range, count := st.range, Count(first, last, st.range.inclusive);
    if s.fuel == 0 then OutOfFuel
    else if n >= count then Normal(Spend(s))
    else
      var value := Nth(first, last, range.inclusive, range.reverse, n);
      var b := ExecBlock(st.body, Emit(Spend(s), Visited(range.local, value)), o, quiet, cleaning);
      if b.Normal? || (b.Continued? && b.target == st.id) then
        if range.inclusive && n + 1 == count then Normal(b.s) else ExecRange(st, first, last, n + 1, b.s, o, quiet, cleaning)
      else if b.Broke? && b.target == st.id then Normal(b.s)
      else b
  }

  /** The first arm that matches; the checker guarantees there is one. */
  function ExecArms(arms: seq<Arm>, s: State, o: Oracle, quiet: bool, cleaning: bool): (r: Outcome)
    ensures FuelOf(r) <= s.fuel
    decreases s.fuel, if cleaning then 0 else 2, arms, 0
  {
    if arms == [] then Trapped(s)
    else if o.test(arms[0].test, s.trace) then ExecBlock(arms[0].body, s, o, quiet, cleaning)
    else ExecArms(arms[1..], s, o, quiet, cleaning)
  }

  function ExecBlock(sts: seq<Stmt>, s: State, o: Oracle, quiet: bool, cleaning: bool): (r: Outcome)
    ensures FuelOf(r) <= s.fuel
    decreases s.fuel, if cleaning then 0 else 2, sts, 2
  {
    ExecFrom(sts, [], s, o, quiet, cleaning)
  }

  /** The rest of a block in which the blocks `deferred` have been registered. */
  function ExecFrom(sts: seq<Stmt>, deferred: seq<seq<Stmt>>, s: State, o: Oracle, quiet: bool, cleaning: bool): (r: Outcome)
    ensures FuelOf(r) <= s.fuel
    decreases s.fuel, if cleaning then 0 else 2, sts, 1
  {
    if sts == [] then (if cleaning then Normal(s) else Cleanup(deferred, Normal(s), o))
    else
      var r := Exec(sts[0], s, o, quiet, cleaning);
      if r.Normal? then ExecFrom(sts[1..], Register(deferred, sts[0], cleaning), r.s, o, quiet, cleaning)
      else if cleaning then r
      else Cleanup(deferred, r, o)
  }

  function Register(deferred: seq<seq<Stmt>>, st: Stmt, cleaning: bool): seq<seq<Stmt>> {
    if st.Defer? && !cleaning then deferred + [st.body] else deferred
  }

  /** Runs deferred blocks, last first, on the way out for the given reason. */
  function Cleanup(deferred: seq<seq<Stmt>>, r: Outcome, o: Oracle): (c: Outcome)
    ensures FuelOf(c) <= FuelOf(r)
    decreases FuelOf(r), 1, |deferred|, 0
  {
    if deferred == [] || r.Trapped? || r.OutOfFuel? then r
    else
      var n := |deferred| - 1;
      var d := ExecBlock(deferred[n], r.s, o, r.Unwinding? && r.quiet, true);
      Cleanup(deferred[..n], Resume(r, d), o)
  }

  /** After a deferred block: the old reason goes on, unless the block itself ended the run or began to unwind. */
  function Resume(r: Outcome, d: Outcome): Outcome
    requires !r.Trapped? && !r.OutOfFuel?
  {
    if !d.Normal? then d
    else
      match r
      case Normal(_) => Normal(d.s)
      case Broke(target, _) => Broke(target, d.s)
      case Continued(target, _) => Continued(target, d.s)
      case Returned(_) => Returned(d.s)
      case Unwinding(_, quiet) => Unwinding(d.s, quiet)
  }

  /** The language's rule for deferred blocks: no transfers out of them, no nested defer. */
  predicate Clean(st: Stmt) {
    match st
    case Do(_) => true
    case Panic(_) => true
    case If(_, thn, els) => CleanAll(thn) && CleanAll(els)
    case Loop(_, _, body) => CleanAll(body)
    case For(_, _, body) => CleanAll(body)
    case Case(_, arms) => forall i :: 0 <= i < |arms| ==> CleanAll(arms[i].body)
    case _ => false
  }

  predicate CleanAll(sts: seq<Stmt>) {
    forall i :: 0 <= i < |sts| ==> Clean(sts[i])
  }

  /** Transfers name enclosing loops, loops in one another have different names, deferred blocks are clean. */
  predicate WellFormed(st: Stmt, loops: set<nat>) {
    match st
    case If(_, thn, els) => WellFormedAll(thn, loops) && WellFormedAll(els, loops)
    case Loop(id, _, body) => id !in loops && WellFormedAll(body, loops + {id})
    case For(id, _, body) => id !in loops && WellFormedAll(body, loops + {id})
    case Break(target) => target in loops
    case Continue(target) => target in loops
    case Defer(_, body) => CleanAll(body) && WellFormedAll(body, {})
    case Case(_, arms) => forall i :: 0 <= i < |arms| ==> WellFormedAll(arms[i].body, loops)
    case _ => true
  }

  predicate WellFormedAll(sts: seq<Stmt>, loops: set<nat>) {
    forall i :: 0 <= i < |sts| ==> WellFormed(sts[i], loops)
  }
}
