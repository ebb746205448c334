/**
 Lowering of control flow to structured WebAssembly code, with deferred blocks inlined at
 every exit and branch targets as label indices relative to the nesting depth.
 */
module WasmControl {
  import opened ControlFlow
  import opened Ranges

  /** The operand a conditional instruction consumes. */
  datatype Operand = Constant(value: bool) | Tested(test: nat) | Negated(test: nat)

  datatype Code =
    | Act(event: nat)
    | Block(body: seq<Code>)
    | Repeat(body: seq<Code>)
    | IfThen(operand: Operand, thn: seq<Code>)
    | IfElse(operand: Operand, thn: seq<Code>, els: seq<Code>)
    | Br(index: nat)
    | BrUnless(operand: Operand, index: nat)
    | Counted(range: Range, body: seq<Code>)
    | Leave
    | Unreachable

  datatype Result<S> =
    | Next(s: S)
    | Branch(index: nat, s: S)
    | Left(s: S)
    | Trap(s: S)
    | NoFuel
    | Invalid

  function Holds(operand: Operand, s: State, o: Oracle): bool {
    match operand
    case Constant(b) => b
    case Tested(test) => o.test(test, s.trace)
    case Negated(test) => !o.test(test, s.trace)
  }

  /** Leaving a structured instruction: its own label is index 0 inside it. */
  function Unlabel<S>(r: Result<S>): Result<S> {
    if r.Branch? then (if r.index == 0 then Next(r.s) else Branch(r.index - 1, r.s)) else r
  }

  function Remaining(r: Result<State>): nat {
    if r.NoFuel? || r.Invalid? then 0 else r.s.fuel
  }

  /** Execution of instructions, section 4.4.5 of the WebAssembly Core Specification 1.0; fuel bounds loop iterations. */
  function RunOne(c: Code, s: State, o: Oracle): (r: Result<State>)
    ensures Remaining(r) <= s.fuel
    decreases s.fuel, c, 1
  {
    match c
    case Act(event) => Next(Emit(s, Happened(event)))
    case Block(body) => Unlabel(RunAll(body, s, o))
    case Repeat(body) =>
      if s.fuel == 0 then NoFuel
      else
        var r := RunAll(body, Spend(s), o);
        if r.Branch? && r.index == 0 then RunOne(c, r.s, o) else Unlabel(r)
    case IfThen(operand, thn) => if Holds(operand, s, o) then Unlabel(RunAll(thn, s, o)) else Next(s)
    case IfElse(operand, thn, els) =>
      Unlabel(if Holds(operand, s, o) then RunAll(thn, s, o) else RunAll(els, s, o))
    case Br(index) => Branch(index, s)
    case BrUnless(operand, index) => if Holds(operand, s, o) then Next(s) else Branch(index, s)
    case Counted(range, _) =>
      RunCounted(c, BoundOf(range.typ, range.first, s, o), BoundOf(range.typ, range.last, s, o), 0, s, o)
    case Leave => Left(s)
    case Unreachable => Trap(s)
  }

  /**
   A range loop from its `n`-th integer on, standing for a block around a loop around a block
   with the body: label 1 inside the body is the loop's own, label 2 is behind it.
   */
  function RunCounted(c: Code, first: int, last: int, n: nat, s: State, o: Oracle): (r: Result<State>)
    requires c.Counted?
    ensures Remaining(r) <= s.fuel
    decreases s.fuel, c, 0
  {
    var range, count := c.range, Count(first, last, c.range.inclusive);
    if s.fuel == 0 then NoFuel
    else if n >= count then Next(Spend(s))
    else
      var value := Nth(first, last, range.inclusive, range.reverse, n);
      var x := Unlabel(RunAll(c.body, Emit(Spend(s), Visited(range.local, value)), o));
      if x.Next? then
        if range.inclusive && n + 1 == count then Next(x.s) else RunCounted(c, first, last, n + 1, x.s, o)
      else if x.Branch? && x.index == 0 then RunCounted(c, first, last, n, x.s, o)
      else Unlabel(Unlabel(x))
  }

  function RunAll(code: seq<Code>, s: State, o: Oracle): (r: Result<State>)
    ensures Remaining(r) <= s.fuel
    decreases s.fuel, code, 2
  {
    if code == [] then Next(s)
    else
      var r := RunOne(code[0], s, o);
      if r.Next? then RunAll(code[1..], r.s, o) else r
  }

  // ----- the lowering -----

  datatype LoopInfo = LoopInfo(breakDepth: nat, continueDepth: nat, deferCount: nat)

  /** What the backend tracks while it emits: open labels, pending deferred blocks, loops, and its mode. */
  datatype Env = Env(depth: nat, defers: seq<seq<Stmt>>, loops: map<nat, LoopInfo>, unwinding: bool, cleaning: bool)

  function Nest(env: Env, levels: nat): Env {
    env.(depth := env.depth + levels)
  }

  /** The relative label of the structured instruction opened at depth `target`. */
  function LabelOf(env: Env, target: nat): nat {
    if target < env.depth then env.depth - target - 1 else 0
  }

  /** Inside the block around a loop's body: `break` leaves the block around the loop, `continue` the one around the body. */
  function InLoop(env: Env, id: nat): Env {
    Nest(env, 3).(loops := env.loops[id := LoopInfo(env.depth, env.depth + 2, |env.defers|)])
  }

  function Level(env: Env): nat {
    if env.cleaning then |env.defers| else 0
  }

  /** Code of the deferred blocks above `to`, topmost first; each sees only the blocks below it as pending. */
  function DefersCode(env: Env, to: nat): seq<Code>
    decreases 0, |env.defers|, 0, 0, 0
  {
    if |env.defers| <= to then []
    else
      var n := |env.defers| - 1;
      var below := env.(defers := env.defers[..n]);
      BlockCode(env.defers[n], below.(cleaning := true)) + DefersCode(below, to)
  }

  /** The arm of a failed check: cleanups, unless the code already runs some for a failed check, then a trap. */
  function FailCode(env: Env): seq<Code>
    decreases if env.cleaning then 0 else 1, Level(env), 1, 0, 0
  {
    (if env.unwinding then [] else DefersCode(Nest(env, 1).(unwinding := true), 0)) + [Unreachable]
  }

  function ExprCode(e: Expr, env: Env): seq<Code>
    decreases if env.cleaning then 0 else 1, Level(env), 2, |e|, 0
  {
    if e == [] then []
    else
      (match e[0]
       case Effect(event) => [Act(event)]
       case Check(test) => [IfThen(Negated(test), FailCode(env))])
      + ExprCode(e[1..], env)
  }

  function CondCode(cond: Cond, env: Env): seq<Code>
    decreases if env.cleaning then 0 else 1, Level(env), 3, 0, 0
  {
    if cond.Known? then [] else ExprCode(cond.operands, env)
  }

  function CondOperand(cond: Cond): Operand {
    if cond.Known? then Constant(cond.value) else Tested(cond.test)
  }

  function StmtCode(st: Stmt, env: Env): seq<Code>
    decreases if env.cleaning then 0 else 1, Level(env), 4, st, 1
  {
    match st
    case Do(e) => ExprCode(e, env)
    case If(Known(b), thn, els) => BlockCode(if b then thn else els, env)
    case If(Asked(operands, test), thn, els) =>
      ExprCode(operands, env) +
      [if els == [] then IfThen(Tested(test), BlockCode(thn, Nest(env, 1)))
       else IfElse(Tested(test), BlockCode(thn, Nest(env, 1)), BlockCode(els, Nest(env, 1)))]
    case Loop(id, cond, body) =>
      var atLoop := Nest(env, 2);
      [Block([Repeat(CondCode(cond, atLoop) +
                     [BrUnless(CondOperand(cond), LabelOf(atLoop, env.depth)),
                      Block(BlockCode(body, InLoop(env, id))),
                      Br(LabelOf(atLoop, env.depth + 1))])])]
    case For(id, range, body) =>
      ExprCode(range.operands, env) + [Counted(range, BlockCode(body, InLoop(env, id)))]
    case Break(target) =>
      if target !in env.loops then []
      else DefersCode(env, env.loops[target].deferCount) + [Br(LabelOf(env, env.loops[target].breakDepth))]
    case Continue(target) =>
      if target !in env.loops then []
      else DefersCode(env, env.loops[target].deferCount) + [Br(LabelOf(env, env.loops[target].continueDepth))]
    case Return(e) => ExprCode(e, env) + DefersCode(env, 0) + [Leave]
    case Panic(e) => ExprCode(e, env) + DefersCode(env, 0) + [Unreachable]
    case Defer(captures, _) => ExprCode(captures, env)
    case Case(subject, arms) => ExprCode(subject, env) + [Block(ArmsCode(arms, Nest(env, 1), env.depth) + [Unreachable])]
  }

  function ArmsCode(arms: seq<Arm>, env: Env, done: nat): seq<Code>
    decreases if env.cleaning then 0 else 1, Level(env), 4, arms, 0
  {
    if arms == [] then []
    else
      [IfThen(Tested(arms[0].test), BlockCode(arms[0].body, Nest(env, 1)) + [Br(LabelOf(Nest(env, 1), done))])]
      + ArmsCode(arms[1..], env, done)
  }

  function BlockCode(sts: seq<Stmt>, env: Env): seq<Code>
    decreases if env.cleaning then 0 else 1, Level(env), 4, sts, 2
  {
    FromCode(sts, env, |env.defers|)
  }

  /** The rest of a block whose own deferred blocks are those above `base`. */
  function FromCode(sts: seq<Stmt>, env: Env, base: nat): seq<Code>
    decreases if env.cleaning then 0 else 1, Level(env), 4, sts, 1
  {
    if sts == [] then DefersCode(env, base)
    else
      StmtCode(sts[0], env) +
      FromCode(sts[1..], env.(defers := Register(env.defers, sts[0], env.cleaning)), base)
  }
}
