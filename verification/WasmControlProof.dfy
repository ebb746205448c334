/** The lowered code of a function does what its statements mean. */
module WasmControlProof {
  import opened ControlFlow
  import opened Ranges
  import opened WasmControl

  // ----- running code in sequence -----

  lemma {:induction false} RunAppend(a: seq<Code>, b: seq<Code>, s: State, o: Oracle)
    ensures var r := RunAll(a, s, o);
            RunAll(a + b, s, o) == if r.Next? then RunAll(b, r.s, o) else r
  {
    if a == [] {
      assert a + b == b;
    } else {
      assert (a + b)[0] == a[0] && (a + b)[1..] == a[1..] + b;
      var r := RunOne(a[0], s, o);
      if r.Next? {
        RunAppend(a[1..], b, r.s, o);
      }
    }
  }

  lemma RunSingle(c: Code, s: State, o: Oracle)
    ensures RunAll([c], s, o) == RunOne(c, s, o)
  {
  }

  // ----- cleanups -----

  /** Running two groups of deferred blocks is running them one after the other. */
  lemma {:induction false} CleanupSplit(a: seq<seq<Stmt>>, b: seq<seq<Stmt>>, r: Outcome, o: Oracle)
    ensures Cleanup(a + b, r, o) == Cleanup(a, Cleanup(b, r, o), o)
    decreases |b|
  {
    if b == [] {
      assert a + b == a;
    } else if !r.Trapped? && !r.OutOfFuel? {
      var n := |b| - 1;
      assert (a + b)[..|a + b| - 1] == a + b[..n] && (a + b)[|a + b| - 1] == b[n];
      var d := ExecBlock(b[n], r.s, o, r.Unwinding? && r.quiet, true);
      CleanupSplit(a, b[..n], Resume(r, d), o);
    }
  }

  /** Deferred blocks end normally, by unwinding, or with the run. */
  predicate Tame(r: Outcome) {
    r.Normal? || r.Unwinding? || r.Trapped? || r.OutOfFuel?
  }

  lemma {:induction false} CleanTame(st: Stmt, s: State, o: Oracle, quiet: bool)
    requires Clean(st)
    ensures Tame(Exec(st, s, o, quiet, true))
    decreases s.fuel, st, 1
  {
    match st
    case If(cond, thn, els) =>
      CleanTameAll(if cond.Known? && cond.value then thn else els, s, o, quiet);
      if cond.Asked? {
        var r := Evaluate(cond.operands, s, o, quiet);
        if r.Normal? {
          CleanTameAll(thn, r.s, o, quiet);
          CleanTameAll(els, r.s, o, quiet);
        }
      }
    case Loop(id, cond, body) =>
      if s.fuel > 0 {
        var r := if cond.Known? then Normal(Spend(s)) else Evaluate(cond.operands, Spend(s), o, quiet);
        if r.Normal? {
          CleanTameAll(body, r.s, o, quiet);
          var b := ExecBlock(body, r.s, o, quiet, true);
          if b.Normal? {
            CleanTame(st, b.s, o, quiet);
          }
        }
      }
    case For(id, range, body) =>
      var r := Evaluate(range.operands, s, o, quiet);
      if r.Normal? {
        CleanTameRange(st, BoundOf(range.typ, range.first, r.s, o), BoundOf(range.typ, range.last, r.s, o), 0, r.s, o, quiet);
      }
    case Case(subject, arms) =>
      var r := Evaluate(subject, s, o, quiet);
      if r.Normal? {
        CleanTameArms(arms, r.s, o, quiet);
      }
    case _ =>
  }

  lemma {:induction false} CleanTameRange(st: Stmt, first: int, last: int, n: nat, s: State, o: Oracle, quiet: bool)
    requires st.For? && Clean(st)
    ensures Tame(ExecRange(st, first, last, n, s, o, quiet, true))
    decreases s.fuel, st, 0
  {
    var count := Count(first, last, st.range.inclusive);
    if s.fuel > 0 && n < count {
      var value := Nth(first, last, st.range.inclusive, st.range.reverse, n);
      var s1 := Emit(Spend(s), Visited(st.range.local, value));
      CleanTameAll(st.body, s1, o, quiet);
      var b := ExecBlock(st.body, s1, o, quiet, true);
      if b.Normal? {
        CleanTameRange(st, first, last, n + 1, b.s, o, quiet);
      }
    }
  }

  lemma {:induction false} CleanTameArms(arms: seq<Arm>, s: State, o: Oracle, quiet: bool)
    requires forall i :: 0 <= i < |arms| ==> CleanAll(arms[i].body)
    ensures Tame(ExecArms(arms, s, o, quiet, true))
    decreases s.fuel, arms, 0
  {
    if arms != [] {
      if o.test(arms[0].test, s.trace) {
        CleanTameAll(arms[0].body, s, o, quiet);
      } else {
        CleanTameArms(arms[1..], s, o, quiet);
      }
    }
  }

  lemma {:induction false} CleanTameAll(sts: seq<Stmt>, s: State, o: Oracle, quiet: bool)
    requires CleanAll(sts)
    ensures Tame(ExecBlock(sts, s, o, quiet, true))
    decreases s.fuel, sts, 2
  {
    CleanTameFrom(sts, s, o, quiet);
  }

  lemma {:induction false} CleanTameFrom(sts: seq<Stmt>, s: State, o: Oracle, quiet: bool)
    requires CleanAll(sts)
    ensures Tame(ExecFrom(sts, [], s, o, quiet, true))
    decreases s.fuel, sts, 1
  {
    if sts != [] {
      CleanTame(sts[0], s, o, quiet);
      var r := Exec(sts[0], s, o, quiet, true);
      if r.Normal? {
        CleanTameFrom(sts[1..], r.s, o, quiet);
      }
    }
  }

  predicate CleanBlocks(blocks: seq<seq<Stmt>>) {
    forall i :: 0 <= i < |blocks| ==> CleanAll(blocks[i]) && WellFormedAll(blocks[i], {})
  }

  /** Cleaning up keeps the reason, unless a deferred block ends the run or starts to unwind. */
  lemma {:induction false} CleanupKeeps(blocks: seq<seq<Stmt>>, r: Outcome, o: Oracle)
    requires CleanBlocks(blocks)
    ensures var c := Cleanup(blocks, r, o);
            || c.Unwinding? || c.Trapped? || c.OutOfFuel?
            || (r.Normal? && c.Normal?) || (r.Returned? && c.Returned?)
            || (r.Broke? && c.Broke? && c.target == r.target)
            || (r.Continued? && c.Continued? && c.target == r.target)
    decreases |blocks|
  {
    if blocks != [] && !r.Trapped? && !r.OutOfFuel? {
      var n := |blocks| - 1;
      CleanTameAll(blocks[n], r.s, o, r.Unwinding? && r.quiet);
      var d := ExecBlock(blocks[n], r.s, o, r.Unwinding? && r.quiet, true);
      CleanupKeeps(blocks[..n], Resume(r, d), o);
    }
  }

  // ----- what lowered code should do -----

  /** The backend's bookkeeping is consistent. */
  predicate Valid(env: Env) {
    && (env.unwinding ==> env.cleaning)
    && CleanBlocks(env.defers)
    && (!env.cleaning ==> forall id :: id in env.loops ==>
          env.loops[id].breakDepth < env.depth && env.loops[id].continueDepth < env.depth &&
          env.loops[id].deferCount <= |env.defers|)
  }

  /** How many pending deferred blocks an exit leaves alone. */
  function Cut(r: Outcome, env: Env): nat {
    if (r.Broke? || r.Continued?) && r.target in env.loops then env.loops[r.target].deferCount else 0
  }

  function Finish(r: Outcome): Result<State> {
    match r
    case OutOfFuel => NoFuel
    case _ => Trap(r.s)
  }

  /** The effect on the machine of leaving a statement for reason `r`: cleanups, then the transfer. */
  function Exits(r: Outcome, env: Env, o: Oracle): Result<State> {
    if r.Normal? then Next(r.s)
    else
      var c := Cut(r, env);
      if c > |env.defers| then NoFuel
      else Transfer(Cleanup(env.defers[c..], r, o), env.defers[..c], env, o)
  }

  /** The transfer after the cleanups of an exit; unwinding goes on with the remaining deferred blocks. */
  function Transfer(r: Outcome, rest: seq<seq<Stmt>>, env: Env, o: Oracle): Result<State> {
    match r
    case Normal(s) => Next(s)
    case Broke(target, s) => if target in env.loops then Branch(LabelOf(env, env.loops[target].breakDepth), s) else NoFuel
    case Continued(target, s) => if target in env.loops then Branch(LabelOf(env, env.loops[target].continueDepth), s) else NoFuel
    case Returned(s) => Left(s)
    case Unwinding(_, _) => Finish(Cleanup(rest, r, o))
    case Trapped(s) => Trap(s)
    case OutOfFuel => NoFuel
  }

  /** Unwinding leaves no deferred block out. */
  lemma UnwindingExits(r: Outcome, d: seq<seq<Stmt>>, c: nat, env: Env, o: Oracle)
    requires CleanBlocks(d) && c <= |d| && (r.Unwinding? || r.Trapped? || r.OutOfFuel?)
    ensures Transfer(Cleanup(d[c..], r, o), d[..c], env, o) == Finish(Cleanup(d, r, o))
  {
    assert d == d[..c] + d[c..];
    CleanupSplit(d[..c], d[c..], r, o);
    CleanupKeeps(d[c..], r, o);
  }

  /** Leaving for `r` out of a block with its own deferred blocks is cleaning these up and leaving the rest. */
  lemma ExitsSplit(r: Outcome, env: Env, own: seq<seq<Stmt>>, o: Oracle)
    requires Valid(env) && !env.cleaning && CleanBlocks(own) && !r.Normal?
    requires (r.Broke? || r.Continued?) ==> r.target in env.loops
    ensures Exits(r, env.(defers := env.defers + own), o) == Exits(Cleanup(own, r, o), env, o)
  {
    hide Cleanup;
    var c, d := Cut(r, env), env.defers;
    var env' := env.(defers := d + own);
    var r1 := Cleanup(own, r, o);
    assert (d + own)[c..] == d[c..] + own && (d + own)[..c] == d[..c];
    CleanupSplit(d[c..], own, r, o);
    CleanupKeeps(own, r, o);
    assert Exits(r, env', o) == Transfer(Cleanup(d[c..], r1, o), d[..c], env', o);
    if r1.Unwinding? || r1.Trapped? || r1.OutOfFuel? {
      UnwindingExits(r1, d, c, env', o);
      UnwindingExits(r1, d, 0, env, o);
    } else {
      assert Cut(r1, env) == c;
    }
  }

  /** Entering a structured instruction does not change where exits go. */
  lemma ExitsNest(r: Outcome, env: Env, o: Oracle)
    requires Valid(env) && (env.cleaning ==> Tame(r))
    ensures Unlabel(Exits(r, Nest(env, 1), o)) == Exits(r, env, o)
  {
    var c := Cut(r, env);
    if !r.Normal? && c <= |env.defers| {
      CleanupKeeps(env.defers[c..], r, o);
    }
  }

  // ----- inlined deferred blocks -----

  /** Inlined code runs inside deferred blocks, where no loop can be left. */
  function Inlined(env: Env, n: nat): Env
    requires n <= |env.defers|
  {
    env.(defers := env.defers[..n], cleaning := true)
  }

  /** The effect of the inlined deferred blocks above `to` on the way out for `r`. */
  function DefersRun(env: Env, to: nat, r: Outcome, o: Oracle): Result<State>
    requires !r.Trapped? && !r.OutOfFuel?
    decreases |env.defers|
  {
    if |env.defers| <= to then Next(r.s)
    else
      var n := |env.defers| - 1;
      var d := ExecBlock(env.defers[n], r.s, o, r.Unwinding? && r.quiet, true);
      if d.Normal? then DefersRun(env.(defers := env.defers[..n]), to, Resume(r, d), o)
      else Exits(d, Inlined(env, n), o)
  }

  /** The same reason at a later point of the run. */
  function At(r: Outcome, s: State): Outcome
    requires !r.Trapped? && !r.OutOfFuel?
  {
    Resume(r, Normal(s))
  }

  /** Inlined deferred blocks clean up: either all ran, or the machine already did the rest of the exit. */
  lemma {:induction false} DefersRunCleans(env: Env, to: nat, r: Outcome, o: Oracle)
    requires CleanBlocks(env.defers) && to <= |env.defers| && !r.Trapped? && !r.OutOfFuel?
    ensures var c, x := Cleanup(env.defers[to..], r, o), DefersRun(env, to, r, o);
            if x.Next? then c == At(r, x.s)
            else (c.Unwinding? || c.Trapped? || c.OutOfFuel?) && x == Transfer(c, env.defers[..to], env, o)
    decreases |env.defers|
  {
    hide ExecBlock, Exits;
    if |env.defers| > to {
      var n, blocks := |env.defers| - 1, env.defers;
      var d := ExecBlock(blocks[n], r.s, o, r.Unwinding? && r.quiet, true);
      CleanTameAll(blocks[n], r.s, o, r.Unwinding? && r.quiet);
      assert blocks[to..][|blocks[to..]| - 1] == blocks[n] && blocks[to..][..|blocks[to..]| - 1] == blocks[..n][to..];
      assert blocks[..n][..to] == blocks[..to];
      assert Cleanup(blocks[to..], r, o) == Cleanup(blocks[..n][to..], Resume(r, d), o);
      if d.Normal? {
        DefersRunCleans(env.(defers := blocks[..n]), to, Resume(r, d), o);
      } else {
        Interrupted(env, n, to, d, o);
      }
    }
  }

  /** A deferred block that does not end normally has the machine run what is left of the exit. */
  lemma Interrupted(env: Env, n: nat, to: nat, d: Outcome, o: Oracle)
    requires CleanBlocks(env.defers) && to <= n <= |env.defers| && (d.Unwinding? || d.Trapped? || d.OutOfFuel?)
    ensures var blocks := env.defers[..n];
            var c := Cleanup(blocks[to..], d, o);
            && (c.Unwinding? || c.Trapped? || c.OutOfFuel?)
            && Exits(d, Inlined(env, n), o) == Transfer(c, blocks[..to], env, o)
            && !Exits(d, Inlined(env, n), o).Next?
  {
    var blocks := env.defers[..n];
    UnwindingExits(d, blocks, to, env, o);
    UnwindingExits(d, blocks, 0, Inlined(env, n), o);
    CleanupKeeps(blocks[to..], d, o);
    assert blocks[0..] == blocks;
  }

  // ----- the lowering, construct by construct -----

  predicate InScope(r: Outcome, scope: set<nat>) {
    r.Broke? || r.Continued? ==> r.target in scope
  }

  /** Statements that may be lowered in an environment: their transfers name loops it knows. */
  predicate Lowerable(env: Env, scope: set<nat>) {
    Valid(env) && scope <= env.loops.Keys
  }

  lemma {:induction false} DefersCorrect(env: Env, to: nat, r: Outcome, o: Oracle)
    requires CleanBlocks(env.defers) && !r.Trapped? && !r.OutOfFuel? && env.unwinding == (r.Unwinding? && r.quiet)
    ensures RunAll(DefersCode(env, to), r.s, o) == DefersRun(env, to, r, o)
    decreases r.s.fuel, 0, |env.defers|, 0, 0, 0
  {
    if |env.defers| > to {
      var n := |env.defers| - 1;
      var below, body := env.(defers := env.defers[..n]), env.defers[n];
      var inline := Inlined(env, n);
      BlockCorrect(body, inline, {}, r.s, o);
      RunAppend(BlockCode(body, inline), DefersCode(below, to), r.s, o);
      var d := ExecBlock(body, r.s, o, env.unwinding, true);
      CleanTameAll(body, r.s, o, env.unwinding);
      if d.Normal? {
        DefersCorrect(below, to, Resume(r, d), o);
      } else {
        UnwindingExits(d, env.defers[..n], 0, inline, o);
        assert env.defers[..n][0..] == env.defers[..n];
      }
    }
  }

  /** Cleanups inlined in front of a trap. */
  lemma {:induction false} UnwindCorrect(env: Env, r: Outcome, o: Oracle)
    requires CleanBlocks(env.defers) && r.Unwinding? && env.unwinding == r.quiet
    ensures RunAll(DefersCode(env, 0) + [Unreachable], r.s, o) == Finish(Cleanup(env.defers, r, o))
    decreases r.s.fuel, 0, |env.defers|, 1, 0, 0
  {
    DefersCorrect(env, 0, r, o);
    RunAppend(DefersCode(env, 0), [Unreachable], r.s, o);
    DefersRunCleans(env, 0, r, o);
    assert env.defers[0..] == env.defers && env.defers[..0] == [];
  }

  lemma UnwindExits(env: Env, r: Outcome, o: Oracle)
    requires CleanBlocks(env.defers) && (r.Unwinding? || r.Trapped? || r.OutOfFuel?)
    ensures Exits(r, env, o) == Finish(Cleanup(env.defers, r, o))
  {
    UnwindingExits(r, env.defers, 0, env, o);
    assert env.defers[0..] == env.defers;
  }

  lemma {:induction false} FailCorrect(env: Env, s: State, o: Oracle)
    requires Valid(env)
    ensures RunAll(FailCode(env), s, o) ==
            Exits(if env.unwinding then Trapped(s) else Unwinding(s, true), env, o)
    ensures var x := RunAll(FailCode(env), s, o); x.Trap? || x.NoFuel?
    decreases s.fuel, if env.cleaning then 0 else 1, Level(env), 2, 0, 0
  {
    if env.unwinding {
      assert [] + [Unreachable] == [Unreachable];
      UnwindExits(env, Trapped(s), o);
    } else {
      UnwindCorrect(Nest(env, 1).(unwinding := true), Unwinding(s, true), o);
      UnwindExits(env, Unwinding(s, true), o);
    }
  }

  lemma {:induction false} ExprCorrect(e: Expr, env: Env, s: State, o: Oracle)
    requires Valid(env)
    ensures RunAll(ExprCode(e, env), s, o) == Exits(Evaluate(e, s, o, env.unwinding), env, o)
    decreases s.fuel, if env.cleaning then 0 else 1, Level(env), 3, |e|, 0
  {
    if e != [] {
      var rest := ExprCode(e[1..], env);
      match e[0]
      case Effect(event) =>
        RunAppend([Act(event)], rest, s, o);
        RunSingle(Act(event), s, o);
        ExprCorrect(e[1..], env, Emit(s, Happened(event)), o);
      case Check(test) =>
        var guard := IfThen(Negated(test), FailCode(env));
        RunAppend([guard], rest, s, o);
        RunSingle(guard, s, o);
        if o.test(test, s.trace) {
          ExprCorrect(e[1..], env, s, o);
        } else {
          FailCorrect(env, s, o);
        }
    }
  }

  /** An exit statement: inlined cleanups down to the target's level, then the transfer. */
  lemma {:induction false} ExitCorrect(env: Env, r: Outcome, transfer: Code, o: Oracle)
    requires Valid(env) && (r.Broke? || r.Continued? || r.Returned?) && !env.cleaning && InScope(r, env.loops.Keys)
    requires transfer == if r.Returned? then Leave
                         else if r.Broke? then Br(LabelOf(env, env.loops[r.target].breakDepth))
                         else Br(LabelOf(env, env.loops[r.target].continueDepth))
    ensures RunAll(DefersCode(env, Cut(r, env)) + [transfer], r.s, o) == Exits(r, env, o)
    decreases r.s.fuel, if env.cleaning then 0 else 1, Level(env), 3, 0, 0
  {
    var c := Cut(r, env);
    DefersCorrect(env, c, r, o);
    RunAppend(DefersCode(env, c), [transfer], r.s, o);
    DefersRunCleans(env, c, r, o);
    var x := DefersRun(env, c, r, o);
    if x.Next? {
      RunSingle(transfer, x.s, o);
    }
  }

  lemma {:induction false} StmtCorrect(st: Stmt, env: Env, scope: set<nat>, s: State, o: Oracle)
    requires Lowerable(env, scope) && WellFormed(st, scope) && (env.cleaning ==> Clean(st))
    ensures var r := Exec(st, s, o, env.unwinding, env.cleaning);
            RunAll(StmtCode(st, env), s, o) == Exits(r, env, o) && InScope(r, scope)
    decreases s.fuel, if env.cleaning then 0 else 1, Level(env), 4, st, 3
  {
    match st
    case Do(e) => ExprCorrect(e, env, s, o);
    case Defer(captures, _) => ExprCorrect(captures, env, s, o);
    case If(cond, thn, els) =>
      if cond.Known? {
        BlockCorrect(if cond.value then thn else els, env, scope, s, o);
      } else {
        IfCorrect(st, env, scope, s, o);
      }
    case Loop(id, cond, body) =>
      LoopCorrect(st, env, scope, s, o);
      RunSingle(StmtCode(st, env)[0], s, o);
      RunSingle(StmtCode(st, env)[0].body[0], s, o);
    case For(_, _, _) => ForCorrect(st, env, scope, s, o);
    case Break(target) => ExitCorrect(env, Broke(target, s), Br(LabelOf(env, env.loops[target].breakDepth)), o);
    case Continue(target) => ExitCorrect(env, Continued(target, s), Br(LabelOf(env, env.loops[target].continueDepth)), o);
    case Return(_) => LeaveCorrect(st, env, scope, s, o);
    case Panic(_) => LeaveCorrect(st, env, scope, s, o);
    case Case(subject, arms) => CaseCorrect(st, env, scope, s, o);
  }

  /** Returning and panicking. */
  lemma {:induction false} LeaveCorrect(st: Stmt, env: Env, scope: set<nat>, s: State, o: Oracle)
    requires st.Return? || st.Panic?
    requires Lowerable(env, scope) && WellFormed(st, scope) && (env.cleaning ==> Clean(st))
    ensures var r := Exec(st, s, o, env.unwinding, env.cleaning);
            RunAll(StmtCode(st, env), s, o) == Exits(r, env, o) && InScope(r, scope)
    decreases s.fuel, if env.cleaning then 0 else 1, Level(env), 4, st, 0
  {
    hide Cleanup, DefersCode;
    var e, last := st.e, if st.Return? then Leave else Unreachable;
    ExprCorrect(e, env, s, o);
    assert StmtCode(st, env) == ExprCode(e, env) + (DefersCode(env, 0) + [last]);
    RunAppend(ExprCode(e, env), DefersCode(env, 0) + [last], s, o);
    var r := Evaluate(e, s, o, env.unwinding);
    if !r.Normal? {
      UnwindExits(env, r, o);
    } else if st.Return? {
      ExitCorrect(env, Returned(r.s), Leave, o);
    } else {
      UnwindCorrect(env, Unwinding(r.s, env.unwinding), o);
      UnwindExits(env, Unwinding(r.s, env.unwinding), o);
    }
  }

  lemma {:induction false} ForCorrect(st: Stmt, env: Env, scope: set<nat>, s: State, o: Oracle)
    requires st.For?
    requires Lowerable(env, scope) && WellFormed(st, scope) && (env.cleaning ==> Clean(st))
    ensures var r := Exec(st, s, o, env.unwinding, env.cleaning);
            RunAll(StmtCode(st, env), s, o) == Exits(r, env, o) && InScope(r, scope)
    decreases s.fuel, if env.cleaning then 0 else 1, Level(env), 4, st, 2
  {
    hide Cleanup, DefersCode, BlockCode, ExecRange, RunCounted, ExecBlock;
    var range, operands := st.range, ExprCode(st.range.operands, env);
    var loop := Counted(range, BlockCode(st.body, InLoop(env, st.id)));
    ExprCorrect(range.operands, env, s, o);
    RunAppend(operands, [loop], s, o);
    var r := Evaluate(range.operands, s, o, env.unwinding);
    if r.Normal? {
      RunSingle(loop, r.s, o);
      RangeCorrect(st, env, scope, BoundOf(range.typ, range.first, r.s, o), BoundOf(range.typ, range.last, r.s, o), 0, r.s, o);
    } else {
      UnwindExits(env, r, o);
    }
  }

  lemma EmptyBlock(s: State, o: Oracle, quiet: bool, cleaning: bool)
    ensures ExecBlock([], s, o, quiet, cleaning) == Normal(s)
  {
    assert ExecFrom([], [], s, o, quiet, cleaning) == Normal(s) by {
      assert Cleanup([], Normal(s), o) == Normal(s);
    }
  }

  lemma {:induction false} IfCorrect(st: Stmt, env: Env, scope: set<nat>, s: State, o: Oracle)
    requires st.If? && st.cond.Asked?
    requires Lowerable(env, scope) && WellFormed(st, scope) && (env.cleaning ==> Clean(st))
    ensures var r := Exec(st, s, o, env.unwinding, env.cleaning);
            RunAll(StmtCode(st, env), s, o) == Exits(r, env, o) && InScope(r, scope)
    decreases s.fuel, if env.cleaning then 0 else 1, Level(env), 4, st, 0
  {
    hide Cleanup, DefersCode;
    var operands, inner := ExprCode(st.cond.operands, env), Nest(env, 1);
    var branch := StmtCode(st, env)[|operands|];
    ExprCorrect(st.cond.operands, env, s, o);
    RunAppend(operands, [branch], s, o);
    var r := Evaluate(st.cond.operands, s, o, env.unwinding);
    if r.Normal? {
      RunSingle(branch, r.s, o);
      var taken := if o.test(st.cond.test, r.s.trace) then st.thn else st.els;
      BlockCorrect(taken, inner, scope, r.s, o);
      var b := ExecBlock(taken, r.s, o, env.unwinding, env.cleaning);
      if env.cleaning {
        CleanTameAll(taken, r.s, o, env.unwinding);
      }
      ExitsNest(b, env, o);
      EmptyBlock(r.s, o, env.unwinding, env.cleaning);
    } else {
      UnwindExits(env, r, o);
    }
  }

  lemma NeverFallsThrough(r: Outcome, env: Env, o: Oracle)
    requires CleanBlocks(env.defers) && !r.Normal?
    ensures !Exits(r, env, o).Next?
  {
    var c := Cut(r, env);
    if c <= |env.defers| {
      CleanupKeeps(env.defers[c..], r, o);
    }
  }

  lemma {:induction false} CaseCorrect(st: Stmt, env: Env, scope: set<nat>, s: State, o: Oracle)
    requires st.Case?
    requires Lowerable(env, scope) && WellFormed(st, scope) && (env.cleaning ==> Clean(st))
    ensures var r := Exec(st, s, o, env.unwinding, env.cleaning);
            RunAll(StmtCode(st, env), s, o) == Exits(r, env, o) && InScope(r, scope)
    decreases s.fuel, if env.cleaning then 0 else 1, Level(env), 4, st, 0
  {
    var subject := ExprCode(st.subject, env);
    var code := ArmsCode(st.arms, Nest(env, 1), env.depth) + [Unreachable];
    ExprCorrect(st.subject, env, s, o);
    RunAppend(subject, [Block(code)], s, o);
    var r := Evaluate(st.subject, s, o, env.unwinding);
    if r.Normal? {
      RunSingle(Block(code), r.s, o);
      ArmsCorrect(st.arms, env, scope, r.s, o);
    } else {
      UnwindExits(env, r, o);
    }
  }

  lemma {:induction false} ArmsCorrect(arms: seq<Arm>, env: Env, scope: set<nat>, s: State, o: Oracle)
    requires Lowerable(env, scope)
    requires forall i :: 0 <= i < |arms| ==> WellFormedAll(arms[i].body, scope) && (env.cleaning ==> CleanAll(arms[i].body))
    ensures var r := ExecArms(arms, s, o, env.unwinding, env.cleaning);
            && Unlabel(RunAll(ArmsCode(arms, Nest(env, 1), env.depth) + [Unreachable], s, o)) == Exits(r, env, o)
            && InScope(r, scope)
    decreases s.fuel, if env.cleaning then 0 else 1, Level(env), 4, arms, 0
  {
    if arms == [] {
      assert [] + [Unreachable] == [Unreachable];
      RunSingle(Unreachable, s, o);
      UnwindExits(env, Trapped(s), o);
    } else {
      var arm, inner := arms[0], Nest(env, 2);
      var first := IfThen(Tested(arm.test), BlockCode(arm.body, inner) + [Br(1)]);
      var rest := ArmsCode(arms[1..], Nest(env, 1), env.depth) + [Unreachable];
      assert ArmsCode(arms, Nest(env, 1), env.depth) + [Unreachable] == [first] + rest;
      RunAppend([first], rest, s, o);
      RunSingle(first, s, o);
      if o.test(arm.test, s.trace) {
        ArmTaken(arm, env, scope, s, o);
      } else {
        ArmsCorrect(arms[1..], env, scope, s, o);
      }
    }
  }

  lemma {:induction false} ArmTaken(arm: Arm, env: Env, scope: set<nat>, s: State, o: Oracle)
    requires Lowerable(env, scope) && WellFormedAll(arm.body, scope) && (env.cleaning ==> CleanAll(arm.body))
    ensures var r := ExecBlock(arm.body, s, o, env.unwinding, env.cleaning);
            var x := Unlabel(RunAll(BlockCode(arm.body, Nest(env, 2)) + [Br(1)], s, o));
            !x.Next? && Unlabel(x) == Exits(r, env, o) && InScope(r, scope)
    decreases s.fuel, if env.cleaning then 0 else 1, Level(env), 4, arm, 0
  {
    hide Cleanup, DefersCode, BlockCode, ExecBlock, RunAll, CleanBlocks;
    var r := ExecBlock(arm.body, s, o, env.unwinding, env.cleaning);
    BlockCorrect(arm.body, Nest(env, 2), scope, s, o);
    RunAppend(BlockCode(arm.body, Nest(env, 2)), [Br(1)], s, o);
    if r.Normal? {
      RunSingle(Br(1), r.s, o);
    } else {
      if env.cleaning {
        CleanTameAll(arm.body, s, o, env.unwinding);
      }
      ExitsNest(r, Nest(env, 1), o);
      ExitsNest(r, env, o);
      NeverFallsThrough(r, Nest(env, 2), o);
      NeverFallsThrough(r, Nest(env, 1), o);
    }
  }

  lemma {:induction false} BlockCorrect(sts: seq<Stmt>, env: Env, scope: set<nat>, s: State, o: Oracle)
    requires Lowerable(env, scope) && WellFormedAll(sts, scope) && (env.cleaning ==> CleanAll(sts))
    ensures var r := ExecBlock(sts, s, o, env.unwinding, env.cleaning);
            RunAll(BlockCode(sts, env), s, o) == Exits(r, env, o) && InScope(r, scope)
    decreases s.fuel, if env.cleaning then 0 else 1, Level(env), 4, sts, 3
  {
    assert env.(defers := env.defers + []) == env;
    FromCorrect(sts, env, [], scope, s, o);
  }

  lemma {:induction false} FromCorrect(sts: seq<Stmt>, env: Env, own: seq<seq<Stmt>>, scope: set<nat>, s: State, o: Oracle)
    requires Lowerable(env, scope) && WellFormedAll(sts, scope) && CleanBlocks(own)
    requires env.cleaning ==> CleanAll(sts) && own == []
    ensures var r := ExecFrom(sts, own, s, o, env.unwinding, env.cleaning);
            && RunAll(FromCode(sts, env.(defers := env.defers + own), |env.defers|), s, o) == Exits(r, env, o)
            && InScope(r, scope)
    decreases s.fuel, if env.cleaning then 0 else 1, Level(env), 4, sts, 2
  {
    var env' := env.(defers := env.defers + own);
    assert own == [] ==> env.defers + own == env.defers;
    if sts == [] {
      BlockEnd(env, own, s, o);
    } else {
      var st, rest := sts[0], sts[1..];
      var own' := Register(own, st, env.cleaning);
      assert Register(env'.defers, st, env.cleaning) == env.defers + own';
      StmtCorrect(st, env', scope, s, o);
      RunAppend(StmtCode(st, env'), FromCode(rest, env.(defers := env.defers + own'), |env.defers|), s, o);
      var r := Exec(st, s, o, env.unwinding, env.cleaning);
      if r.Normal? {
        FromCorrect(rest, env, own', scope, r.s, o);
      } else {
        NeverFallsThrough(r, env', o);
        if !env.cleaning {
          ExitsSplit(r, env, own, o);
          CleanupKeeps(own, r, o);
        }
      }
    }
  }

  /** Falling out of a block runs its own deferred blocks. */
  lemma {:induction false} BlockEnd(env: Env, own: seq<seq<Stmt>>, s: State, o: Oracle)
    requires Valid(env) && CleanBlocks(own) && (env.cleaning ==> own == [])
    ensures var r := if env.cleaning then Normal(s) else Cleanup(own, Normal(s), o);
            && RunAll(DefersCode(env.(defers := env.defers + own), |env.defers|), s, o) == Exits(r, env, o)
            && InScope(r, {})
    decreases s.fuel, if env.cleaning then 0 else 1, Level(env), 3, 0, 0
  {
    if env.cleaning {
      assert env.defers + own == env.defers;
    } else {
      var env' := env.(defers := env.defers + own);
      assert env'.defers[|env.defers|..] == own && env'.defers[..|env.defers|] == env.defers;
      DefersCorrect(env', |env.defers|, Normal(s), o);
      DefersRunCleans(env', |env.defers|, Normal(s), o);
      var c := Cleanup(own, Normal(s), o);
      if !c.Normal? {
        UnwindExits(env, c, o);
      }
    }
  }

  /** Inside a loop body, exits to other targets go where they go outside the loop. */
  lemma ExitsThroughLoop(r: Outcome, env: Env, id: nat, info: LoopInfo, o: Oracle)
    requires Valid(env) && (env.cleaning ==> Tame(r))
    requires (r.Broke? || r.Continued?) ==> r.target != id && r.target in env.loops
    ensures Exits(r, Nest(env, 3).(loops := env.loops[id := info]), o) == Exits(r, Nest(env, 3), o)
    ensures Unlabel(Exits(r, Nest(env, 3), o)) == Exits(r, Nest(env, 2), o)
    ensures Unlabel(Exits(r, Nest(env, 2), o)) == Exits(r, Nest(env, 1), o)
    ensures Unlabel(Exits(r, Nest(env, 1), o)) == Exits(r, env, o)
    ensures var x := Exits(r, Nest(env, 2), o); !(x.Branch? && x.index == 0)
  {
    hide Cleanup;
    ExitsNest(r, Nest(env, 2), o);
    ExitsNest(r, Nest(env, 1), o);
    ExitsNest(r, env, o);
    var c := Cut(r, env);
    if !r.Normal? && c <= |env.defers| {
      CleanupKeeps(env.defers[c..], r, o);
    }
  }

  /** The body of the emitted loop: condition, block around the source body, jump back. */
  function IterationCode(st: Stmt, env: Env): seq<Code>
    requires st.Loop?
  {
    StmtCode(st, env)[0].body[0].body
  }

  /** What follows the condition inside the emitted loop: the block around the source body, and the jump back. */
  function AgainCode(st: Stmt, env: Env): seq<Code>
    requires st.Loop?
  {
    [Block(BlockCode(st.body, InLoop(env, st.id)))] + [Br(0)]
  }

  /** The condition of a loop falls through to its body, branches behind the loop, or unwinds. */
  lemma {:induction false} LoopTest(st: Stmt, env: Env, s: State, o: Oracle)
    requires st.Loop? && Valid(env)
    ensures var rc := if st.cond.Known? then Normal(s) else Evaluate(st.cond.operands, s, o, env.unwinding);
            RunAll(IterationCode(st, env), s, o) ==
            if !rc.Normal? then Exits(rc, Nest(env, 2), o)
            else if Holds(CondOperand(st.cond), rc.s, o) then RunAll(AgainCode(st, env), rc.s, o)
            else Branch(1, rc.s)
    decreases s.fuel, if env.cleaning then 0 else 1, Level(env), 4, st, 0
  {
    var cond, atLoop := CondCode(st.cond, Nest(env, 2)), Nest(env, 2);
    var again, test := AgainCode(st, env), BrUnless(CondOperand(st.cond), 1);
    assert IterationCode(st, env) == cond + ([test] + again);
    var rc := if st.cond.Known? then Normal(s) else Evaluate(st.cond.operands, s, o, env.unwinding);
    if st.cond.Asked? {
      ExprCorrect(st.cond.operands, atLoop, s, o);
    }
    RunAppend(cond, [test] + again, s, o);
    if rc.Normal? {
      RunAppend([test], again, rc.s, o);
      RunSingle(test, rc.s, o);
    } else {
      NeverFallsThrough(rc, atLoop, o);
    }
  }

  /** One run of a loop's body: around again, behind the loop, or out of it as the body's exit says. */
  lemma {:induction false} LoopBody(st: Stmt, env: Env, scope: set<nat>, s: State, o: Oracle)
    requires st.Loop?
    requires Lowerable(env, scope) && WellFormed(st, scope) && (env.cleaning ==> Clean(st))
    ensures var b := ExecBlock(st.body, s, o, env.unwinding, env.cleaning);
            var x := RunAll(AgainCode(st, env), s, o);
            if b.Normal? || (b.Continued? && b.target == st.id) then x == Branch(0, b.s)
            else if b.Broke? && b.target == st.id then x == Branch(1, b.s)
            else
              && InScope(b, scope) && !x.Next? && !(x.Branch? && x.index == 0)
              && Unlabel(Unlabel(x)) == Exits(b, env, o)
    decreases s.fuel, if env.cleaning then 0 else 1, Level(env), 4, st, 0
  {
    hide StmtCode, Exec, Exits;
    var inner, body := InLoop(env, st.id), AgainCode(st, env)[0];
    RunAppend([body], [Br(0)], s, o);
    RunSingle(body, s, o);
    BlockCorrect(st.body, inner, scope + {st.id}, s, o);
    var b := ExecBlock(st.body, s, o, env.unwinding, env.cleaning);
    if env.cleaning {
      CleanTameAll(st.body, s, o, env.unwinding);
    }
    IterationEnds(st.id, env, scope, b, o);
    var x := Unlabel(Exits(b, inner, o));
    if x.Next? {
      RunSingle(Br(0), x.s, o);
    }
  }

  lemma {:induction false} LoopCorrect(st: Stmt, env: Env, scope: set<nat>, s: State, o: Oracle)
    requires st.Loop?
    requires Lowerable(env, scope) && WellFormed(st, scope) && (env.cleaning ==> Clean(st))
    ensures var r := Exec(st, s, o, env.unwinding, env.cleaning);
            && Unlabel(RunOne(Repeat(IterationCode(st, env)), s, o)) == Exits(r, env, o)
            && InScope(r, scope)
    decreases s.fuel, if env.cleaning then 0 else 1, Level(env), 4, st, 1
  {
    hide StmtCode, RunAll, ExecBlock, Cleanup, AgainCode, IterationCode, Exits;
    if s.fuel == 0 {
      UnwindExits(env, OutOfFuel, o);
      CleanupEnds(env.defers, o);
    } else {
      var s1 := Spend(s);
      LoopTest(st, env, s1, o);
      var rc := if st.cond.Known? then Normal(s1) else Evaluate(st.cond.operands, s1, o, env.unwinding);
      if !rc.Normal? {
        UnwindExits(env, rc, o);
        UnwindExits(Nest(env, 2), rc, o);
      } else if Holds(CondOperand(st.cond), rc.s, o) {
        LoopBody(st, env, scope, rc.s, o);
        var b := ExecBlock(st.body, rc.s, o, env.unwinding, env.cleaning);
        if b.Normal? || (b.Continued? && b.target == st.id) {
          LoopCorrect(st, env, scope, b.s, o);
        } else if b.Broke? && b.target == st.id {
          NormalExits(b.s, env, o);
        } else {
          var x := RunAll(AgainCode(st, env), rc.s, o);
          assert RunOne(Repeat(IterationCode(st, env)), s, o) == Unlabel(x);
        }
      } else {
        NormalExits(rc.s, env, o);
      }
    }
  }

  /** A range loop from its `n`-th integer on, with any exits from its body. */
  lemma {:induction false} RangeCorrect(st: Stmt, env: Env, scope: set<nat>, first: int, last: int, n: nat, s: State, o: Oracle)
    requires st.For?
    requires Lowerable(env, scope) && WellFormed(st, scope) && (env.cleaning ==> Clean(st))
    ensures var r := ExecRange(st, first, last, n, s, o, env.unwinding, env.cleaning);
            && RunCounted(Counted(st.range, BlockCode(st.body, InLoop(env, st.id))), first, last, n, s, o) == Exits(r, env, o)
            && InScope(r, scope)
    decreases s.fuel, if env.cleaning then 0 else 1, Level(env), 4, st, 1
  {
    hide StmtCode, Exec, Exits, BlockCode, ExecBlock;
    var c, count := Counted(st.range, BlockCode(st.body, InLoop(env, st.id))), Count(first, last, st.range.inclusive);
    if s.fuel == 0 {
      UnwindExits(env, OutOfFuel, o);
      CleanupEnds(env.defers, o);
    } else if n >= count {
      NormalExits(Spend(s), env, o);
    } else {
      var value := Nth(first, last, st.range.inclusive, st.range.reverse, n);
      var s1 := Emit(Spend(s), Visited(st.range.local, value));
      BlockCorrect(st.body, InLoop(env, st.id), scope + {st.id}, s1, o);
      var b := ExecBlock(st.body, s1, o, env.unwinding, env.cleaning);
      if env.cleaning {
        CleanTameAll(st.body, s1, o, env.unwinding);
      }
      IterationEnds(st.id, env, scope, b, o);
      if b.Normal? || (b.Continued? && b.target == st.id) {
        NormalExits(b.s, env, o);
        if !(st.range.inclusive && n + 1 == count) {
          RangeCorrect(st, env, scope, first, last, n + 1, b.s, o);
        }
      } else if b.Broke? && b.target == st.id {
        NormalExits(b.s, env, o);
      }
    }
  }

  lemma NormalExits(s: State, env: Env, o: Oracle)
    ensures Exits(Normal(s), env, o) == Next(s)
  {
  }

  lemma CleanupEnds(blocks: seq<seq<Stmt>>, o: Oracle)
    ensures Cleanup(blocks, OutOfFuel, o) == OutOfFuel
  {
  }

  /** Where the exits of a loop body lead. */
  lemma IterationEnds(id: nat, env: Env, scope: set<nat>, b: Outcome, o: Oracle)
    requires Lowerable(env, scope) && id !in scope
    requires InScope(b, scope + {id}) && (env.cleaning ==> Tame(b))
    ensures var x := Unlabel(Exits(b, InLoop(env, id), o));
            if b.Normal? || (b.Continued? && b.target == id) then x == Next(b.s)
            else if b.Broke? && b.target == id then x == Branch(1, b.s)
            else
              && InScope(b, scope) && !x.Next? && !(x.Branch? && x.index == 0)
              && Unlabel(Unlabel(x)) == Exits(b, env, o)
  {
    hide Cleanup, CleanBlocks, Transfer;
    var info := LoopInfo(env.depth, env.depth + 2, |env.defers|);
    if (b.Broke? || b.Continued?) && b.target == id {
      OwnTarget(id, env, b, o);
    } else if !b.Normal? {
      ExitsThroughLoop(b, env, id, info, o);
      NeverFallsThrough(b, Nest(env, 2), o);
    }
  }

  /** Leaving or continuing the innermost loop runs no deferred block of an enclosing one. */
  lemma OwnTarget(id: nat, env: Env, b: Outcome, o: Oracle)
    requires (b.Broke? || b.Continued?) && b.target == id
    ensures Exits(b, InLoop(env, id), o) == Branch(if b.Broke? then 2 else 0, b.s)
  {
    assert env.defers[|env.defers|..] == [];
  }

  // ----- functions -----

  /** The code of a function body; falling off its end leaves the function. */
  function FunctionCode(body: seq<Stmt>): seq<Code> {
    BlockCode(body, Env(0, [], map[], false, false)) + [Leave]
  }

  /**
   For every well-formed function body, any results of its conditions and checks and any
   number of loop iterations: the lowered code produces the same effects in the same order and
   ends the same way as the statements, whose every exit runs exactly the deferred blocks of
   the blocks it leaves, last registered first.
   */
  lemma LoweringPreservesMeaning(body: seq<Stmt>, s: State, o: Oracle)
    requires WellFormedAll(body, {})
    ensures var x := RunAll(FunctionCode(body), s, o);
            match ExecBlock(body, s, o, false, false)
            case Normal(s') => x == Left(s')
            case Returned(s') => x == Left(s')
            case Unwinding(s', _) => x == Trap(s')
            case Trapped(s') => x == Trap(s')
            case OutOfFuel => x == NoFuel
            case _ => false
  {
    var env := Env(0, [], map[], false, false);
    BlockCorrect(body, env, {}, s, o);
    RunAppend(BlockCode(body, env), [Leave], s, o);
    var r := ExecBlock(body, s, o, false, false);
    if r.Normal? {
      RunSingle(Leave, r.s, o);
    }
  }

  // ----- deferred blocks that fail -----

  /** The exit reason of a cleanup is a failed check. */
  predicate Quiet(r: Outcome) {
    r.Unwinding? && r.quiet
  }

  /** What becomes of a block's end when the block cleans up after a failed check: another one ends the run at once. */
  function Hushed(r: Outcome): Outcome {
    match r
    case Unwinding(s, quiet) => if quiet then Trapped(s) else Unwinding(s, true)
    case _ => r
  }

  lemma {:induction false} EvaluateHushed(e: Expr, s: State, o: Oracle)
    ensures Evaluate(e, s, o, true) == Hushed(Evaluate(e, s, o, false))
  {
    if e != [] {
      match e[0]
      case Effect(event) => EvaluateHushed(e[1..], Emit(s, Happened(event)), o);
      case Check(test) =>
        if o.test(test, s.trace) {
          EvaluateHushed(e[1..], s, o);
        }
    }
  }

  /** The mode of a cleanup changes nothing but how a failed check ends it, and how a panic is remembered. */
  lemma {:induction false} StmtHushed(st: Stmt, s: State, o: Oracle)
    requires Clean(st)
    ensures Exec(st, s, o, true, true) == Hushed(Exec(st, s, o, false, true))
    decreases s.fuel, st, 1
  {
    match st
    case Do(e) => EvaluateHushed(e, s, o);
    case Panic(e) => EvaluateHushed(e, s, o);
    case If(cond, thn, els) =>
      if cond.Known? {
        BlockHushed(if cond.value then thn else els, s, o);
      } else {
        EvaluateHushed(cond.operands, s, o);
        var r := Evaluate(cond.operands, s, o, false);
        if r.Normal? {
          BlockHushed(if o.test(cond.test, r.s.trace) then thn else els, r.s, o);
        }
      }
    case Loop(id, cond, body) =>
      if s.fuel > 0 {
        if cond.Asked? {
          EvaluateHushed(cond.operands, Spend(s), o);
        }
        var r := if cond.Known? then Normal(Spend(s)) else Evaluate(cond.operands, Spend(s), o, false);
        if r.Normal? {
          BlockHushed(body, r.s, o);
          CleanTameAll(body, r.s, o, false);
          var b := ExecBlock(body, r.s, o, false, true);
          if b.Normal? {
            StmtHushed(st, b.s, o);
          }
        }
      }
    case For(id, range, body) =>
      EvaluateHushed(range.operands, s, o);
      var r := Evaluate(range.operands, s, o, false);
      if r.Normal? {
        RangeHushed(st, BoundOf(range.typ, range.first, r.s, o), BoundOf(range.typ, range.last, r.s, o), 0, r.s, o);
      }
    case Case(subject, arms) =>
      EvaluateHushed(subject, s, o);
      var r := Evaluate(subject, s, o, false);
      if r.Normal? {
        ArmsHushed(arms, r.s, o);
      }
  }

  lemma {:induction false} RangeHushed(st: Stmt, first: int, last: int, n: nat, s: State, o: Oracle)
    requires st.For? && Clean(st)
    ensures ExecRange(st, first, last, n, s, o, true, true) == Hushed(ExecRange(st, first, last, n, s, o, false, true))
    decreases s.fuel, st, 0
  {
    if s.fuel > 0 && n < Count(first, last, st.range.inclusive) {
      var value := Nth(first, last, st.range.inclusive, st.range.reverse, n);
      var s1 := Emit(Spend(s), Visited(st.range.local, value));
      BlockHushed(st.body, s1, o);
      CleanTameAll(st.body, s1, o, false);
      var b := ExecBlock(st.body, s1, o, false, true);
      if b.Normal? {
        RangeHushed(st, first, last, n + 1, b.s, o);
      }
    }
  }

  lemma {:induction false} ArmsHushed(arms: seq<Arm>, s: State, o: Oracle)
    requires forall i :: 0 <= i < |arms| ==> CleanAll(arms[i].body)
    ensures ExecArms(arms, s, o, true, true) == Hushed(ExecArms(arms, s, o, false, true))
    decreases s.fuel, arms, 0
  {
    if arms != [] {
      if o.test(arms[0].test, s.trace) {
        BlockHushed(arms[0].body, s, o);
      } else {
        ArmsHushed(arms[1..], s, o);
      }
    }
  }

  lemma {:induction false} BlockHushed(sts: seq<Stmt>, s: State, o: Oracle)
    requires CleanAll(sts)
    ensures ExecBlock(sts, s, o, true, true) == Hushed(ExecBlock(sts, s, o, false, true))
    decreases s.fuel, sts, 2
  {
    FromHushed(sts, s, o);
  }

  lemma {:induction false} FromHushed(sts: seq<Stmt>, s: State, o: Oracle)
    requires CleanAll(sts)
    ensures ExecFrom(sts, [], s, o, true, true) == Hushed(ExecFrom(sts, [], s, o, false, true))
    decreases s.fuel, sts, 1
  {
    if sts != [] {
      StmtHushed(sts[0], s, o);
      CleanTame(sts[0], s, o, false);
      var r := Exec(sts[0], s, o, false, true);
      if r.Normal? {
        FromHushed(sts[1..], r.s, o);
      }
    }
  }

  predicate Matched(arms: seq<Arm>, t: Trace, o: Oracle) {
    exists i :: 0 <= i < |arms| && o.test(arms[i].test, t)
  }

  /** The checker's rule for cases: some arm matches, whatever happened before. */
  ghost predicate Exhaustive(st: Stmt, o: Oracle) {
    match st
    case If(_, thn, els) => ExhaustiveAll(thn, o) && ExhaustiveAll(els, o)
    case Loop(_, _, body) => ExhaustiveAll(body, o)
    case For(_, _, body) => ExhaustiveAll(body, o)
    case Case(_, arms) =>
      && (forall t: Trace :: Matched(arms, t, o))
      && forall i :: 0 <= i < |arms| ==> ExhaustiveAll(arms[i].body, o)
    case _ => true
  }

  ghost predicate ExhaustiveAll(sts: seq<Stmt>, o: Oracle) {
    forall i :: 0 <= i < |sts| ==> Exhaustive(sts[i], o)
  }

  /** Outside the cleanup of a failed check, a deferred block never ends the run. */
  lemma {:induction false} StmtGoesOn(st: Stmt, s: State, o: Oracle)
    requires Clean(st) && Exhaustive(st, o)
    ensures !Exec(st, s, o, false, true).Trapped?
    decreases s.fuel, st, 1
  {
    match st
    case If(cond, thn, els) =>
      var r := if cond.Known? then Normal(s) else Evaluate(cond.operands, s, o, false);
      EvaluateGoesOn(if cond.Known? then [] else cond.operands, s, o);
      if r.Normal? {
        BlockGoesOn(thn, r.s, o);
        BlockGoesOn(els, r.s, o);
      }
    case Loop(id, cond, body) =>
      if s.fuel > 0 {
        EvaluateGoesOn(if cond.Known? then [] else cond.operands, Spend(s), o);
        var r := if cond.Known? then Normal(Spend(s)) else Evaluate(cond.operands, Spend(s), o, false);
        if r.Normal? {
          BlockGoesOn(body, r.s, o);
          CleanTameAll(body, r.s, o, false);
          var b := ExecBlock(body, r.s, o, false, true);
          if b.Normal? {
            StmtGoesOn(st, b.s, o);
          }
        }
      }
    case For(id, range, body) =>
      EvaluateGoesOn(range.operands, s, o);
      var r := Evaluate(range.operands, s, o, false);
      if r.Normal? {
        RangeGoesOn(st, BoundOf(range.typ, range.first, r.s, o), BoundOf(range.typ, range.last, r.s, o), 0, r.s, o);
      }
    case Case(subject, arms) =>
      EvaluateGoesOn(subject, s, o);
      var r := Evaluate(subject, s, o, false);
      if r.Normal? {
        assert Matched(arms, r.s.trace, o);
        var i :| 0 <= i < |arms| && o.test(arms[i].test, r.s.trace);
        ArmsGoOn(arms, i, r.s, o);
      }
    case Do(e) => EvaluateGoesOn(e, s, o);
    case Panic(e) => EvaluateGoesOn(e, s, o);
  }

  lemma {:induction false} EvaluateGoesOn(e: Expr, s: State, o: Oracle)
    ensures !Evaluate(e, s, o, false).Trapped?
  {
    if e != [] {
      EvaluateGoesOn(e[1..], if e[0].Effect? then Emit(s, Happened(e[0].event)) else s, o);
    }
  }

  lemma {:induction false} RangeGoesOn(st: Stmt, first: int, last: int, n: nat, s: State, o: Oracle)
    requires st.For? && Clean(st) && Exhaustive(st, o)
    ensures !ExecRange(st, first, last, n, s, o, false, true).Trapped?
    decreases s.fuel, st, 0
  {
    if s.fuel > 0 && n < Count(first, last, st.range.inclusive) {
      var value := Nth(first, last, st.range.inclusive, st.range.reverse, n);
      var s1 := Emit(Spend(s), Visited(st.range.local, value));
      BlockGoesOn(st.body, s1, o);
      CleanTameAll(st.body, s1, o, false);
      var b := ExecBlock(st.body, s1, o, false, true);
      if b.Normal? {
        RangeGoesOn(st, first, last, n + 1, b.s, o);
      }
    }
  }

  lemma {:induction false} ArmsGoOn(arms: seq<Arm>, i: nat, s: State, o: Oracle)
    requires i < |arms| && o.test(arms[i].test, s.trace)
    requires forall k :: 0 <= k < |arms| ==> CleanAll(arms[k].body) && ExhaustiveAll(arms[k].body, o)
    ensures !ExecArms(arms, s, o, false, true).Trapped?
    decreases s.fuel, arms, 0
  {
    if o.test(arms[0].test, s.trace) {
      BlockGoesOn(arms[0].body, s, o);
    } else {
      ArmsGoOn(arms[1..], i - 1, s, o);
    }
  }

  lemma {:induction false} BlockGoesOn(sts: seq<Stmt>, s: State, o: Oracle)
    requires CleanAll(sts) && ExhaustiveAll(sts, o)
    ensures !ExecBlock(sts, s, o, false, true).Trapped?
    decreases s.fuel, sts, 2
  {
    FromGoesOn(sts, s, o);
  }

  lemma {:induction false} FromGoesOn(sts: seq<Stmt>, s: State, o: Oracle)
    requires CleanAll(sts) && ExhaustiveAll(sts, o)
    ensures !ExecFrom(sts, [], s, o, false, true).Trapped?
    decreases s.fuel, sts, 1
  {
    if sts != [] {
      StmtGoesOn(sts[0], s, o);
      var r := Exec(sts[0], s, o, false, true);
      if r.Normal? {
        FromGoesOn(sts[1..], r.s, o);
      }
    }
  }

  /** Run from `s`, a deferred block reaches a check that fails. */
  predicate FailsCheck(block: seq<Stmt>, s: State, o: Oracle) {
    Quiet(ExecBlock(block, s, o, false, true))
  }

  /** Run from `s`, a deferred block reaches a `#panic`. */
  predicate Panics(block: seq<Stmt>, s: State, o: Oracle) {
    var r := ExecBlock(block, s, o, false, true);
    r.Unwinding? && !r.quiet
  }

  /**
   Any deferred block, wherever in it something fails, on the way out for any reason `r`. A
   panic never keeps the remaining deferred blocks from running. A failed check does so exactly
   if `r` is itself a failed check; then the run ends on the spot.
   */
  lemma DeferredFailure(rest: seq<seq<Stmt>>, last: seq<Stmt>, r: Outcome, o: Oracle)
    requires !r.Trapped? && !r.OutOfFuel? && CleanAll(last) && ExhaustiveAll(last, o)
    ensures var d := ExecBlock(last, r.s, o, Quiet(r), true);
            && (d.Normal? ==> Cleanup(rest + [last], r, o) == Cleanup(rest, Resume(r, d), o))
            && (d.Unwinding? ==> Cleanup(rest + [last], r, o) == Cleanup(rest, d, o))
            && (d.Trapped? ==> Cleanup(rest + [last], r, o) == d)
            && (d.Trapped? <==> Quiet(r) && FailsCheck(last, r.s, o))
            && (d.Unwinding? <==> Panics(last, r.s, o) || (!Quiet(r) && FailsCheck(last, r.s, o)))
            && (d.Unwinding? ==> (d.quiet <==> Quiet(r) || FailsCheck(last, r.s, o)))
  {
    assert (rest + [last])[..|rest|] == rest;
    var d := ExecBlock(last, r.s, o, Quiet(r), true);
    assert Cleanup(rest + [last], r, o) == Cleanup(rest, Resume(r, d), o);
    BlockHushed(last, r.s, o);
    BlockGoesOn(last, r.s, o);
    CleanTameAll(last, r.s, o, false);
  }

  /** A panic in a deferred block during a panic: the deferred block registered before it still runs. */
  lemma PanicGoesOn(o: Oracle)
    ensures var r := Unwinding(State([], 0), false);
            Cleanup([[Do([Effect(7)])], [Panic([])]], r, o) == Unwinding(State([Happened(7)], 0), false)
  {
    var first, last, r := [Do([Effect(7)])], [Panic([])], Unwinding(State([], 0), false);
    assert [first] + [last] == [first, last];
    DeferredFailure([first], last, r, o);
    assert Exec(last[0], r.s, o, false, true) == r;
    assert ExecBlock(last, r.s, o, false, true) == r;
    var done := State([Happened(7)], 0);
    assert Evaluate([Effect(7)], r.s, o, false) == Normal(done) by {
      assert Evaluate([], done, o, false) == Normal(done);
    }
    assert ExecFrom(first[1..], [], done, o, false, true) == Normal(done);
    assert ExecBlock(first, r.s, o, false, true) == Normal(done);
    var one: seq<seq<Stmt>> := [first];
    assert one[..0] == [] && one[0] == first;
    assert Cleanup([], Unwinding(done, false), o) == Unwinding(done, false);
  }
}
