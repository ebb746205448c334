/**
 The emitter of structured code: it appends to a flat body, counts open labels, and keeps the
 pending deferred blocks on a stack that it pops while inlining them and restores afterwards.
 */
module WasmControlEmitter {
  import opened ControlFlow
  import opened WasmControl
  import opened WasmControlProof
  import opened WasmTokens
  import opened WasmCounters
  import R = WasmRange
  import N = WasmInteger
  import A = WasmArithmetic
  import I = Integers

  // ----- the flat form of structured code, section 5.4.1 of the WebAssembly Core Specification 1.0 -----

  function Flat(c: Code, level: nat): seq<Token>
    decreases c, 0
  {
    match c
    case Act(event) => [Perform(event)]
    case Block(body) => [OpenBlock] + FlatAll(body, level) + [End]
    case Repeat(body) => [OpenLoop] + FlatAll(body, level) + [End]
    case IfThen(operand, thn) => FlatOperand(operand) + [OpenIf] + FlatAll(thn, level) + [End]
    case IfElse(operand, thn, els) => FlatOperand(operand) + [OpenIf] + FlatAll(thn, level) + [Else] + FlatAll(els, level) + [End]
    case Br(index) => [Jump(index)]
    case BrUnless(operand, index) => FlatOperand(operand) + [Eqz, JumpIf(index)]
    case Counted(range, body) =>
      FlatSetup(range, level)
      + ([OpenBlock] + [OpenLoop] + (FlatTest(range, level) + [JumpIf(1)] + FlatPick(range, level))
         + ([OpenBlock] + FlatAll(body, level + LoopLocals) + [End])
         + (FlatLast(range, level) + FlatStep(range, level) + [Jump(0)]) + [End] + [End])
    case Leave => [Exit]
    case Unreachable => [Crash]
  }

  function FlatAll(code: seq<Code>, level: nat): seq<Token>
    decreases code, 1
  {
    if code == [] then [] else Flat(code[0], level) + FlatAll(code[1..], level)
  }

  lemma {:induction false} FlatAppend(a: seq<Code>, b: seq<Code>, level: nat)
    ensures FlatAll(a + b, level) == FlatAll(a, level) + FlatAll(b, level)
  {
    if a == [] {
      assert a + b == b;
    } else {
      assert (a + b)[0] == a[0] && (a + b)[1..] == a[1..] + b;
      FlatAppend(a[1..], b, level);
    }
  }

  lemma FlatOne(c: Code, level: nat)
    ensures FlatAll([c], level) == Flat(c, level)
  {
    assert FlatAll([c], level) == Flat(c, level) + FlatAll([], level);
  }

  // ----- the flat form and the instructions -----

  /** What the emitter writes are the tokens of the expanded instructions. */
  lemma {:induction false} FlatIsTokens(c: Code, level: nat)
    ensures TokensAll(Expand(c, level)) == Flat(c, level) && SoundAll(Expand(c, level))
    decreases c, 0
  {
    hide TokensAll, Leaves, FlatSetup, RangeBody, FlatOperand;
    match c
    case Block(body) => FlatAllIsTokens(body, level); TokensOne(Expand(c, level)[0]);
    case Repeat(body) => FlatAllIsTokens(body, level); TokensOne(Expand(c, level)[0]);
    case IfThen(operand, thn) =>
      FlatAllIsTokens(thn, level);
      OperandTokens(operand, IfTree(ExpandAll(thn, level)));
      Grouped(FlatOperand(operand), [OpenIf], FlatAll(thn, level), [End]);
    case IfElse(operand, thn, els) =>
      FlatAllIsTokens(thn, level);
      FlatAllIsTokens(els, level);
      OperandTokens(operand, IfElseTree(ExpandAll(thn, level), ExpandAll(els, level)));
      Grouped(FlatOperand(operand), [OpenIf], FlatAll(thn, level), [Else] + FlatAll(els, level) + [End]);
      Grouped(FlatOperand(operand) + [OpenIf], FlatAll(thn, level), [Else], FlatAll(els, level) + [End]);
      Grouped([OpenIf], FlatAll(thn, level), [Else], FlatAll(els, level) + [End]);
      Grouped(FlatOperand(operand) + [OpenIf] + FlatAll(thn, level), [Else], FlatAll(els, level), [End]);
      Grouped([OpenIf] + FlatAll(thn, level), [Else], FlatAll(els, level), [End]);
    case Counted(range, body) =>
      FlatAllIsTokens(body, level + LoopLocals);
      CountedTokens(range, ExpandAll(body, level + LoopLocals), level);
    case BrUnless(operand, index) => UnlessTokens(operand, index);
    case _ => PlainTokens(c, level);
  }

  lemma PlainTokens(c: Code, level: nat)
    requires c.Act? || c.Br? || c.Leave? || c.Unreachable?
    ensures TokensAll(Expand(c, level)) == Flat(c, level) && SoundAll(Expand(c, level))
  {
    LeavesTokens(Flat(c, level));
  }

  lemma UnlessTokens(operand: Operand, index: nat)
    ensures var ts := FlatOperand(operand) + ([Eqz] + [JumpIf(index)]);
            TokensAll(Leaves(ts)) == FlatOperand(operand) + [Eqz, JumpIf(index)] && SoundAll(Leaves(ts))
  {
    LeavesTokens(FlatOperand(operand) + ([Eqz] + [JumpIf(index)]));
    assert [Eqz] + [JumpIf(index)] == [Eqz, JumpIf(index)];
  }

  lemma Grouped(a: seq<Token>, b: seq<Token>, c: seq<Token>, d: seq<Token>)
    ensures a + (b + c + d) == a + b + c + d && a + b + (c + d) == a + b + c + d && a + (b + (c + d)) == a + b + c + d
  {
  }

  lemma OperandTokens(operand: Operand, tree: Tree)
    ensures TokensAll(Leaves(FlatOperand(operand)) + [tree]) == FlatOperand(operand) + Tokens(tree)
    ensures Sound(tree) ==> SoundAll(Leaves(FlatOperand(operand)) + [tree])
  {
    hide TokensAll, Tokens, Leaves, Sound;
    LeavesTokens(FlatOperand(operand));
    TokensAppend(Leaves(FlatOperand(operand)), [tree]);
    TokensOne(tree);
  }

  lemma {:induction false} FlatAllIsTokens(code: seq<Code>, level: nat)
    ensures TokensAll(ExpandAll(code, level)) == FlatAll(code, level) && SoundAll(ExpandAll(code, level))
    decreases code, 1
  {
    hide Sound, Flat, Expand;
    if code != [] {
      FlatIsTokens(code[0], level);
      FlatAllIsTokens(code[1..], level);
      TokensAppend(Expand(code[0], level), ExpandAll(code[1..], level));
    }
  }

  lemma StraightTokens(range: Range, level: nat)
    ensures var head := FlatTest(range, level) + [JumpIf(1)] + FlatPick(range, level);
            var tail := FlatLast(range, level) + FlatStep(range, level) + [Jump(0)];
            && TokensAll(Leaves(head)) == head && SoundAll(Leaves(head)) && TokensAll(Leaves(tail)) == tail && SoundAll(Leaves(tail))
            && TokensAll(Leaves(FlatSetup(range, level))) == FlatSetup(range, level) && SoundAll(Leaves(FlatSetup(range, level)))
  {
    hide FlatTest, FlatPick, FlatLast, FlatStep, FlatSetup, TokensAll, Leaves, SoundAll, Structural;
    StraightLine(range, level);
    LeavesTokens(FlatSetup(range, level));
    LeavesTokens(FlatTest(range, level) + [JumpIf(1)] + FlatPick(range, level));
    LeavesTokens(FlatLast(range, level) + FlatStep(range, level) + [Jump(0)]);
  }

  ghost predicate Flatly(ts: seq<Token>) {
    forall i :: 0 <= i < |ts| ==> !Structural(ts[i])
  }

  lemma StraightLine(range: Range, level: nat)
    ensures Flatly(FlatSetup(range, level)) && Flatly(FlatTest(range, level) + [JumpIf(1)] + FlatPick(range, level))
    ensures Flatly(FlatLast(range, level) + FlatStep(range, level) + [Jump(0)])
  {
  }

  lemma BodyTokens(range: Range, body: seq<Tree>, level: nat)
    requires SoundAll(body)
    ensures SoundAll(RangeBody(range, body, level))
    ensures TokensAll(RangeBody(range, body, level)) ==
            (FlatTest(range, level) + [JumpIf(1)] + FlatPick(range, level)) + ([OpenBlock] + TokensAll(body) + [End])
            + (FlatLast(range, level) + FlatStep(range, level) + [Jump(0)])
  {
    hide FlatTest, FlatPick, FlatLast, FlatStep, TokensAll, Leaves, FlatSetup;
    var head := FlatTest(range, level) + [JumpIf(1)] + FlatPick(range, level);
    var tail := FlatLast(range, level) + FlatStep(range, level) + [Jump(0)];
    StraightTokens(range, level);
    TokensAppend(Leaves(head), [BlockTree(body)] + Leaves(tail));
    TokensAppend([BlockTree(body)], Leaves(tail));
    TokensOne(BlockTree(body));
    Grouped(head, Tokens(BlockTree(body)), tail, []);
    assert Sound(BlockTree(body));
  }

  lemma Enclosed(a: seq<Token>, b: seq<Token>, c: seq<Token>, x: seq<Token>, y: seq<Token>, z: seq<Token>)
    ensures x + (y + (a + b + c) + z) + z == x + y + a + b + c + z + z
  {
  }

  lemma CountedTokens(range: Range, body: seq<Tree>, level: nat)
    requires SoundAll(body)
    ensures var trees := Leaves(FlatSetup(range, level)) + [BlockTree([LoopTree(RangeBody(range, body, level))])];
            && SoundAll(trees)
            && TokensAll(trees) ==
               FlatSetup(range, level)
               + ([OpenBlock] + [OpenLoop] + (FlatTest(range, level) + [JumpIf(1)] + FlatPick(range, level))
                  + ([OpenBlock] + TokensAll(body) + [End])
                  + (FlatLast(range, level) + FlatStep(range, level) + [Jump(0)]) + [End] + [End])
  {
    hide FlatSetup, FlatTest, FlatPick, FlatLast, FlatStep, RangeBody, TokensAll, Leaves;
    var loop := LoopTree(RangeBody(range, body, level));
    StraightTokens(range, level);
    BodyTokens(range, body, level);
    TokensOne(loop);
    TokensOne(BlockTree([loop]));
    TokensAppend(Leaves(FlatSetup(range, level)), [BlockTree([loop])]);
    assert Sound(loop) && SoundAll([loop]) && Sound(BlockTree([loop]));
    Enclosed(FlatTest(range, level) + [JumpIf(1)] + FlatPick(range, level), [OpenBlock] + TokensAll(body) + [End],
             FlatLast(range, level) + FlatStep(range, level) + [Jump(0)], [OpenBlock], [OpenLoop], [End]);
  }

  // ----- the emitter -----

  /** `now` is `was` with `x` appended. */
  ghost predicate Adds(was: seq<Token>, now: seq<Token>, x: seq<Token>) {
    now == was + x
  }

  lemma Chain(was: seq<Token>, mid: seq<Token>, now: seq<Token>, x: seq<Token>, y: seq<Token>)
    requires Adds(was, mid, x) && Adds(mid, now, y)
    ensures Adds(was, now, x + y)
  {
  }

  class Emitter {
    var body: seq<Token>
    var depth: nat
    /** Deferred blocks; the first `pending` of them are waiting, those above are left over from blocks already closed. */
    var stack: seq<seq<Stmt>>
    var pending: nat
    var loops: map<nat, LoopInfo>
    var unwinding: bool
    var failed: bool
    /** Locals below this number are in use. */
    var temps: nat

    /** The bookkeeping as a value; `cleaning` says that a deferred block is being inlined. */
    ghost function State(cleaning: bool): Env
      reads this
      requires pending <= |stack|
    {
      Env(depth, stack[..pending], loops, unwinding, cleaning)
    }

    ghost predicate Ready(cleaning: bool)
      reads this
    {
      pending <= |stack| && Valid(State(cleaning))
    }

    constructor ()
      ensures Ready(false) && State(false) == Env(0, [], map[], false, false)
      ensures body == [] && !failed && temps == 0
    {
      body, depth, stack, pending, loops, unwinding, failed, temps := [], 0, [], 0, map[], false, false, 0;
    }

    method Put(token: Token)
      modifies this`body
      ensures Adds(old(body), body, [token])
    {
      body := body + [token];
    }

    method PutAll(tokens: seq<Token>)
      modifies this`body
      ensures Adds(old(body), body, tokens)
    {
      body := body + tokens;
    }

    method Begin(token: Token)
      modifies this`body, this`depth
      ensures Adds(old(body), body, [token]) && depth == old(depth) + 1
    {
      Put(token);
      depth := depth + 1;
    }

    method Close()
      requires depth > 0
      modifies this`body, this`depth
      ensures Adds(old(body), body, [End]) && depth == old(depth) - 1
    {
      Put(End);
      depth := depth - 1;
    }

    /** A branch to the structured instruction opened at depth `target`. */
    method Branch(target: nat, conditional: bool)
      modifies this`body, this`failed
      ensures if target < depth
              then failed == old(failed) &&
                   Adds(old(body), body, [if conditional then JumpIf(depth - target - 1) else Jump(depth - target - 1)])
              else failed && body == old(body)
    {
      if target >= depth {
        failed := true;
      } else {
        Put(if conditional then JumpIf(depth - target - 1) else Jump(depth - target - 1));
      }
    }

    /** Inlines the pending deferred blocks above `to`, topmost first. */
    method Defers(to: nat, ghost cleaning: bool)
      requires pending <= |stack| && CleanBlocks(stack[..pending])
      modifies this
      ensures pending <= |stack| && State(cleaning) == old(State(cleaning)) && pending == old(pending) && temps == old(temps) && stack == old(stack) && failed == old(failed)
      ensures Adds(old(body), body, FlatAll(DefersCode(old(State(cleaning)), to), temps))
      decreases 0, pending, 0, 0, 0
    {
      hide Adds, FlatAll, Flat, BlockCode, DefersCode, CleanBlocks;
      var n := pending;
      ghost var env, was, done := State(cleaning), body, [];
      Unchanged(body);
      while pending > to
        invariant pending <= n && stack == old(stack) && n <= |stack| && failed == old(failed) && temps == old(temps)
        invariant State(cleaning) == env.(defers := stack[..pending])
        invariant Adds(was, body, done)
        invariant done + FlatAll(DefersCode(State(cleaning), to), temps) == FlatAll(DefersCode(env, to), temps)
      {
        ghost var now, here := State(cleaning), body;
        pending := pending - 1;
        assert stack[..pending + 1][..pending] == stack[..pending];
        assert stack[..n][..pending] == stack[..pending];
        CleanPrefix(stack[..n], pending);
        DefersFlat(now, to, temps);
        ghost var x := FlatAll(BlockCode(stack[pending], State(cleaning).(cleaning := true)), temps);
        Sequence(stack[pending], true, {});
        Chain(was, here, body, done, x);
        done := Extend(done, x, FlatAll(DefersCode(State(cleaning), to), temps));
      }
      FlatNone(temps);
      NoDefers(State(cleaning), to);
      pending := n;
    }

    /** A runtime check: cleanups and a trap when the operand on the stack is zero. */
    method Guard(ghost cleaning: bool)
      requires Ready(cleaning)
      modifies this
      ensures Ready(cleaning) && State(cleaning) == old(State(cleaning)) && pending == old(pending) && temps == old(temps) && stack == old(stack) && failed == old(failed)
      ensures Adds(old(body), body, [Eqz] + [OpenIf] + FlatAll(FailCode(old(State(cleaning))), temps) + [End])
      decreases if cleaning then 0 else 1, if cleaning then pending else 0, 1, 0, 0
    {
      hide Adds, FlatAll, Flat, BlockCode, DefersCode, CleanBlocks;
      ghost var env, was := State(cleaning), body;
      Put(Eqz);
      ghost var b1 := body;
      Begin(OpenIf);
      ghost var b2 := body;
      Chain(was, b1, b2, [Eqz], [OpenIf]);
      FailBody(cleaning);
      ghost var b3 := body;
      Chain(was, b2, b3, [Eqz] + [OpenIf], FlatAll(FailCode(env), temps));
      Close();
      Chain(was, b3, body, [Eqz] + [OpenIf] + FlatAll(FailCode(env), temps), [End]);
    }

    method FailBody(ghost cleaning: bool)
      requires depth > 0 && pending <= |stack| && CleanBlocks(stack[..pending])
      modifies this
      ensures pending <= |stack| && State(cleaning) == old(State(cleaning)) && pending == old(pending) && temps == old(temps) && stack == old(stack) && failed == old(failed)
      ensures Adds(old(body), body, FlatAll(FailCode(old(State(cleaning)).(depth := old(depth) - 1)), temps))
      decreases if cleaning then 0 else 1, if cleaning then pending else 0, 0, 1, 0
    {
      hide Adds, FlatAll, Flat, BlockCode, DefersCode;
      ghost var env, was := State(cleaning), body;
      ghost var code := if unwinding then [] else DefersCode(env.(unwinding := true), 0);
      Unchanged(was);
      FlatNone(temps);
      if !unwinding {
        unwinding := true;
        Defers(0, cleaning);
        unwinding := false;
      }
      ghost var b1 := body;
      Put(Crash);
      Chain(was, b1, body, FlatAll(code, temps), [Crash]);
      FlatAppend(code, [Unreachable], temps);
      FlatOne(Unreachable, temps);
      FlatCrash(temps);
      assert Nest(env.(depth := env.depth - 1), 1) == env;
    }

    /** The operands of an expression: effects, and checks each followed by its guard. */
    method Expression(e: Expr, ghost cleaning: bool)
      requires Ready(cleaning)
      modifies this
      ensures Ready(cleaning) && State(cleaning) == old(State(cleaning)) && pending == old(pending) && temps == old(temps) && stack == old(stack) && failed == old(failed)
      ensures Adds(old(body), body, FlatAll(ExprCode(e, old(State(cleaning))), temps))
      decreases if cleaning then 0 else 1, if cleaning then pending else 0, 2, 0, 0
    {
      hide Adds, FlatAll, Flat, FailCode, Valid;
      ghost var env, was, done := State(cleaning), body, [];
      Unchanged(body);
      var i := 0;
      assert e[0..] == e;
      while i < |e|
        invariant i <= |e| && Ready(cleaning) && pending == old(pending) && temps == old(temps) && State(cleaning) == env && stack == old(stack) && failed == old(failed)
        invariant Adds(was, body, done)
        invariant done + FlatAll(ExprCode(e[i..], env), temps) == FlatAll(ExprCode(e, env), temps)
      {
        ghost var here := body;
        Part(e[i], cleaning);
        assert e[i..][0] == e[i] && e[i..][1..] == e[i + 1..];
        PartsFlat(e[i..], env, temps);
        Chain(was, here, body, done, PartFlat(e[i], env, temps));
        done := Extend(done, PartFlat(e[i], env, temps), FlatAll(ExprCode(e[i + 1..], env), temps));
        i := i + 1;
      }
      assert e[i..] == [];
      FlatNone(temps);
    }

    method Part(m: Micro, ghost cleaning: bool)
      requires Ready(cleaning)
      modifies this
      ensures Ready(cleaning) && State(cleaning) == old(State(cleaning)) && pending == old(pending) && temps == old(temps) && stack == old(stack) && failed == old(failed)
      ensures Adds(old(body), body, PartFlat(m, old(State(cleaning)), temps))
      decreases if cleaning then 0 else 1, if cleaning then pending else 0, 1, 1, 0
    {
      hide Adds, FlatAll, FailCode, Valid;
      match m {
        case Effect(event) => Put(Perform(event));
        case Check(test) =>
          ghost var env, was := State(cleaning), body;
          Put(Ask(test));
          ghost var b1 := body;
          Guard(cleaning);
          Chain(was, b1, body, [Ask(test)], [Eqz] + [OpenIf] + FlatAll(FailCode(env), temps) + [End]);
      }
    }

    method Statement(st: Stmt, ghost cleaning: bool, ghost scope: set<nat>)
      requires Ready(cleaning) && scope <= loops.Keys && WellFormed(st, scope) && (cleaning ==> Clean(st))
      modifies this
      ensures Ready(cleaning) && failed == old(failed) && (cleaning ==> stack == old(stack))
      ensures State(cleaning) == old(State(cleaning)).(defers := Register(old(State(cleaning)).defers, st, cleaning))
      ensures temps == old(temps)
      ensures Adds(old(body), body, FlatAll(StmtCode(st, old(State(cleaning))), temps))
      decreases if cleaning then 0 else 1, if cleaning then pending else 0, 4, st, 2
    {
      hide Adds, FlatAll;
      match st {
        case Do(e) => Expression(e, cleaning);
        case If(cond, thn, els) => Conditional(st, cleaning, scope);
        case Loop(id, cond, repeated) => Iteration(st, cleaning, scope);
        case For(id, range, repeated) => Ranged(st, cleaning, scope);
        case Break(target) =>
          var l := loops[target];
          Jumping(l.deferCount, l.breakDepth);
        case Continue(target) =>
          var l := loops[target];
          Jumping(l.deferCount, l.continueDepth);
        case Return(e) => Leaving(e, Exit, cleaning);
        case Panic(e) => Leaving(e, Crash, cleaning);
        case Defer(captures, deferred) =>
          Expression(captures, cleaning);
          stack := stack[..pending] + [deferred] + (if pending < |stack| then stack[pending + 1..] else []);
          pending := pending + 1;
          assert stack[..pending] == old(stack)[..old(pending)] + [deferred];
        case Case(subject, arms) => Cases(st, cleaning, scope);
      }
    }

    method Jumping(to: nat, target: nat)
      requires Ready(false) && target < depth
      modifies this
      ensures Ready(false) && State(false) == old(State(false)) && stack == old(stack) && failed == old(failed) && temps == old(temps)
      ensures Adds(old(body), body, FlatAll(DefersCode(old(State(false)), to) + [Br(LabelOf(old(State(false)), target))], temps))
      decreases 1, 0, 3, 0, 0
    {
      hide Adds, FlatAll, DefersCode;
      ghost var env, was := State(false), body;
      Defers(to, false);
      ghost var b1 := body;
      Branch(target, false);
      ghost var jump := Br(LabelOf(env, target));
      FlatAppend(DefersCode(env, to), [jump], temps);
      FlatOne(jump, temps);
      Chain(was, b1, body, FlatAll(DefersCode(env, to), temps), Flat(jump, temps));
    }

    method Leaving(e: Expr, token: Token, ghost cleaning: bool)
      requires Ready(cleaning) && (token == Exit || token == Crash)
      modifies this
      ensures Ready(cleaning) && State(cleaning) == old(State(cleaning)) && pending == old(pending) && temps == old(temps) && stack == old(stack) && failed == old(failed)
      ensures var env := old(State(cleaning));
              Adds(old(body), body, FlatAll(ExprCode(e, env) + DefersCode(env, 0) + [if token == Exit then Leave else Unreachable], temps))
      decreases if cleaning then 0 else 1, if cleaning then pending else 0, 3, 0, 0
    {
      hide Adds, FlatAll, ExprCode, DefersCode;
      ghost var env, was := State(cleaning), body;
      Expression(e, cleaning);
      ghost var b1 := body;
      Defers(0, cleaning);
      ghost var b2 := body;
      Put(token);
      ghost var last := if token == Exit then Leave else Unreachable;
      ghost var x, y := ExprCode(e, env), DefersCode(env, 0);
      Chain(was, b1, b2, FlatAll(x, temps), FlatAll(y, temps));
      Chain(was, b2, body, FlatAll(x, temps) + FlatAll(y, temps), [token]);
      FlatAppend(x, y, temps);
      FlatAppend(x + y, [last], temps);
      FlatOne(last, temps);
    }

    method Conditional(st: Stmt, ghost cleaning: bool, ghost scope: set<nat>)
      requires st.If? && Ready(cleaning) && scope <= loops.Keys && WellFormed(st, scope) && (cleaning ==> Clean(st))
      modifies this
      ensures Ready(cleaning) && failed == old(failed) && (cleaning ==> stack == old(stack))
      ensures State(cleaning) == old(State(cleaning)) && pending == old(pending) && temps == old(temps)
      ensures Adds(old(body), body, FlatAll(StmtCode(st, old(State(cleaning))), temps))
      decreases if cleaning then 0 else 1, if cleaning then pending else 0, 4, st, 0
    {
      hide Adds, FlatAll, Flat, ExprCode, BlockCode, CleanBlocks;
      ghost var env, was := State(cleaning), body;
      if st.cond.Known? {
        Sequence(if st.cond.value then st.thn else st.els, cleaning, scope);
      } else {
        Expression(st.cond.operands, cleaning);
        ghost var b1 := body;
        Put(Ask(st.cond.test));
        ghost var b2 := body;
        Begin(OpenIf);
        ghost var b3, inner := body, State(cleaning);
        Sequence(st.thn, cleaning, scope);
        ghost var b4 := body;
        ghost var x, thn, els := FlatAll(ExprCode(st.cond.operands, env), temps), FlatAll(BlockCode(st.thn, inner), temps), FlatAll(BlockCode(st.els, inner), temps);
        Chain(was, b1, b2, x, [Ask(st.cond.test)]);
        Chain(was, b2, b3, x + [Ask(st.cond.test)], [OpenIf]);
        Chain(was, b3, b4, x + [Ask(st.cond.test)] + [OpenIf], thn);
        ghost var acc := x + [Ask(st.cond.test)] + [OpenIf] + thn;
        if st.els != [] {
          Put(Else);
          ghost var b5 := body;
          Sequence(st.els, cleaning, scope);
          Chain(was, b4, b5, acc, [Else]);
          Chain(was, b5, body, acc + [Else], els);
          acc := acc + [Else] + els;
        }
        ghost var b6 := body;
        Close();
        Chain(was, b6, body, acc, [End]);
        IfFlat(st, env, temps);
      }
    }

    method Iteration(st: Stmt, ghost cleaning: bool, ghost scope: set<nat>)
      requires st.Loop? && Ready(cleaning) && scope <= loops.Keys && WellFormed(st, scope) && (cleaning ==> Clean(st))
      modifies this
      ensures Ready(cleaning) && failed == old(failed) && (cleaning ==> stack == old(stack))
      ensures State(cleaning) == old(State(cleaning)) && pending == old(pending) && temps == old(temps)
      ensures Adds(old(body), body, FlatAll(StmtCode(st, old(State(cleaning))), temps))
      decreases if cleaning then 0 else 1, if cleaning then pending else 0, 4, st, 0
    {
      hide Adds, FlatAll, Flat, ExprCode, BlockCode, StmtCode, CleanBlocks;
      ghost var env, was := State(cleaning), body;
      var breakDepth := depth;
      Begin(OpenBlock);
      ghost var b1 := body;
      var loopDepth := depth;
      Begin(OpenLoop);
      ghost var b2 := body;
      LoopCondition(st.cond, breakDepth, cleaning);
      ghost var b3 := body;
      LoopBlock(st, breakDepth, cleaning, scope);
      ghost var b4 := body;
      Branch(loopDepth, false);
      ghost var b5 := body;
      Close();
      ghost var b6 := body;
      Close();
      ghost var x, y := TestFlat(st.cond, Nest(env, 2), temps), [OpenBlock] + FlatAll(BlockCode(st.body, InLoop(env, st.id)), temps) + [End];
      Chain(was, b1, b2, [OpenBlock], [OpenLoop]);
      Chain(was, b2, b3, [OpenBlock] + [OpenLoop], x);
      Chain(was, b3, b4, [OpenBlock] + [OpenLoop] + x, y);
      Chain(was, b4, b5, [OpenBlock] + [OpenLoop] + x + y, [Jump(0)]);
      Chain(was, b5, b6, [OpenBlock] + [OpenLoop] + x + y + [Jump(0)], [End]);
      Chain(was, b6, body, [OpenBlock] + [OpenLoop] + x + y + [Jump(0)] + [End], [End]);
      LoopFlat(st, env, temps);
    }

    method LoopCondition(cond: Cond, breakDepth: nat, ghost cleaning: bool)
      requires Ready(cleaning) && breakDepth + 2 == depth
      modifies this
      ensures Ready(cleaning) && State(cleaning) == old(State(cleaning)) && pending == old(pending) && temps == old(temps) && stack == old(stack) && failed == old(failed)
      ensures Adds(old(body), body, TestFlat(cond, old(State(cleaning)), temps))
      decreases if cleaning then 0 else 1, if cleaning then pending else 0, 3, 0, 0
    {
      hide Adds, FlatAll, Flat, ExprCode, CleanBlocks;
      ghost var env, was, done := State(cleaning), body, [];
      Unchanged(was);
      FlatNone(temps);
      if cond.Asked? {
        Expression(cond.operands, cleaning);
        done := FlatAll(ExprCode(cond.operands, env), temps);
      }
      ghost var b1 := body;
      Put(if cond.Known? then Const(cond.value) else Ask(cond.test));
      ghost var b2 := body;
      Put(Eqz);
      ghost var b3 := body;
      Branch(breakDepth, true);
      Chain(was, b1, b2, done, FlatOperand(CondOperand(cond)));
      Chain(was, b2, b3, done + FlatOperand(CondOperand(cond)), [Eqz]);
      Chain(was, b3, body, done + FlatOperand(CondOperand(cond)) + [Eqz], [JumpIf(1)]);
    }

    /** The block around a loop's body; `continue` leaves it, `break` the block around the loop. */
    method LoopBlock(st: Stmt, breakDepth: nat, ghost cleaning: bool, ghost scope: set<nat>)
      requires (st.Loop? || st.For?) && Ready(cleaning) && scope <= loops.Keys && WellFormed(st, scope) && (cleaning ==> Clean(st))
      requires breakDepth + 2 == depth
      modifies this
      ensures Ready(cleaning) && failed == old(failed) && (cleaning ==> stack == old(stack))
      ensures State(cleaning) == old(State(cleaning)) && pending == old(pending) && temps == old(temps)
      ensures var env := old(State(cleaning)).(depth := breakDepth);
              Adds(old(body), body, [OpenBlock] + FlatAll(BlockCode(st.body, InLoop(env, st.id)), temps) + [End])
      decreases if cleaning then 0 else 1, if cleaning then pending else 0, 4, st.body, 4
    {
      hide Adds, FlatAll, Flat, ExprCode, BlockCode, StmtCode, CleanBlocks;
      ghost var env, was := State(cleaning).(depth := breakDepth), body;
      var outer, continueDepth := loops, depth;
      Begin(OpenBlock);
      ghost var b1 := body;
      loops := loops[st.id := LoopInfo(breakDepth, continueDepth, pending)];
      assert State(cleaning) == InLoop(env, st.id);
      Sequence(st.body, cleaning, scope + {st.id});
      ghost var b2 := body;
      Close();
      loops := outer;
      ghost var x := FlatAll(BlockCode(st.body, InLoop(env, st.id)), temps);
      Chain(was, b1, b2, [OpenBlock], x);
      Chain(was, b2, body, [OpenBlock] + x, [End]);
    }

    /** A range loop: bounds, counter, and the loop over them. */
    method Ranged(st: Stmt, ghost cleaning: bool, ghost scope: set<nat>)
      requires st.For? && Ready(cleaning) && scope <= loops.Keys && WellFormed(st, scope) && (cleaning ==> Clean(st))
      modifies this
      ensures Ready(cleaning) && failed == old(failed) && (cleaning ==> stack == old(stack))
      ensures State(cleaning) == old(State(cleaning)) && pending == old(pending) && temps == old(temps)
      ensures Adds(old(body), body, FlatAll(StmtCode(st, old(State(cleaning))), temps))
      decreases if cleaning then 0 else 1, if cleaning then pending else 0, 4, st, 1
    {
      hide Adds, FlatAll, Flat, ExprCode, BlockCode, StmtCode, CleanBlocks, FlatSetup, RangeFlat;
      ghost var env, was := State(cleaning), body;
      Expression(st.range.operands, cleaning);
      ghost var b1 := body;
      PutAll(FlatSetup(st.range, temps));
      ghost var b2 := body;
      RangeLoop(st, cleaning, scope);
      ghost var x := FlatAll(ExprCode(st.range.operands, env), temps);
      Chain(was, b1, b2, x, FlatSetup(st.range, temps));
      Chain(was, b2, body, x + FlatSetup(st.range, temps), RangeFlat(st, env, temps));
      ForFlat(st, env, temps);
    }

    method RangeLoop(st: Stmt, ghost cleaning: bool, ghost scope: set<nat>)
      requires st.For? && Ready(cleaning) && scope <= loops.Keys && WellFormed(st, scope) && (cleaning ==> Clean(st))
      modifies this
      ensures Ready(cleaning) && failed == old(failed) && (cleaning ==> stack == old(stack))
      ensures State(cleaning) == old(State(cleaning)) && pending == old(pending) && temps == old(temps)
      ensures Adds(old(body), body, RangeFlat(st, old(State(cleaning)), temps))
      decreases if cleaning then 0 else 1, if cleaning then pending else 0, 4, st, 0
    {
      hide Adds, FlatAll, Flat, BlockCode, StmtCode, CleanBlocks, FlatTest, FlatPick, FlatStep, FlatLast, WellFormed, Clean, InLoop;
      ghost var env, was := State(cleaning), body;
      var range, breakDepth, level := st.range, depth, temps;
      Begin(OpenBlock);
      ghost var b1 := body;
      var loopDepth := depth;
      Begin(OpenLoop);
      ghost var b2 := body;
      Chain(was, b1, b2, [OpenBlock], [OpenLoop]);
      RangeStart(range, breakDepth);
      ghost var b5, head := body, FlatTest(range, level) + [JumpIf(1)] + FlatPick(range, level);
      ghost var acc := [OpenBlock] + [OpenLoop];
      Chain(was, b2, b5, acc, head);
      temps := temps + LoopLocals;
      LoopBlock(st, breakDepth, cleaning, scope);
      temps := temps - LoopLocals;
      ghost var b6, x := body, [OpenBlock] + FlatAll(BlockCode(st.body, InLoop(env, st.id)), level + LoopLocals) + [End];
      Chain(was, b5, b6, acc + head, x);
      RangeEnd(range, breakDepth, loopDepth);
      ghost var b7, y := body, FlatLast(range, level) + FlatStep(range, level) + [Jump(0)];
      Chain(was, b6, b7, acc + head + x, y);
      Close();
      ghost var b8 := body;
      Close();
      ghost var most := acc + head + x + y;
      Chain(was, b7, b8, most, [End]);
      Chain(was, b8, body, most + [End], [End]);
    }

    /** The test that leaves the loop, and the next integer for its local. */
    method RangeStart(range: Range, breakDepth: nat)
      requires breakDepth + 2 == depth
      modifies this`body, this`failed
      ensures failed == old(failed)
      ensures Adds(old(body), body, FlatTest(range, temps) + [JumpIf(1)] + FlatPick(range, temps))
    {
      hide FlatTest, FlatPick, Adds;
      ghost var was := body;
      PutAll(FlatTest(range, temps));
      ghost var b1 := body;
      Branch(breakDepth, true);
      ghost var b2 := body;
      Chain(was, b1, b2, FlatTest(range, temps), [JumpIf(1)]);
      PutAll(FlatPick(range, temps));
      Chain(was, b2, body, FlatTest(range, temps) + [JumpIf(1)], FlatPick(range, temps));
    }

    /** Leaving an inclusive loop at its bound; the step; the jump back. */
    method RangeEnd(range: Range, breakDepth: nat, loopDepth: nat)
      requires breakDepth + 2 == depth && loopDepth + 1 == depth
      modifies this`body, this`failed
      ensures failed == old(failed)
      ensures Adds(old(body), body, FlatLast(range, temps) + FlatStep(range, temps) + [Jump(0)])
    {
      ghost var was := body;
      ghost var last := FlatLast(range, temps);
      if range.inclusive {
        PutAll([GetLocal(temps + 2), GetLocal(Stop(range, temps)), Plain(if A.Wide(range.typ) then 0x51 else 0x46)]);
        ghost var b1 := body;
        Branch(breakDepth, true);
        Chain(was, b1, body, last[..3], [JumpIf(1)]);
      }
      ghost var b2 := body;
      PutAll(FlatStep(range, temps));
      ghost var b3 := body;
      Chain(was, b2, b3, last, FlatStep(range, temps));
      Branch(loopDepth, false);
      Chain(was, b3, body, last + FlatStep(range, temps), [Jump(0)]);
    }

    method Cases(st: Stmt, ghost cleaning: bool, ghost scope: set<nat>)
      requires st.Case? && Ready(cleaning) && scope <= loops.Keys && WellFormed(st, scope) && (cleaning ==> Clean(st))
      modifies this
      ensures Ready(cleaning) && failed == old(failed) && (cleaning ==> stack == old(stack))
      ensures State(cleaning) == old(State(cleaning)) && pending == old(pending) && temps == old(temps)
      ensures Adds(old(body), body, FlatAll(StmtCode(st, old(State(cleaning))), temps))
      decreases if cleaning then 0 else 1, if cleaning then pending else 0, 4, st, 0
    {
      hide Adds, FlatAll, Flat, ExprCode, BlockCode, StmtCode, CleanBlocks;
      ghost var env, was := State(cleaning), body;
      Expression(st.subject, cleaning);
      ghost var b1 := body;
      var done := depth;
      Begin(OpenBlock);
      ghost var b2, inner := body, State(cleaning);
      ghost var acc := FlatAll(ExprCode(st.subject, env), temps) + [OpenBlock];
      Chain(was, b1, b2, FlatAll(ExprCode(st.subject, env), temps), [OpenBlock]);
      Branches(st.arms, done, cleaning, scope);
      ghost var b3 := body;
      Put(Crash);
      ghost var b4 := body;
      Close();
      ghost var arms := FlatAll(ArmsCode(st.arms, inner, done), temps);
      Chain(was, b2, b3, acc, arms);
      Chain(was, b3, b4, acc + arms, [Crash]);
      Chain(was, b4, body, acc + arms + [Crash], [End]);
      CaseFlat(st, env, temps);
    }

    method Branches(arms: seq<Arm>, done: nat, ghost cleaning: bool, ghost scope: set<nat>)
      requires Ready(cleaning) && scope <= loops.Keys && depth == done + 1
      requires forall i :: 0 <= i < |arms| ==> WellFormedAll(arms[i].body, scope) && (cleaning ==> CleanAll(arms[i].body))
      modifies this
      ensures Ready(cleaning) && failed == old(failed) && (cleaning ==> stack == old(stack))
      ensures State(cleaning) == old(State(cleaning)) && pending == old(pending) && temps == old(temps)
      ensures Adds(old(body), body, FlatAll(ArmsCode(arms, old(State(cleaning)), done), temps))
      decreases if cleaning then 0 else 1, if cleaning then pending else 0, 4, arms, 1
    {
      hide Adds, FlatAll, Flat, BlockCode, CleanBlocks, CleanAll, WellFormedAll, Valid;
      ghost var env, was, acc := State(cleaning), body, [];
      Unchanged(was);
      var i := 0;
      assert arms[0..] == arms;
      while i < |arms|
        invariant i <= |arms| && Ready(cleaning) && pending == old(pending) && temps == old(temps) && State(cleaning) == env && failed == old(failed)
        invariant cleaning ==> stack == old(stack)
        invariant Adds(was, body, acc)
        invariant acc + FlatAll(ArmsCode(arms[i..], env, done), temps) == FlatAll(ArmsCode(arms, env, done), temps)
      {
        ghost var here := body;
        ArmBranch(arms[i], done, cleaning, scope);
        assert arms[i..][0] == arms[i] && arms[i..][1..] == arms[i + 1..];
        ArmsFlat(arms[i..], env, done, temps);
        Chain(was, here, body, acc, ArmFlat(arms[i], env, done, temps));
        acc := Extend(acc, ArmFlat(arms[i], env, done, temps), FlatAll(ArmsCode(arms[i + 1..], env, done), temps));
        i := i + 1;
      }
      assert arms[i..] == [];
      FlatNone(temps);
    }

    method ArmBranch(arm: Arm, done: nat, ghost cleaning: bool, ghost scope: set<nat>)
      requires Ready(cleaning) && scope <= loops.Keys && depth == done + 1
      requires WellFormedAll(arm.body, scope) && (cleaning ==> CleanAll(arm.body))
      modifies this
      ensures Ready(cleaning) && failed == old(failed) && (cleaning ==> stack == old(stack))
      ensures State(cleaning) == old(State(cleaning)) && pending == old(pending) && temps == old(temps)
      ensures Adds(old(body), body, ArmFlat(arm, old(State(cleaning)), done, temps))
      decreases if cleaning then 0 else 1, if cleaning then pending else 0, 4, arm, 0
    {
      hide Adds, FlatAll, Flat, BlockCode, CleanBlocks, CleanAll, WellFormedAll;
      ghost var env, was := State(cleaning), body;
      Put(Ask(arm.test));
      ghost var b1 := body;
      Begin(OpenIf);
      ghost var b2, inner := body, State(cleaning);
      Sequence(arm.body, cleaning, scope);
      ghost var b3 := body;
      Branch(done, false);
      ghost var b4 := body;
      Close();
      ghost var x := FlatAll(BlockCode(arm.body, inner), temps);
      Chain(was, b1, b2, [Ask(arm.test)], [OpenIf]);
      Chain(was, b2, b3, [Ask(arm.test)] + [OpenIf], x);
      Chain(was, b3, b4, [Ask(arm.test)] + [OpenIf] + x, [Jump(1)]);
      Chain(was, b4, body, [Ask(arm.test)] + [OpenIf] + x + [Jump(1)], [End]);
    }

    /** A block: its statements, then the deferred blocks it registered. */
    method Sequence(sts: seq<Stmt>, ghost cleaning: bool, ghost scope: set<nat>)
      requires Ready(cleaning) && scope <= loops.Keys && WellFormedAll(sts, scope) && (cleaning ==> CleanAll(sts))
      modifies this
      ensures Ready(cleaning) && failed == old(failed) && (cleaning ==> stack == old(stack))
      ensures State(cleaning) == old(State(cleaning)) && pending == old(pending) && temps == old(temps)
      ensures Adds(old(body), body, FlatAll(BlockCode(sts, old(State(cleaning))), temps))
      decreases if cleaning then 0 else 1, if cleaning then pending else 0, 4, sts, 3
    {
      hide Adds, FlatAll, StmtCode, DefersCode, Flat;
      var base := pending;
      ghost var env, was, done := State(cleaning), body, [];
      Unchanged(was);
      var i := 0;
      assert sts[0..] == sts;
      while i < |sts|
        invariant i <= |sts| && Ready(cleaning) && failed == old(failed) && (cleaning ==> stack == old(stack))
        invariant base <= pending && stack[..base] == env.defers && (cleaning ==> pending == base) && temps == old(temps)
        invariant State(cleaning) == env.(defers := stack[..pending])
        invariant Adds(was, body, done)
        invariant done + FlatAll(FromCode(sts[i..], State(cleaning), base), temps) == FlatAll(FromCode(sts, env, base), temps)
      {
        ghost var now, here := State(cleaning), body;
        Statement(sts[i], cleaning, scope);
        assert sts[i..][0] == sts[i] && sts[i..][1..] == sts[i + 1..];
        ghost var x, rest := StmtCode(sts[i], now), FromCode(sts[i + 1..], State(cleaning), base);
        assert FromCode(sts[i..], now, base) == x + rest;
        FlatAppend(x, rest, temps);
        Chain(was, here, body, done, FlatAll(x, temps));
        done := Extend(done, FlatAll(x, temps), FlatAll(rest, temps));
        i := i + 1;
      }
      assert sts[i..] == [];
      ghost var b1, last := body, FlatAll(DefersCode(State(cleaning), base), temps);
      Defers(base, cleaning);
      Chain(was, b1, body, done, last);
      pending := base;
    }
  }

  /** A whole function: its tokens, parsed and run on any machine, do what the statements mean. */
  method EmitFunction(body: seq<Stmt>) returns (code: seq<Token>)
    requires WellFormedAll(body, {})
    ensures code == TokensAll(ExpandAll(FunctionCode(body), 0))
    ensures forall m: Machine, o: Oracle :: Means(RunTokens(code, m, o), body, m.run, o)
  {
    hide RunTokens, Means, ExpandAll, TokensAll, FlatAll, BlockCode;
    var g := new Emitter();
    g.Sequence(body, false, {});
    code := g.body + [Exit];
    assert !g.failed;
    FlatAppend(BlockCode(body, Env(0, [], map[], false, false)), [Leave], 0);
    FlatOne(Leave, 0);
    FlatAllIsTokens(FunctionCode(body), 0);
    assert code == TokensAll(ExpandAll(FunctionCode(body), 0));
    forall m: Machine, o: Oracle
      ensures Means(RunTokens(code, m, o), body, m.run, o)
    {
      EmittedMeaning(body, m, o);
    }
  }

  /** The tokens of a function mean its statements. */
  lemma EmittedMeaning(body: seq<Stmt>, m: Machine, o: Oracle)
    requires WellFormedAll(body, {})
    ensures Means(RunTokens(TokensAll(ExpandAll(FunctionCode(body), 0)), m, o), body, m.run, o)
  {
    hide RunTokens, Means, ExpandAll, TokensAll, FlatAll;
    FlatAllIsTokens(FunctionCode(body), 0);
    RunWritten(ExpandAll(FunctionCode(body), 0), m, o);
    InstructionsPreserveMeaning(body, m, o);
  }

  /** Moves the first part of what is still to come to what has been appended. */
  ghost function Extend(done: seq<Token>, x: seq<Token>, rest: seq<Token>): (r: seq<Token>)
    ensures r == done + x && r + rest == done + (x + rest)
  {
    done + x
  }

  lemma Unchanged(was: seq<Token>)
    ensures Adds(was, was, [])
  {
  }

  lemma FlatNone(level: nat)
    ensures FlatAll([], level) == []
    ensures forall x: seq<Token> :: x + [] == x
  {
  }

  lemma FlatCrash(level: nat)
    ensures Flat(Unreachable, level) == [Crash]
  {
  }

  lemma NoDefers(env: Env, to: nat)
    requires |env.defers| <= to
    ensures DefersCode(env, to) == []
  {
  }

  lemma CleanPrefix(blocks: seq<seq<Stmt>>, n: nat)
    requires n < |blocks| && CleanBlocks(blocks)
    ensures CleanBlocks(blocks[..n]) && CleanAll(blocks[n]) && WellFormedAll(blocks[n], {})
  {
  }

  lemma DefersFlat(env: Env, to: nat, level: nat)
    requires |env.defers| > to
    ensures var below := env.(defers := env.defers[..|env.defers| - 1]);
            FlatAll(DefersCode(env, to), level) ==
            FlatAll(BlockCode(env.defers[|env.defers| - 1], below.(cleaning := true)), level) + FlatAll(DefersCode(below, to), level)
  {
    var below := env.(defers := env.defers[..|env.defers| - 1]);
    FlatAppend(BlockCode(env.defers[|env.defers| - 1], below.(cleaning := true)), DefersCode(below, to), level);
  }

  function PartFlat(m: Micro, env: Env, level: nat): seq<Token> {
    match m
    case Effect(event) => [Perform(event)]
    case Check(test) => [Ask(test)] + ([Eqz] + [OpenIf] + FlatAll(FailCode(env), level) + [End])
  }

  lemma PartsFlat(e: Expr, env: Env, level: nat)
    requires e != []
    ensures FlatAll(ExprCode(e, env), level) == PartFlat(e[0], env, level) + FlatAll(ExprCode(e[1..], env), level)
  {
    hide FailCode;
    var first := if e[0].Effect? then Act(e[0].event) else IfThen(Negated(e[0].test), FailCode(env));
    FlatAppend([first], ExprCode(e[1..], env), level);
    FlatOne(first, level);
    assert Flat(first, level) == PartFlat(e[0], env, level);
  }

  lemma IfFlat(st: Stmt, env: Env, level: nat)
    requires st.If? && st.cond.Asked?
    ensures var x, inner := FlatAll(ExprCode(st.cond.operands, env), level), Nest(env, 1);
            var acc := x + [Ask(st.cond.test)] + [OpenIf] + FlatAll(BlockCode(st.thn, inner), level);
            FlatAll(StmtCode(st, env), level) ==
            (if st.els != [] then acc + [Else] + FlatAll(BlockCode(st.els, inner), level) else acc) + [End]
  {
    hide BlockCode, ExprCode;
    var operands := ExprCode(st.cond.operands, env);
    var code := StmtCode(st, env)[|operands|];
    FlatAppend(operands, [code], level);
    FlatOne(code, level);
  }

  function TestFlat(cond: Cond, env: Env, level: nat): seq<Token> {
    FlatAll(CondCode(cond, env), level) + FlatOperand(CondOperand(cond)) + [Eqz] + [JumpIf(1)]
  }

  /** The loop of a range, behind its setup. */
  function RangeFlat(st: Stmt, env: Env, level: nat): seq<Token>
    requires st.For?
  {
    [OpenBlock] + [OpenLoop] + (FlatTest(st.range, level) + [JumpIf(1)] + FlatPick(st.range, level))
    + ([OpenBlock] + FlatAll(BlockCode(st.body, InLoop(env, st.id)), level + LoopLocals) + [End])
    + (FlatLast(st.range, level) + FlatStep(st.range, level) + [Jump(0)]) + [End] + [End]
  }

  lemma ForFlat(st: Stmt, env: Env, level: nat)
    requires st.For?
    ensures FlatAll(StmtCode(st, env), level) ==
            FlatAll(ExprCode(st.range.operands, env), level) + FlatSetup(st.range, level) + RangeFlat(st, env, level)
  {
    hide BlockCode, ExprCode, FlatSetup, FlatTest, FlatPick, FlatLast, FlatStep;
    var c := Counted(st.range, BlockCode(st.body, InLoop(env, st.id)));
    FlatAppend(ExprCode(st.range.operands, env), [c], level);
    FlatOne(c, level);
    assert Flat(c, level) == FlatSetup(st.range, level) + RangeFlat(st, env, level);
  }

  lemma LoopFlat(st: Stmt, env: Env, level: nat)
    requires st.Loop?
    ensures FlatAll(StmtCode(st, env), level) ==
            [OpenBlock] + [OpenLoop] + TestFlat(st.cond, Nest(env, 2), level)
            + ([OpenBlock] + FlatAll(BlockCode(st.body, InLoop(env, st.id)), level) + [End]) + [Jump(0)] + [End] + [End]
  {
    hide BlockCode, ExprCode;
    var loop := IterationCode(st, env);
    IterationFlat(st, env, level);
    FlatOne(Repeat(loop), level);
    FlatOne(Block([Repeat(loop)]), level);
    assert StmtCode(st, env) == [Block([Repeat(loop)])];
  }

  lemma IterationFlat(st: Stmt, env: Env, level: nat)
    requires st.Loop?
    ensures FlatAll(IterationCode(st, env), level) ==
            TestFlat(st.cond, Nest(env, 2), level) + ([OpenBlock] + FlatAll(BlockCode(st.body, InLoop(env, st.id)), level) + [End]) + [Jump(0)]
  {
    hide BlockCode, ExprCode;
    var cond, test, again := CondCode(st.cond, Nest(env, 2)), BrUnless(CondOperand(st.cond), 1), AgainCode(st, env);
    assert IterationCode(st, env) == cond + [test] + again;
    FlatAppend(cond + [test], again, level);
    FlatAppend(cond, [test], level);
    FlatAppend([again[0]], [Br(0)], level);
    FlatOne(test, level);
    FlatOne(again[0], level);
    FlatOne(Br(0), level);
  }

  function ArmFlat(arm: Arm, env: Env, done: nat, level: nat): seq<Token> {
    [Ask(arm.test)] + [OpenIf] + FlatAll(BlockCode(arm.body, Nest(env, 1)), level) + [Jump(LabelOf(Nest(env, 1), done))] + [End]
  }

  lemma ArmsFlat(arms: seq<Arm>, env: Env, done: nat, level: nat)
    requires arms != []
    ensures FlatAll(ArmsCode(arms, env, done), level) == ArmFlat(arms[0], env, done, level) + FlatAll(ArmsCode(arms[1..], env, done), level)
  {
    hide BlockCode;
    var code, jump := BlockCode(arms[0].body, Nest(env, 1)), Br(LabelOf(Nest(env, 1), done));
    FlatAppend(code, [jump], level);
    FlatOne(jump, level);
    FlatOne(IfThen(Tested(arms[0].test), code + [jump]), level);
    FlatAppend([IfThen(Tested(arms[0].test), code + [jump])], ArmsCode(arms[1..], env, done), level);
  }

  lemma CaseFlat(st: Stmt, env: Env, level: nat)
    requires st.Case?
    ensures FlatAll(StmtCode(st, env), level) ==
            FlatAll(ExprCode(st.subject, env), level) + [OpenBlock] + FlatAll(ArmsCode(st.arms, Nest(env, 1), env.depth), level) + [Crash] + [End]
  {
    hide ExprCode, ArmsCode;
    var arms := ArmsCode(st.arms, Nest(env, 1), env.depth);
    FlatAppend(arms, [Unreachable], level);
    FlatOne(Unreachable, level);
    FlatOne(Block(arms + [Unreachable]), level);
    FlatAppend(ExprCode(st.subject, env), [Block(arms + [Unreachable])], level);
  }
}
