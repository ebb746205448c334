/**
 Range loops in WebAssembly: a counter in a local, compared and stepped in machine words.

 `Expand` turns structured code into instructions: operands go over the stack, and counted loops
 become blocks, loops and instructions on locals. Locals below a level belong to enclosing code
 and are left alone.
 */
module WasmCounters {
  import opened ControlFlow
  import opened Ranges
  import opened WasmControl
  import opened WasmControlProof
  import opened WasmTokens
  import R = WasmRange
  import N = WasmInteger
  import M = WasmMachine
  import A = WasmArithmetic
  import I = Integers

  // ----- straight code -----

  function FlatOperand(operand: Operand): seq<Token> {
    match operand
    case Constant(b) => [Const(b)]
    case Tested(test) => [Ask(test)]
    case Negated(test) => [Ask(test), Eqz]
  }

  /** Four locals a range loop uses: its bounds, its counter, and what it hands to the body. */
  const LoopLocals: nat := 4

  function Stop(range: Range, level: nat): nat {
    if range.reverse then level else level + 1
  }

  /** Both bounds and the counter's start. */
  function FlatSetup(range: Range, level: nat): seq<Token> {
    FlatLoad(level, range.first, range.typ) + FlatLoad(level + 1, range.last, range.typ)
    + FlatCopy(level + 2, if range.reverse then level + 1 else level)
  }

  function FlatLoad(x: nat, value: nat, typ: I.IntType): seq<Token> {
    [Push(value, typ)] + [SetLocal(x)]
  }

  function FlatCopy(x: nat, y: nat): seq<Token> {
    [GetLocal(y)] + [SetLocal(x)]
  }

  function FlatTest(range: Range, level: nat): seq<Token> {
    [GetLocal(level + 2)] + ([GetLocal(Stop(range, level))]
    + ([Plain(N.CompareOpcode(R.KeepGoing(range.inclusive, range.reverse), range.typ))] + [Eqz]))
  }

  /** The next integer, which lies below the counter when an exclusive range runs backwards. */
  function FlatPick(range: Range, level: nat): seq<Token> {
    (if range.reverse && !range.inclusive then FlatAdvance(level + 3, level + 2, range.typ, true) else FlatCopy(level + 3, level + 2))
    + ([GetLocal(level + 3)] + [StoreTo(range.local, range.typ)])
  }

  function FlatAdvance(x: nat, y: nat, typ: I.IntType, down: bool): seq<Token> {
    [GetLocal(y)] + ([One(A.Wide(typ))] + ([Plain(if down then Minus(typ) else Plus(typ))] + [SetLocal(x)]))
  }

  /** An inclusive loop ends at its bound before the counter could wrap. */
  function FlatLast(range: Range, level: nat): seq<Token> {
    if range.inclusive then FlatSame(range, level) + [JumpIf(1)] else []
  }

  function FlatSame(range: Range, level: nat): seq<Token> {
    [GetLocal(level + 2)] + ([GetLocal(Stop(range, level))] + [Plain(if A.Wide(range.typ) then 0x51 else 0x46)])
  }

  function FlatStep(range: Range, level: nat): seq<Token> {
    FlatAdvance(level + 2, level + 2, range.typ, range.reverse)
  }

  function Plus(typ: I.IntType): nat {
    0x6a + (if A.Wide(typ) then 0x12 else 0)
  }

  function Minus(typ: I.IntType): nat {
    if A.Wide(typ) then 0x7d else 0x6b
  }

  // ----- expansion -----

  /** The loop's body: the test, the next integer, the body in its own block, and the step. */
  function RangeBody(range: Range, body: seq<Tree>, level: nat): seq<Tree> {
    Leaves(FlatTest(range, level) + [JumpIf(1)] + FlatPick(range, level)) + RestOf(range, body, level)
  }

  /** What is left of an iteration once the loop's local has its integer. */
  function RestOf(range: Range, body: seq<Tree>, level: nat): seq<Tree> {
    [BlockTree(body)] + Leaves(FlatLast(range, level) + FlatStep(range, level) + [Jump(0)])
  }

  function Expand(c: Code, level: nat): seq<Tree>
    decreases c, 0
  {
    match c
    case Act(event) => Leaves([Perform(event)])
    case Block(body) => [BlockTree(ExpandAll(body, level))]
    case Repeat(body) => [LoopTree(ExpandAll(body, level))]
    case IfThen(operand, thn) => Leaves(FlatOperand(operand)) + [IfTree(ExpandAll(thn, level))]
    case IfElse(operand, thn, els) => Leaves(FlatOperand(operand)) + [IfElseTree(ExpandAll(thn, level), ExpandAll(els, level))]
    case Br(index) => Leaves([Jump(index)])
    case BrUnless(operand, index) => Leaves(FlatOperand(operand) + ([Eqz] + [JumpIf(index)]))
    case Counted(range, body) =>
      Leaves(FlatSetup(range, level)) + [BlockTree([LoopTree(RangeBody(range, ExpandAll(body, level + LoopLocals), level))])]
    case Leave => Leaves([Exit])
    case Unreachable => Leaves([Crash])
  }

  function ExpandAll(code: seq<Code>, level: nat): seq<Tree>
    decreases code, 1
  {
    if code == [] then [] else Expand(code[0], level) + ExpandAll(code[1..], level)
  }

  // ----- correctness -----

  /** What the machine's result says about the run. */
  function Erased(r: Result<Machine>): Result<State> {
    match r
    case Next(m) => Next(m.run)
    case Branch(index, m) => Branch(index, m.run)
    case Left(m) => Left(m.run)
    case Trap(m) => Trap(m.run)
    case NoFuel => NoFuel
    case Invalid => Invalid
  }

  /** Locals below a level are as before; so is the stack, unless a branch or the end of the function cuts it anyway. */
  predicate Kept(m: Machine, r: Result<Machine>, level: nat) {
    r.NoFuel? || r.Invalid? || ((forall x :: 0 <= x < level ==> Get(r.s, x) == Get(m, x)) && (r.Next? ==> r.s.stack == m.stack))
  }

  ghost predicate Simulates(r: Result<Machine>, x: Result<State>, m: Machine, level: nat) {
    Erased(r) == x && Kept(m, r, level)
  }

  lemma {:induction false} ExpandAllCorrect(code: seq<Code>, level: nat, m: Machine, o: Oracle)
    ensures Simulates(RunTrees(ExpandAll(code, level), m, o), RunAll(code, m.run, o), m, level)
    decreases m.run.fuel, code, 3
  {
    hide Expand, RunOne;
    if code != [] {
      ExpandCorrect(code[0], level, m, o);
      WasmTokens.RunAppend(Expand(code[0], level), ExpandAll(code[1..], level), m, o);
      var r := RunTrees(Expand(code[0], level), m, o);
      if r.Next? {
        ExpandAllCorrect(code[1..], level, r.s, o);
      }
    }
  }

  lemma {:induction false} ExpandCorrect(c: Code, level: nat, m: Machine, o: Oracle)
    ensures Simulates(RunTrees(Expand(c, level), m, o), RunOne(c, m.run, o), m, level)
    decreases m.run.fuel, c, 2
  {
    match c
    case Block(_) => NestedCorrect(c, level, m, o);
    case IfThen(_, _) => NestedCorrect(c, level, m, o);
    case IfElse(_, _, _) => NestedCorrect(c, level, m, o);
    case Repeat(body) =>
      WasmTokens.RunSingle(LoopTree(ExpandAll(body, level)), m, o);
      RepeatCorrect(c, level, m, o);
    case Counted(range, body) => CountedCorrect(c, level, m, o);
    case _ => PlainCorrect(c, level, m, o);
  }

  lemma PlainCorrect(c: Code, level: nat, m: Machine, o: Oracle)
    requires c.Act? || c.Br? || c.BrUnless? || c.Leave? || c.Unreachable?
    ensures Simulates(RunTrees(Expand(c, level), m, o), RunOne(c, m.run, o), m, level)
  {
    hide RunTrees, Straight;
    if c.BrUnless? {
      var ts := FlatOperand(c.operand) + ([Eqz] + [JumpIf(c.index)]);
      LeavesRun(ts, m, o);
      UnlessRuns(c.operand, c.index, m, o);
    } else {
      var t := match c case Act(event) => Perform(event) case Br(index) => Jump(index) case Leave => Exit case _ => Crash;
      LeavesRun([t], m, o);
      StraightFirst(t, [], m, o);
    }
  }

  lemma LeavesRun(ts: seq<Token>, m: Machine, o: Oracle)
    ensures RunTrees(Leaves(ts), m, o) == Straight(ts, m, o)
  {
    LeavesThen(ts, [], m, o);
    assert Leaves(ts) + [] == Leaves(ts);
    var r := Straight(ts, m, o);
    assert r.Next? ==> RunTrees([], r.s, o) == r;
  }

  /** `eqz` on a truth value. */
  lemma Negates(b: bool, m: Machine, o: Oracle)
    ensures StepToken(Eqz, With(m, M.Truth(b)), o) == Next(With(m, M.Truth(!b)))
  {
    assert (m.stack + [M.Truth(b)])[..|m.stack|] == m.stack;
  }

  /** An operand leaves its truth value on the stack. */
  lemma OperandRuns(operand: Operand, m: Machine, o: Oracle)
    ensures Straight(FlatOperand(operand), m, o) == Next(With(m, M.Truth(Holds(operand, m.run, o))))
  {
    hide Straight;
    match operand
    case Constant(b) => StraightFirst(Const(b), [], m, o);
    case Tested(test) => StraightFirst(Ask(test), [], m, o);
    case Negated(test) =>
      assert FlatOperand(operand) == [Ask(test)] + [Eqz];
      StraightFirst(Ask(test), [Eqz], m, o);
      StraightFirst(Eqz, [], With(m, M.Truth(o.test(test, m.run.trace))), o);
      Negates(o.test(test, m.run.trace), m, o);
  }

  /** A conditional branch takes its operand off the stack. */
  lemma JumpIfRuns(b: bool, index: nat, m: Machine, o: Oracle)
    ensures StepToken(JumpIf(index), With(m, M.Truth(b)), o) == if b then Branch(index, m) else Next(m)
  {
    assert Popped(With(m, M.Truth(b))) == m;
  }

  lemma UnlessRuns(operand: Operand, index: nat, m: Machine, o: Oracle)
    ensures Straight(FlatOperand(operand) + ([Eqz] + [JumpIf(index)]), m, o) ==
            if Holds(operand, m.run, o) then Next(m) else Branch(index, m)
  {
    hide Straight, FlatOperand, StepToken;
    var b := Holds(operand, m.run, o);
    OperandRuns(operand, m, o);
    StraightAppend(FlatOperand(operand), [Eqz] + [JumpIf(index)], m, o);
    EqzJumpRuns(b, index, m, o);
  }

  lemma EqzJumpRuns(b: bool, index: nat, m: Machine, o: Oracle)
    ensures Straight([Eqz] + [JumpIf(index)], With(m, M.Truth(b)), o) == if b then Next(m) else Branch(index, m)
  {
    hide Straight, StepToken;
    Negates(b, m, o);
    StraightFirst(Eqz, [JumpIf(index)], With(m, M.Truth(b)), o);
    StraightFirst(JumpIf(index), [], With(m, M.Truth(!b)), o);
    JumpIfRuns(!b, index, m, o);
  }

  lemma {:induction false} NestedCorrect(c: Code, level: nat, m: Machine, o: Oracle)
    requires c.Block? || c.IfThen? || c.IfElse?
    ensures Simulates(RunTrees(Expand(c, level), m, o), RunOne(c, m.run, o), m, level)
    decreases m.run.fuel, c, 1
  {
    hide RunTrees, ExpandAll, RunAll, FlatOperand, Straight;
    if c.Block? {
      WasmTokens.RunSingle(BlockTree(ExpandAll(c.body, level)), m, o);
      ExpandAllCorrect(c.body, level, Opened(m), o);
      ClosedSimulates(RunTrees(ExpandAll(c.body, level), Opened(m), o), RunAll(c.body, m.run, o), m, level);
    } else {
      var tree := if c.IfThen? then IfTree(ExpandAll(c.thn, level)) else IfElseTree(ExpandAll(c.thn, level), ExpandAll(c.els, level));
      var m1 := With(m, M.Truth(Holds(c.operand, m.run, o)));
      LeavesThen(FlatOperand(c.operand), [tree], m, o);
      OperandRuns(c.operand, m, o);
      WasmTokens.RunSingle(tree, m1, o);
      assert Popped(m1) == m && Opened(m1) == Opened(m) && Top(m1) == M.Truth(Holds(c.operand, m.run, o));
      if Holds(c.operand, m.run, o) {
        ExpandAllCorrect(c.thn, level, Opened(m), o);
        ClosedSimulates(RunTrees(ExpandAll(c.thn, level), Opened(m), o), RunAll(c.thn, m.run, o), m, level);
      } else if c.IfElse? {
        ExpandAllCorrect(c.els, level, Opened(m), o);
        ClosedSimulates(RunTrees(ExpandAll(c.els, level), Opened(m), o), RunAll(c.els, m.run, o), m, level);
      }
    }
  }

  /** Leaving a structured instruction, on the machine and in structured code. */
  lemma ClosedSimulates(r: Result<Machine>, x: Result<State>, m: Machine, level: nat)
    requires Simulates(r, x, Opened(m), level)
    ensures Simulates(Closed(r, m.stack), Unlabel(x), m, level)
  {
    assert forall y: nat :: Get(Opened(m), y) == Get(m, y);
  }

  lemma {:induction false} RepeatCorrect(c: Code, level: nat, m: Machine, o: Oracle)
    requires c.Repeat?
    ensures Simulates(Run1(LoopTree(ExpandAll(c.body, level)), m, o), RunOne(c, m.run, o), m, level)
    decreases m.run.fuel, c, 1
  {
    hide RunTrees, ExpandAll, RunAll;
    if m.run.fuel > 0 {
      var m1 := Opened(m.(run := Spend(m.run)));
      ExpandAllCorrect(c.body, level, m1, o);
      var r := RunTrees(ExpandAll(c.body, level), m1, o);
      if r.Branch? && r.index == 0 {
        var m2 := r.s.(stack := m.stack);
        SameLocals(r.s, m2);
        SameLocals(m, m1);
        RepeatCorrect(c, level, m2, o);
        KeptOn(m, m2, Run1(LoopTree(ExpandAll(c.body, level)), m2, o), level);
      } else {
        ClosedSimulates(r, RunAll(c.body, m1.run, o), m.(run := m1.run), level);
      }
    }
  }

  lemma KeptOn(m: Machine, m1: Machine, r: Result<Machine>, level: nat)
    requires Kept(m1, r, level) && (forall x :: 0 <= x < level ==> Get(m1, x) == Get(m, x)) && m1.stack == m.stack
    ensures Kept(m, r, level)
  {
  }

  // ----- the counter -----

  /** The machine before a look at the loop's `n`-th integer. */
  ghost predicate Ready(m: Machine, range: Range, level: nat, first: int, last: int, n: nat) {
    && I.InRange(range.typ, PointerBytes, first) && I.InRange(range.typ, PointerBytes, last)
    && n <= Count(first, last, range.inclusive)
    && I.InRange(range.typ, PointerBytes, R.Place(first, last, range.reverse, n))
    && Get(m, Stop(range, level)) == A.Canonical(range.typ, if range.reverse then first else last)
    && Get(m, level + 2) == A.Canonical(range.typ, R.Place(first, last, range.reverse, n))
  }

  lemma ViewCanonical(typ: I.IntType, n: int)
    requires I.InRange(typ, PointerBytes, n)
    ensures View(typ, A.Canonical(typ, n)) == n
  {
    A.Views(typ, n);
  }

  lemma SetTop(x: nat, w: M.Word, m: Machine, o: Oracle)
    ensures StepToken(SetLocal(x), With(m, w), o) == Next(Set(m, x, w))
  {
    assert Popped(With(m, w)) == m;
  }

  lemma LoadRuns(x: nat, value: nat, typ: I.IntType, m: Machine, o: Oracle)
    ensures Straight(FlatLoad(x, value, typ), m, o) == Next(Set(m, x, A.Canonical(typ, BoundOf(typ, value, m.run, o))))
  {
    hide Straight, A.Canonical, BoundOf;
    var w := A.Canonical(typ, BoundOf(typ, value, m.run, o));
    StraightFirst(Push(value, typ), [SetLocal(x)], m, o);
    StraightFirst(SetLocal(x), [], With(m, w), o);
    SetTop(x, w, m, o);
  }

  lemma CopyRuns(x: nat, y: nat, m: Machine, o: Oracle)
    ensures Straight(FlatCopy(x, y), m, o) == Next(Set(m, x, Get(m, y)))
  {
    hide Straight;
    StraightFirst(GetLocal(y), [SetLocal(x)], m, o);
    StraightFirst(SetLocal(x), [], With(m, Get(m, y)), o);
    SetTop(x, Get(m, y), m, o);
  }

  /** A binary instruction on the two words on top. */
  lemma BinaryRuns(opcode: nat, a: M.Word, b: M.Word, m: Machine, o: Oracle)
    requires var operation := M.Decode(opcode); (operation.Numeric? || operation.Test?) && a.width == b.width == operation.width
    requires var operation := M.Decode(opcode); operation.Numeric? ==> M.Compute(operation.iop, operation.width, a.bits, b.bits).Push?
    ensures var operation := M.Decode(opcode);
            StepToken(Plain(opcode), With(With(m, a), b), o) ==
            Next(With(m, if operation.Test? then M.Truth(M.Relate(operation.relation, operation.width, a.bits, b.bits))
                         else M.Compute(operation.iop, operation.width, a.bits, b.bits).word))
  {
    hide M.Decode, M.Compute, M.Relate;
    var f := M.Frame(m.stack, map[], 0);
    assert M.Frame(m.stack + [a] + [b], map[], 0) == M.PushOn(M.PushOn(f, a), b);
    M.PopPush(f, a);
    M.PopPush(M.PushOn(f, a), b);
  }

  /** The step's opcodes add and subtract in the counter's width. */
  lemma StepOpcodes(typ: I.IntType)
    ensures M.Decode(Plus(typ)) == M.Numeric(A.WidthOf(typ), M.IAdd) && M.Decode(Minus(typ)) == M.Numeric(A.WidthOf(typ), M.ISub)
    ensures M.Decode(if A.Wide(typ) then 0x51 else 0x46) == M.Test(A.WidthOf(typ), M.REq)
  {
  }

  lemma AdvanceRuns(x: nat, y: nat, typ: I.IntType, down: bool, m: Machine, o: Oracle)
    requires Get(m, y).width == A.WidthOf(typ)
    ensures Straight(FlatAdvance(x, y, typ, down), m, o) == Next(Set(m, x, R.Advance(A.WidthOf(typ), Get(m, y), down)))
  {
    hide Straight, M.Decode, Plus, Minus;
    var opcode, a := if down then Minus(typ) else Plus(typ), Get(m, y);
    var one: M.Word := M.RawWord(if A.Wide(typ) then M.W64 else M.W32, 1);
    var w := R.Advance(A.WidthOf(typ), a, down);
    StepOpcodes(typ);
    StraightFirst(GetLocal(y), [One(A.Wide(typ))] + ([Plain(opcode)] + [SetLocal(x)]), m, o);
    StraightFirst(One(A.Wide(typ)), [Plain(opcode)] + [SetLocal(x)], With(m, a), o);
    BinaryRuns(opcode, a, one, m, o);
    StraightFirst(Plain(opcode), [SetLocal(x)], With(With(m, a), one), o);
    StraightFirst(SetLocal(x), [], With(m, w), o);
    SetTop(x, w, m, o);
  }

  lemma GoingOpcode(typ: I.IntType, inclusive: bool, reverse: bool)
    ensures var operation := M.Decode(N.CompareOpcode(R.KeepGoing(inclusive, reverse), typ));
            operation.Test? && operation.width == A.WidthOf(typ)
  {
  }

  /** The loop's test, negated for the branch that leaves. */
  lemma TestRuns(range: Range, level: nat, m: Machine, o: Oracle)
    requires Get(m, level + 2).width == Get(m, Stop(range, level)).width == A.WidthOf(range.typ)
    ensures Straight(FlatTest(range, level) + [JumpIf(1)], m, o) ==
            if R.Going(range.typ, Get(m, level + 2), Get(m, Stop(range, level)), range.inclusive, range.reverse) then Next(m) else Branch(1, m)
  {
    hide Straight, M.Decode, N.CompareOpcode, Stop, StepToken;
    var x, y := level + 2, Stop(range, level);
    var opcode, a, b := N.CompareOpcode(R.KeepGoing(range.inclusive, range.reverse), range.typ), Get(m, x), Get(m, y);
    var going := R.Going(range.typ, a, b, range.inclusive, range.reverse);
    GoingOpcode(range.typ, range.inclusive, range.reverse);
    var tail := [Eqz] + [JumpIf(1)];
    assert FlatTest(range, level) + [JumpIf(1)] == [GetLocal(x)] + ([GetLocal(y)] + ([Plain(opcode)] + tail));
    TwoLocals(x, y, [Plain(opcode)] + tail, m, o);
    BinaryRuns(opcode, a, b, m, o);
    StraightFirst(Plain(opcode), tail, With(With(m, a), b), o);
    EqzJumpRuns(going, 1, m, o);
  }

  lemma TwoLocals(x: nat, y: nat, rest: seq<Token>, m: Machine, o: Oracle)
    ensures Straight([GetLocal(x)] + ([GetLocal(y)] + rest), m, o) == Straight(rest, With(With(m, Get(m, x)), Get(m, y)), o)
  {
    hide Straight;
    StraightFirst(GetLocal(x), [GetLocal(y)] + rest, m, o);
    StraightFirst(GetLocal(y), rest, With(m, Get(m, x)), o);
  }

  lemma SameRuns(range: Range, level: nat, m: Machine, o: Oracle)
    requires Get(m, level + 2).width == Get(m, Stop(range, level)).width == A.WidthOf(range.typ)
    ensures Straight(FlatSame(range, level) + [JumpIf(1)], m, o) ==
            if Get(m, level + 2).bits == Get(m, Stop(range, level)).bits then Branch(1, m) else Next(m)
  {
    hide Straight, M.Decode, Stop, StepToken;
    var x, y, opcode := level + 2, Stop(range, level), if A.Wide(range.typ) then 0x51 else 0x46;
    var a, b := Get(m, x), Get(m, y);
    var same := a.bits == b.bits;
    StepOpcodes(range.typ);
    assert FlatSame(range, level) + [JumpIf(1)] == [GetLocal(x)] + ([GetLocal(y)] + ([Plain(opcode)] + [JumpIf(1)]));
    TwoLocals(x, y, [Plain(opcode)] + [JumpIf(1)], m, o);
    BinaryRuns(opcode, a, b, m, o);
    StraightFirst(Plain(opcode), [JumpIf(1)], With(With(m, a), b), o);
    StraightFirst(JumpIf(1), [], With(m, M.Truth(same)), o);
    JumpIfRuns(same, 1, m, o);
  }

  /** Handing the loop's local its integer. */
  lemma PickRuns(range: Range, level: nat, m: Machine, o: Oracle)
    requires Get(m, level + 2).width == A.WidthOf(range.typ)
    ensures var w := if range.reverse && !range.inclusive then R.Advance(A.WidthOf(range.typ), Get(m, level + 2), true) else Get(m, level + 2);
            Straight(FlatPick(range, level), m, o) ==
            Next(Set(m, level + 3, w).(run := Emit(m.run, Visited(range.local, View(range.typ, w)))))
  {
    hide Straight, R.Advance, View, FlatCopy, FlatAdvance;
    var typ, down := range.typ, range.reverse && !range.inclusive;
    var w := if down then R.Advance(A.WidthOf(typ), Get(m, level + 2), true) else Get(m, level + 2);
    var m1 := Set(m, level + 3, w);
    var store := [GetLocal(level + 3)] + [StoreTo(range.local, typ)];
    if down {
      AdvanceRuns(level + 3, level + 2, typ, true, m, o);
      StraightAppend(FlatAdvance(level + 3, level + 2, typ, true), store, m, o);
    } else {
      CopyRuns(level + 3, level + 2, m, o);
      StraightAppend(FlatCopy(level + 3, level + 2), store, m, o);
    }
    StraightFirst(GetLocal(level + 3), [StoreTo(range.local, typ)], m1, o);
    StraightFirst(StoreTo(range.local, typ), [], With(m1, w), o);
    assert Popped(With(m1, w)) == m1;
  }

  lemma CanonicalWidth(typ: I.IntType, n: int)
    ensures A.Canonical(typ, n).width == A.WidthOf(typ)
  {
  }

  /** The test ends the loop behind the last integer, and otherwise the next one is handed over. */
  lemma RangeHead(range: Range, body: seq<Tree>, level: nat, first: int, last: int, n: nat, m: Machine, o: Oracle) returns (m2: Machine)
    requires Ready(m, range, level, first, last, n)
    ensures n >= Count(first, last, range.inclusive) ==> RunTrees(RangeBody(range, body, level), m, o) == Branch(1, m)
    ensures n < Count(first, last, range.inclusive) ==>
              && RunTrees(RangeBody(range, body, level), m, o) == RunTrees(RestOf(range, body, level), m2, o)
              && m2.run == Emit(m.run, Visited(range.local, Nth(first, last, range.inclusive, range.reverse, n)))
              && (forall x :: 0 <= x < level + 3 ==> Get(m2, x) == Get(m, x)) && m2.stack == m.stack
              && Ready(m2, range, level, first, last, n)
  {
    hide RunTrees, Run1, Straight, FlatTest, FlatPick, RestOf, R.Going, A.Canonical, R.Advance, View, I.InRange, R.Place, Count, Nth, I.Compare, R.KeepGoing, A.WidthOf;
    var typ, at := range.typ, R.Place(first, last, range.reverse, n);
    var bound := if range.reverse then first else last;
    R.Counting(typ, first, last, range.inclusive, range.reverse, n);
    R.Tests(typ, at, bound, range.inclusive, range.reverse);
    CanonicalWidth(typ, at);
    CanonicalWidth(typ, bound);
    var test, pick := FlatTest(range, level) + [JumpIf(1)], FlatPick(range, level);
    LeavesThen(test + pick, RestOf(range, body, level), m, o);
    StraightAppend(test, pick, m, o);
    TestRuns(range, level, m, o);
    m2 := m;
    if n < Count(first, last, range.inclusive) {
      var value := Nth(first, last, range.inclusive, range.reverse, n);
      R.AdvanceCanonical(typ, at, true);
      PickRuns(range, level, m, o);
      ViewCanonical(typ, value);
      m2 := Set(m, level + 3, A.Canonical(typ, value)).(run := Emit(m.run, Visited(range.local, value)));
    }
  }

  /** After the body an inclusive loop leaves at its bound; otherwise the counter moves on and the loop starts over. */
  lemma RangeTail(range: Range, level: nat, first: int, last: int, n: nat, m: Machine, o: Oracle) returns (m2: Machine)
    requires Ready(m, range, level, first, last, n) && n < Count(first, last, range.inclusive)
    ensures var done := range.inclusive && n + 1 == Count(first, last, range.inclusive);
            && Straight(FlatLast(range, level) + FlatStep(range, level) + [Jump(0)], m, o) == (if done then Branch(1, m) else Branch(0, m2))
            && (!done ==> m2.run == m.run && Ready(m2, range, level, first, last, n + 1)
                          && forall x :: 0 <= x < level + 2 ==> Get(m2, x) == Get(m, x))
  {
    hide Straight, FlatSame, FlatAdvance, R.Going, A.Canonical, R.Advance, I.InRange, I.Compare, R.KeepGoing, A.WidthOf;
    var typ, at := range.typ, R.Place(first, last, range.reverse, n);
    var bound := if range.reverse then first else last;
    R.Counting(typ, first, last, range.inclusive, range.reverse, n);
    R.Tests(typ, at, bound, range.inclusive, range.reverse);
    R.AdvanceCanonical(typ, at, range.reverse);
    CanonicalWidth(typ, at);
    CanonicalWidth(typ, bound);
    m2 := Set(m, level + 2, A.Canonical(typ, R.Place(first, last, range.reverse, n + 1)));
    var leave, step := FlatLast(range, level), FlatStep(range, level);
    StraightAppend(leave + step, [Jump(0)], m, o);
    StraightAppend(leave, step, m, o);
    if range.inclusive {
      SameRuns(range, level, m, o);
    } else {
      StraightNone(m, o);
    }
    AdvanceRuns(level + 2, level + 2, typ, range.reverse, m, o);
    StraightFirst(Jump(0), [], m2, o);
  }

  lemma StraightNone(m: Machine, o: Oracle)
    ensures Straight([], m, o) == Next(m)
  {
  }

  /** One iteration behind the hand-over: the body, then the end of an inclusive loop or the step. */
  lemma RangeRound(range: Range, body: seq<Tree>, level: nat, first: int, last: int, n: nat, m: Machine, o: Oracle) returns (m3: Machine)
    requires Ready(m, range, level, first, last, n) && n < Count(first, last, range.inclusive) && m.stack == []
    requires Kept(m, RunTrees(body, m, o), level + LoopLocals)
    ensures var x := Closed(RunTrees(body, m, o), []);
            var done := range.inclusive && n + 1 == Count(first, last, range.inclusive);
            && (x.Next? ==> RunTrees(RestOf(range, body, level), m, o) == (if done then Branch(1, x.s) else Branch(0, m3)))
            && (!x.Next? ==> RunTrees(RestOf(range, body, level), m, o) == x)
            && (x.Next? && !done ==>
                  m3.run == x.s.run && Ready(m3, range, level, first, last, n + 1) && forall y :: 0 <= y < level ==> Get(m3, y) == Get(m, y))
            && (!x.NoFuel? && !x.Invalid? ==>
                  Ready(x.s, range, level, first, last, n) && forall y :: 0 <= y < level ==> Get(x.s, y) == Get(m, y))
  {
    hide Ready, Count, RunTrees, FlatLast, FlatStep, Straight, RestOf;
    BodyThenStep(range, body, level, m, o);
    var x := Closed(RunTrees(body, m, o), []);
    m3 := m;
    if !x.NoFuel? && !x.Invalid? {
      assert forall y: nat :: Get(x.s, y) == Get(RunTrees(body, m, o).s, y);
      ReadyRun(m, x.s, range, level, first, last, n);
      if x.Next? {
        m3 := RangeTail(range, level, first, last, n, x.s, o);
      }
    }
  }

  /** The emitted loop from any integer on: the same visits, the same exits. */
  lemma {:induction false} RangeLoop(c: Code, level: nat, first: int, last: int, n: nat, m: Machine, o: Oracle)
    requires c.Counted? && Ready(m, c.range, level, first, last, n) && m.stack == []
    ensures var loop := LoopTree(RangeBody(c.range, ExpandAll(c.body, level + LoopLocals), level));
            Simulates(Closed(Run1(loop, m, o), []), RunCounted(c, first, last, n, m.run, o), m, level)
    decreases m.run.fuel, c, 0
  {
    hide Ready, RangeBody, ExpandAll, Count, Nth, RunTrees, RestOf, Straight, Get, RunAll;
    var range, body := c.range, ExpandAll(c.body, level + LoopLocals);
    var loop, count := LoopTree(RangeBody(range, body, level)), Count(first, last, range.inclusive);
    if m.run.fuel > 0 {
      var m1 := Opened(m.(run := Spend(m.run)));
      SameLocals(m, m1);
      ReadyRun(m, m1, range, level, first, last, n);
      var m2 := RangeHead(range, body, level, first, last, n, m1, o);
      if n < count {
        ExpandAllCorrect(c.body, level + LoopLocals, m2, o);
        var x := Closed(RunTrees(body, m2, o), []);
        var m3 := RangeRound(range, body, level, first, last, n, m2, o);
        if x.Next? && !(range.inclusive && n + 1 == count) {
          RangeAgain(c, level, first, last, n + 1, m, m3, o);
        } else if x.Branch? && x.index == 0 {
          RangeAgain(c, level, first, last, n, m, x.s, o);
        } else {
          LeftTwice(if x.Next? then Branch(1, x.s) else x, m, level);
        }
      } else {
        LeftTwice(Branch(1, m1), m, level);
      }
    }
  }

  /** Leaving the loop and the block around it. */
  lemma LeftTwice(y: Result<Machine>, m: Machine, level: nat)
    requires !y.Next? && m.stack == [] && (y.NoFuel? || y.Invalid? || forall x :: 0 <= x < level ==> Get(y.s, x) == Get(m, x))
    ensures Simulates(Closed(Closed(y, []), []), Unlabel(Unlabel(Erased(y))), m, level)
  {
  }

  /** The loop starts over on a machine that kept the outer locals. */
  lemma {:induction false} RangeAgain(c: Code, level: nat, first: int, last: int, n: nat, m: Machine, m3: Machine, o: Oracle)
    requires c.Counted? && Ready(m3, c.range, level, first, last, n) && m.stack == []
    requires forall x :: 0 <= x < level ==> Get(m3, x) == Get(m, x)
    ensures var loop := LoopTree(RangeBody(c.range, ExpandAll(c.body, level + LoopLocals), level));
            Simulates(Closed(Run1(loop, Opened(m3), o), []), RunCounted(c, first, last, n, m3.run, o), m, level)
    decreases m3.run.fuel, c, 1
  {
    hide Ready, RangeBody, ExpandAll, Run1, RunCounted, Get;
    var m4 := Opened(m3);
    SameLocals(m3, m4);
    ReadyRun(m3, m4, c.range, level, first, last, n);
    RangeLoop(c, level, first, last, n, m4, o);
    KeptOn(m, m4, Closed(Run1(LoopTree(RangeBody(c.range, ExpandAll(c.body, level + LoopLocals), level)), m4, o), []), level);
  }

  lemma SameLocals(m: Machine, m': Machine)
    requires m'.locals == m.locals
    ensures forall x :: Get(m', x) == Get(m, x)
  {
  }

  /** The body in its block, then the step. */
  lemma BodyThenStep(range: Range, body: seq<Tree>, level: nat, m: Machine, o: Oracle)
    requires m.stack == []
    ensures var x := Closed(RunTrees(body, m, o), []);
            RunTrees(RestOf(range, body, level), m, o) ==
            if x.Next? then Straight(FlatLast(range, level) + FlatStep(range, level) + [Jump(0)], x.s, o) else x
  {
    hide RunTrees, FlatLast, FlatStep, Straight;
    var step := FlatLast(range, level) + FlatStep(range, level) + [Jump(0)];
    WasmTokens.RunAppend([BlockTree(body)], Leaves(step), m, o);
    WasmTokens.RunSingle(BlockTree(body), m, o);
    assert Opened(m) == m;
    var x := Closed(RunTrees(body, m, o), []);
    if x.Next? {
      LeavesRun(step, x.s, o);
    }
  }

  lemma ReadyRun(m: Machine, m': Machine, range: Range, level: nat, first: int, last: int, n: nat)
    requires Ready(m, range, level, first, last, n) && forall x :: 0 <= x < level + 3 ==> Get(m', x) == Get(m, x)
    ensures Ready(m', range, level, first, last, n)
  {
  }

  lemma {:induction false} CountedCorrect(c: Code, level: nat, m: Machine, o: Oracle)
    requires c.Counted?
    ensures Simulates(RunTrees(Expand(c, level), m, o), RunOne(c, m.run, o), m, level)
    decreases m.run.fuel, c, 1
  {
    hide RangeBody, ExpandAll, AfterSetup, Ready, FlatSetup, RunTrees, Straight;
    var range := c.range;
    var first, last := BoundOf(range.typ, range.first, m.run, o), BoundOf(range.typ, range.last, m.run, o);
    var loop := LoopTree(RangeBody(range, ExpandAll(c.body, level + LoopLocals), level));
    SetupRuns(range, level, m, o);
    SetupReady(range, level, m, o);
    var m1 := AfterSetup(range, level, m, o);
    LeavesThen(FlatSetup(range, level), [BlockTree([loop])], m, o);
    WasmTokens.RunSingle(BlockTree([loop]), m1, o);
    WasmTokens.RunSingle(loop, Opened(m1), o);
    ReadyRun(m1, Opened(m1), range, level, first, last, 0);
    RangeLoop(c, level, first, last, 0, Opened(m1), o);
  }

  lemma StartFits(range: Range, s: State, o: Oracle)
    ensures var first, last := BoundOf(range.typ, range.first, s, o), BoundOf(range.typ, range.last, s, o);
            && I.InRange(range.typ, PointerBytes, first) && I.InRange(range.typ, PointerBytes, last)
            && R.Place(first, last, range.reverse, 0) == (if range.reverse then last else first)
  {
  }

  /** The machine after a loop's bounds and counter have been set. */
  function AfterSetup(range: Range, level: nat, m: Machine, o: Oracle): Machine {
    var ma := Set(m, level, A.Canonical(range.typ, BoundOf(range.typ, range.first, m.run, o)));
    var mb := Set(ma, level + 1, A.Canonical(range.typ, BoundOf(range.typ, range.last, m.run, o)));
    Set(mb, level + 2, Get(mb, if range.reverse then level + 1 else level))
  }

  lemma SetRun(m: Machine, x: nat, w: M.Word)
    ensures Set(m, x, w).run == m.run
  {
  }

  lemma SetupRuns(range: Range, level: nat, m: Machine, o: Oracle)
    ensures Straight(FlatSetup(range, level), m, o) == Next(AfterSetup(range, level, m, o))
  {
    hide Straight, A.Canonical, BoundOf, FlatLoad, FlatCopy, Set, Get;
    SetRun(m, level, A.Canonical(range.typ, BoundOf(range.typ, range.first, m.run, o)));
    var typ, from := range.typ, if range.reverse then level + 1 else level;
    var ma := Set(m, level, A.Canonical(typ, BoundOf(typ, range.first, m.run, o)));
    var mb := Set(ma, level + 1, A.Canonical(typ, BoundOf(typ, range.last, m.run, o)));
    var a, b, copy := FlatLoad(level, range.first, typ), FlatLoad(level + 1, range.last, typ), FlatCopy(level + 2, from);
    StraightAppend(a + b, copy, m, o);
    StraightAppend(a, b, m, o);
    LoadRuns(level, range.first, typ, m, o);
    LoadRuns(level + 1, range.last, typ, ma, o);
    CopyRuns(level + 2, from, mb, o);
  }

  lemma SetupReady(range: Range, level: nat, m: Machine, o: Oracle)
    ensures var m1 := AfterSetup(range, level, m, o);
            && m1.run == m.run && m1.stack == m.stack && (forall x :: 0 <= x < level ==> Get(m1, x) == Get(m, x))
            && Ready(m1, range, level, BoundOf(range.typ, range.first, m.run, o), BoundOf(range.typ, range.last, m.run, o), 0)
  {
    hide A.Canonical, I.InRange, BoundOf, Count;
    StartFits(range, m.run, o);
  }

  /** A result of running code means what running the statements of a function does. */
  ghost predicate Means(r: Result<Machine>, body: seq<Stmt>, s: State, o: Oracle) {
    var x := Erased(r);
    match ExecBlock(body, s, o, false, false)
    case Normal(s') => x == Left(s')
    case Returned(s') => x == Left(s')
    case Unwinding(s', _) => x == Trap(s')
    case Trapped(s') => x == Trap(s')
    case OutOfFuel => x == NoFuel
    case _ => false
  }

  /**
   A whole function, range loops included: the instructions have the effects of the statements
   in the same order, visit exactly the integers of every range in order unless an exit ends
   the loop, and end the same way, whatever the locals held before.
   */
  lemma InstructionsPreserveMeaning(body: seq<Stmt>, m: Machine, o: Oracle)
    requires WellFormedAll(body, {})
    ensures Means(RunTrees(ExpandAll(FunctionCode(body), 0), m, o), body, m.run, o)
  {
    hide ExpandAll, RunTrees, RunAll;
    LoweringPreservesMeaning(body, m.run, o);
    ExpandAllCorrect(FunctionCode(body), 0, m, o);
  }
}
