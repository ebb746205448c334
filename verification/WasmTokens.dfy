/**
 WebAssembly code as the emitter writes it, and what it does: a flat sequence of instructions is
 parsed into structured ones, which run on a stack machine with locals.

 Numeric instructions mean what the machine of integer expressions says they mean; effects,
 tests and the values of expressions come from the oracle of the source semantics.
 */
module WasmTokens {
  import opened ControlFlow
  import opened WasmControl
  import M = WasmMachine
  import A = WasmArithmetic
  import I = Integers

  datatype Token =
    | Perform(event: nat)
    | Ask(test: nat)
    | Const(value: bool)
    | Eqz
    | OpenBlock
    | OpenLoop
    | OpenIf
    | Else
    | End
    | Jump(index: nat)
    | JumpIf(index: nat)
    | Exit
    | Crash
    | Push(expression: nat, typ: I.IntType)
    | GetLocal(x: nat)
    | SetLocal(x: nat)
    | One(wide: bool)
    | Plain(opcode: nat)
    | StoreTo(local: nat, typ: I.IntType)

  datatype Tree =
    | Leaf(token: Token)
    | BlockTree(body: seq<Tree>)
    | LoopTree(body: seq<Tree>)
    | IfTree(thn: seq<Tree>)
    | IfElseTree(thn: seq<Tree>, els: seq<Tree>)

  // ----- parsing, section 5.4.1 of the WebAssembly Core Specification 1.0 -----

  predicate Structural(t: Token) {
    t.OpenBlock? || t.OpenLoop? || t.OpenIf? || t.Else? || t.End?
  }

  datatype Parsed = Parsed(trees: seq<Tree>, rest: seq<Token>) | Broken

  function Before(t: Tree, p: Parsed): Parsed {
    if p.Broken? then Broken else Parsed([t] + p.trees, p.rest)
  }

  /** The instructions up to the `end` or `else` that belongs to none of them. */
  function Parse(ts: seq<Token>): (p: Parsed)
    ensures p.Parsed? ==> |p.rest| <= |ts|
    decreases |ts|
  {
    if ts == [] || ts[0].End? || ts[0].Else? then Parsed([], ts)
    else if !Structural(ts[0]) then Before(Leaf(ts[0]), Parse(ts[1..]))
    else
      var inner := Parse(ts[1..]);
      if inner.Broken? || inner.rest == [] then Broken
      else if inner.rest[0].End? then
        Before(if ts[0].OpenBlock? then BlockTree(inner.trees) else if ts[0].OpenLoop? then LoopTree(inner.trees) else IfTree(inner.trees),
               Parse(inner.rest[1..]))
      else if !ts[0].OpenIf? then Broken
      else
        var other := Parse(inner.rest[1..]);
        if other.Broken? || other.rest == [] || !other.rest[0].End? then Broken
        else Before(IfElseTree(inner.trees, other.trees), Parse(other.rest[1..]))
  }

  function Tokens(t: Tree): seq<Token>
    decreases t, 0
  {
    match t
    case Leaf(token) => [token]
    case BlockTree(body) => [OpenBlock] + TokensAll(body) + [End]
    case LoopTree(body) => [OpenLoop] + TokensAll(body) + [End]
    case IfTree(thn) => [OpenIf] + TokensAll(thn) + [End]
    case IfElseTree(thn, els) => [OpenIf] + TokensAll(thn) + [Else] + TokensAll(els) + [End]
  }

  function TokensAll(trees: seq<Tree>): seq<Token>
    decreases trees, 1
  {
    if trees == [] then [] else Tokens(trees[0]) + TokensAll(trees[1..])
  }

  /** Leaves hold instructions without a body of their own. */
  predicate Sound(t: Tree)
    decreases t, 0
  {
    match t
    case Leaf(token) => !Structural(token)
    case BlockTree(body) => SoundAll(body)
    case LoopTree(body) => SoundAll(body)
    case IfTree(thn) => SoundAll(thn)
    case IfElseTree(thn, els) => SoundAll(thn) && SoundAll(els)
  }

  predicate SoundAll(trees: seq<Tree>)
    decreases trees, 1
  {
    forall i :: 0 <= i < |trees| ==> Sound(trees[i])
  }

  predicate Closes(rest: seq<Token>) {
    rest == [] || rest[0].End? || rest[0].Else?
  }

  /** Parsing finds the structure that was written. */
  lemma {:induction false} ParseTokens(trees: seq<Tree>, rest: seq<Token>)
    requires SoundAll(trees) && Closes(rest)
    ensures Parse(TokensAll(trees) + rest) == Parsed(trees, rest)
    decreases trees, 1
  {
    hide Tokens;
    if trees == [] {
      assert TokensAll(trees) + rest == rest;
    } else {
      var t, others := trees[0], trees[1..];
      assert Sound(t) && SoundAll(others);
      ParseTokens(others, rest);
      ParseTree(t, TokensAll(others) + rest);
      assert TokensAll(trees) + rest == Tokens(t) + (TokensAll(others) + rest);
      assert [t] + others == trees;
    }
  }

  lemma {:induction false} ParseTree(t: Tree, after: seq<Token>)
    requires Sound(t)
    ensures Parse(Tokens(t) + after) == Before(t, Parse(after))
    decreases t, 0
  {
    hide TokensAll;
    match t
    case Leaf(token) => assert ([token] + after)[1..] == after;
    case BlockTree(body) => ParseBody(body, OpenBlock, after);
    case LoopTree(body) => ParseBody(body, OpenLoop, after);
    case IfTree(thn) => ParseBody(thn, OpenIf, after);
    case IfElseTree(thn, els) => ParseElse(thn, els, after);
  }

  lemma {:induction false} ParseElse(thn: seq<Tree>, els: seq<Tree>, after: seq<Token>)
    requires SoundAll(thn) && SoundAll(els)
    ensures Parse([OpenIf] + TokensAll(thn) + [Else] + TokensAll(els) + [End] + after) == Before(IfElseTree(thn, els), Parse(after))
    decreases IfElseTree(thn, els), -1
  {
    hide TokensAll, Parse;
    var other := TokensAll(els) + ([End] + after);
    ParseTokens(thn, [Else] + other);
    ParseTokens(els, [End] + after);
    var ts := [OpenIf] + TokensAll(thn) + [Else] + TokensAll(els) + [End] + after;
    assert ts == [OpenIf] + (TokensAll(thn) + ([Else] + other));
    ParseArms(TokensAll(thn) + ([Else] + other), thn, other, els, after);
  }

  lemma ParseArms(inner: seq<Token>, thn: seq<Tree>, other: seq<Token>, els: seq<Tree>, after: seq<Token>)
    requires Parse(inner) == Parsed(thn, [Else] + other) && Parse(other) == Parsed(els, [End] + after)
    ensures Parse([OpenIf] + inner) == Before(IfElseTree(thn, els), Parse(after))
  {
    assert ([OpenIf] + inner)[1..] == inner && ([Else] + other)[1..] == other && ([End] + after)[1..] == after;
  }

  lemma {:induction false} ParseBody(body: seq<Tree>, open: Token, after: seq<Token>)
    requires SoundAll(body) && (open.OpenBlock? || open.OpenLoop? || open.OpenIf?)
    ensures Parse([open] + TokensAll(body) + [End] + after) ==
            Before(if open.OpenBlock? then BlockTree(body) else if open.OpenLoop? then LoopTree(body) else IfTree(body), Parse(after))
    decreases body, 2
  {
    hide TokensAll;
    ParseTokens(body, [End] + after);
    var ts := [open] + TokensAll(body) + [End] + after;
    assert ts[1..] == TokensAll(body) + ([End] + after);
    assert ([End] + after)[1..] == after;
  }

  lemma {:induction false} TokensAppend(a: seq<Tree>, b: seq<Tree>)
    ensures TokensAll(a + b) == TokensAll(a) + TokensAll(b)
  {
    hide Tokens;
    if a == [] {
      assert a + b == b;
    } else {
      assert (a + b)[0] == a[0] && (a + b)[1..] == a[1..] + b;
      TokensAppend(a[1..], b);
    }
  }

  lemma TokensOne(t: Tree)
    ensures TokensAll([t]) == Tokens(t)
  {
    assert TokensAll([t]) == Tokens(t) + TokensAll([]);
  }

  // ----- execution, sections 4.4.1 to 4.4.5 -----

  datatype Machine = Machine(run: State, locals: map<nat, M.Word>, stack: seq<M.Word>)

  /** Locals begin as zero. */
  function Get(m: Machine, x: nat): M.Word {
    if x in m.locals then m.locals[x] else M.RawWord(M.W32, 0)
  }

  function Set(m: Machine, x: nat, w: M.Word): Machine {
    m.(locals := m.locals[x := w])
  }

  function With(m: Machine, w: M.Word): Machine {
    m.(stack := m.stack + [w])
  }

  function Top(m: Machine): M.Word
    requires m.stack != []
  {
    m.stack[|m.stack| - 1]
  }

  function Popped(m: Machine): Machine
    requires m.stack != []
  {
    m.(stack := m.stack[..|m.stack| - 1])
  }

  /** The integer that a word of a type shows. */
  function View(typ: I.IntType, w: M.Word): int {
    if I.Signed(typ) then M.AsSigned(w.width, w.bits) else w.bits
  }

  /** A numeric instruction, as the machine of integer expressions runs it. */
  function StepPlain(operation: M.Operation, m: Machine): Result<Machine> {
    match M.StepPlain(operation, M.Frame(m.stack, map[], 0))
    case Running(f) => Next(m.(stack := f.stack))
    case Trapped => Trap(m)
    case _ => Invalid
  }

  function StepToken(t: Token, m: Machine, o: Oracle): Result<Machine> {
    match t
    case Perform(event) => Next(m.(run := Emit(m.run, Happened(event))))
    case Ask(test) => Next(With(m, M.Truth(o.test(test, m.run.trace))))
    case Const(value) => Next(With(m, M.Truth(value)))
    case Eqz => StepPlain(M.Operation.Eqz(M.W32), m)
    case Jump(index) => Branch(index, m)
    case JumpIf(index) =>
      if m.stack == [] || Top(m).width != M.W32 then Invalid
      else if Top(m).bits != 0 then Branch(index, Popped(m))
      else Next(Popped(m))
    case Exit => Left(m)
    case Crash => Trap(m)
    case Push(expression, typ) => Next(With(m, A.Canonical(typ, BoundOf(typ, expression, m.run, o))))
    case GetLocal(x) => Next(With(m, Get(m, x)))
    case SetLocal(x) => if m.stack == [] then Invalid else Next(Set(Popped(m), x, Top(m)))
    case One(wide) => Next(With(m, M.RawWord(if wide then M.W64 else M.W32, 1)))
    case Plain(opcode) => StepPlain(M.Decode(opcode), m)
    case StoreTo(local, typ) =>
      if m.stack == [] then Invalid
      else Next(Popped(m).(run := Emit(m.run, Visited(local, View(typ, Top(m))))))
    case _ => Invalid
  }

  function FuelOf(r: Result<Machine>): nat {
    if r.NoFuel? || r.Invalid? then 0 else r.s.run.fuel
  }

  lemma StepFuel(t: Token, m: Machine, o: Oracle)
    ensures FuelOf(StepToken(t, m, o)) <= m.run.fuel
  {
  }

  /** The end of a structured instruction, which leaves nothing on the stack it was given empty. */
  function Closed(r: Result<Machine>, stack: seq<M.Word>): (x: Result<Machine>)
    ensures FuelOf(x) <= FuelOf(r)
  {
    match r
    case Next(m) => if m.stack == [] then Next(m.(stack := stack)) else Invalid
    case Branch(index, m) => if index == 0 then Next(m.(stack := stack)) else Branch(index - 1, m)
    case other => other
  }

  function Opened(m: Machine): Machine {
    m.(stack := [])
  }

  function Run1(t: Tree, m: Machine, o: Oracle): (r: Result<Machine>)
    ensures FuelOf(r) <= m.run.fuel
    decreases m.run.fuel, t, 0
  {
    match t
    case Leaf(token) => StepFuel(token, m, o); StepToken(token, m, o)
    case BlockTree(body) => Closed(RunTrees(body, Opened(m), o), m.stack)
    case LoopTree(body) =>
      if m.run.fuel == 0 then NoFuel
      else
        var r := RunTrees(body, Opened(m.(run := Spend(m.run))), o);
        if r.Branch? && r.index == 0 then Run1(t, r.s.(stack := m.stack), o) else Closed(r, m.stack)
    case IfTree(thn) =>
      if m.stack == [] || Top(m).width != M.W32 then Invalid
      else if Top(m).bits != 0 then Closed(RunTrees(thn, Opened(m), o), Popped(m).stack)
      else Next(Popped(m))
    case IfElseTree(thn, els) =>
      if m.stack == [] || Top(m).width != M.W32 then Invalid
      else Closed(if Top(m).bits != 0 then RunTrees(thn, Opened(m), o) else RunTrees(els, Opened(m), o), Popped(m).stack)
  }

  function RunTrees(trees: seq<Tree>, m: Machine, o: Oracle): (r: Result<Machine>)
    ensures FuelOf(r) <= m.run.fuel
    decreases m.run.fuel, trees, 1
  {
    if trees == [] then Next(m)
    else
      var r := Run1(trees[0], m, o);
      if r.Next? then RunTrees(trees[1..], r.s, o) else r
  }

  /** A function body as it stands in the binary. */
  function RunTokens(code: seq<Token>, m: Machine, o: Oracle): Result<Machine> {
    match Parse(code)
    case Parsed(trees, rest) => if rest == [] then RunTrees(trees, m, o) else Invalid
    case Broken => Invalid
  }

  /** Running written code is running its structure. */
  lemma RunWritten(trees: seq<Tree>, m: Machine, o: Oracle)
    requires SoundAll(trees)
    ensures RunTokens(TokensAll(trees), m, o) == RunTrees(trees, m, o)
  {
    ParseTokens(trees, []);
    assert TokensAll(trees) + [] == TokensAll(trees);
  }

  lemma {:induction false} RunAppend(a: seq<Tree>, b: seq<Tree>, m: Machine, o: Oracle)
    ensures var r := RunTrees(a, m, o);
            RunTrees(a + b, m, o) == if r.Next? then RunTrees(b, r.s, o) else r
  {
    hide Run1;
    if a == [] {
      assert a + b == b;
    } else {
      assert (a + b)[0] == a[0] && (a + b)[1..] == a[1..] + b;
      var r := Run1(a[0], m, o);
      if r.Next? {
        RunAppend(a[1..], b, r.s, o);
      }
    }
  }

  lemma RunSingle(t: Tree, m: Machine, o: Oracle)
    ensures RunTrees([t], m, o) == Run1(t, m, o)
  {
    hide Run1;
  }

  // ----- straight code -----

  function Leaves(ts: seq<Token>): (r: seq<Tree>)
    ensures |r| == |ts|
  {
    if ts == [] then [] else [Leaf(ts[0])] + Leaves(ts[1..])
  }

  function Straight(ts: seq<Token>, m: Machine, o: Oracle): Result<Machine> {
    if ts == [] then Next(m)
    else
      var r := StepToken(ts[0], m, o);
      if r.Next? then Straight(ts[1..], r.s, o) else r
  }

  lemma {:induction false} LeavesThen(ts: seq<Token>, rest: seq<Tree>, m: Machine, o: Oracle)
    ensures var r := Straight(ts, m, o);
            RunTrees(Leaves(ts) + rest, m, o) == if r.Next? then RunTrees(rest, r.s, o) else r
  {
    hide StepToken;
    if ts == [] {
      assert Leaves(ts) + rest == rest;
    } else {
      assert (Leaves(ts) + rest)[0] == Leaf(ts[0]) && (Leaves(ts) + rest)[1..] == Leaves(ts[1..]) + rest;
      var r := StepToken(ts[0], m, o);
      if r.Next? {
        LeavesThen(ts[1..], rest, r.s, o);
      }
    }
  }

  lemma {:induction false} LeavesTokens(ts: seq<Token>)
    requires forall i :: 0 <= i < |ts| ==> !Structural(ts[i])
    ensures TokensAll(Leaves(ts)) == ts && SoundAll(Leaves(ts))
  {
    if ts != [] {
      LeavesTokens(ts[1..]);
      assert Leaves(ts)[1..] == Leaves(ts[1..]);
    }
  }

  lemma {:induction false} StraightAppend(a: seq<Token>, b: seq<Token>, m: Machine, o: Oracle)
    ensures var r := Straight(a, m, o);
            Straight(a + b, m, o) == if r.Next? then Straight(b, r.s, o) else r
  {
    hide StepToken;
    if a == [] {
      assert a + b == b;
    } else {
      assert (a + b)[0] == a[0] && (a + b)[1..] == a[1..] + b;
      var r := StepToken(a[0], m, o);
      if r.Next? {
        StraightAppend(a[1..], b, r.s, o);
      }
    }
  }

  lemma StraightFirst(t: Token, ts: seq<Token>, m: Machine, o: Oracle)
    ensures Straight([t], m, o) == StepToken(t, m, o)
    ensures var r := StepToken(t, m, o);
            Straight([t] + ts, m, o) == if r.Next? then Straight(ts, r.s, o) else r
  {
    hide StepToken;
    var r := StepToken(t, m, o);
    assert [t][1..] == [] && ([t] + ts)[1..] == ts;
    assert r.Next? ==> Straight([], r.s, o) == r;
  }
}
