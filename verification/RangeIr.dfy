/**
 The part of the typed IR the range prover works on, and what running it means.

 Every indexing and arithmetic node carries its expression id. `proven` is the set of ids
 whose `boolean` flag the prover has raised: code generation then leaves the node's check
 out. A left-out overflow check wraps; a left-out bounds check that would have failed
 reads memory that is not the array's, which is the outcome `Wild`.

 Expression kinds the prover never looks into (calls, unary operators, fields, literals of
 aggregates, ...) are `Call` nodes: their effect is an arbitrary function of the node id,
 the operands and the whole store. Programs the type checker rejects run to `Stuck`.
 */
module RangeIr {
  import opened Integers

  datatype Type = Bool | Int(it: IntType) | Array(element: Type, length: nat) | Slice(element: Type)

  datatype LogicalOp = And | Or

  datatype Expr =
    | Literal(typ: Type, integer: Word64)
    | BoolLiteral(value: bool)
    | Name(typ: Type, local: nat)
    | Global(typ: Type, global: nat)
    | Convert(typ: Type, source: Expr)
    | Index(id: nat, typ: Type, base: Expr, index: Expr)
    | Binary(id: nat, typ: Type, op: Op, wrap: bool, left: Expr, right: Expr)
    | Logical(logical: LogicalOp, left: Expr, right: Expr)
    | Call(typ: Type, id: nat, args: seq<Expr>)

  datatype Stmt =
    | Local(target: nat, init: Expr)
    | Assign(target: nat, init: Expr)
    | If(cond: Expr, thn: seq<Stmt>, els: seq<Stmt>)
    | For(cond: Expr, body: seq<Stmt>)
    | Break
    | Continue
    | Return(result: Expr)
    | Other(code: nat, operands: seq<Expr>)

  /** `UINT32_MAX`: an assignment whose value is discarded. */
  const NO_LOCAL: nat := 0xFFFF_FFFF

  datatype Value = Num(n: int) | Elements(values: seq<Value>)

  datatype Store = Store(locals: map<nat, Value>, globals: map<nat, Value>)

  datatype Result =
    | Ok(value: Value, store: Store)
    | Trap(check: Check, node: nat)
    | Raised(code: nat)
    | Stuck
    | Wild

  datatype Results = AllOk(values: seq<Value>, store: Store) | NotOk(failure: Result)

  datatype Outcome =
    | Next(store: Store)
    | Broke(store: Store)
    | Continued(store: Store)
    | Returned(value: Value, store: Store)
    | Stopped(failure: Result)
    | OutOfFuel

  /** What a call or another opaque construct does: the result it computes and the store it leaves. */
  datatype Answer = Answer(value: Value, store: Store) | NoAnswer(code: nat)

  /** Fixed facts of one run: declared types, pointer width and the behaviour of opaque code. */
  datatype Context = Context(
    types: map<nat, Type>,
    pointerBytes: nat,
    world: (nat, seq<Value>, Store) -> Answer,
    step: (nat, seq<Value>, Store) -> Outcome)

  function TypeOf(e: Expr): Type {
    match e
    case BoolLiteral(_) => Bool
    case Logical(_, _, _) => Bool
    case Literal(t, _) => t
    case Name(t, _) => t
    case Global(t, _) => t
    case Convert(t, _) => t
    case Index(_, t, _, _) => t
    case Binary(_, t, _, _, _, _) => t
    case Call(t, _, _) => t
  }

  predicate Conforms(v: Value, t: Type, pointerBytes: nat)
    decreases t
  {
    match t
    case Bool => v == Num(0) || v == Num(1)
    case Int(it) => v.Num? && InRange(it, pointerBytes, v.n)
    case Array(element, length) =>
      v.Elements? && |v.values| == length && forall i :: 0 <= i < |v.values| ==> Conforms(v.values[i], element, pointerBytes)
    case Slice(element) =>
      v.Elements? && forall i :: 0 <= i < |v.values| ==> Conforms(v.values[i], element, pointerBytes)
  }

  /** Operand and result types of a binary operator. */
  predicate BinaryTyped(op: Op, t: Type, left: Type, right: Type) {
    && left.Int? && right.Int?
    && (op.Shl? || op.Shr? || left == right)
    && (if Comparison(op) then t == Bool else t == left)
  }

  function Eval(e: Expr, s: Store, c: Context, proven: set<nat>): Result
    decreases e, 0
  {
    match e
    case Literal(t, n) =>
      if t.Int? && InRange(t.it, c.pointerBytes, n) then Ok(Num(n), s) else Stuck
    case BoolLiteral(b) => Ok(Num(if b then 1 else 0), s)
    case Name(t, x) =>
      if x in s.locals && x in c.types && c.types[x] == t && Conforms(s.locals[x], t, c.pointerBytes)
      then Ok(s.locals[x], s) else Stuck
    case Global(t, g) =>
      if g in s.globals && Conforms(s.globals[g], t, c.pointerBytes) then Ok(s.globals[g], s) else Stuck
    case Convert(t, source) =>
      (match Eval(source, s, c, proven)
       case Ok(v, s1) => if v.Num? && t.Int? then Ok(Num(Wrap(t.it, c.pointerBytes, v.n)), s1) else Stuck
       case failure => failure)
    case Index(id, t, base, index) =>
      // The index operand is evaluated before the base.
      (match Eval(index, s, c, proven)
       case Ok(i, s1) =>
         (match Eval(base, s1, c, proven)
          case Ok(a, s2) =>
            if !i.Num? || !a.Elements? then Stuck
            else if 0 <= i.n < |a.values| then
              if Conforms(a.values[i.n], t, c.pointerBytes) then Ok(a.values[i.n], s2) else Stuck
            else if id in proven then Wild
            else Trap(IndexBounds, id)
          case failure => failure)
       case failure => failure)
    case Binary(id, t, op, wrap, left, right) =>
      (match Eval(left, s, c, proven)
       case Ok(a, s1) =>
         (match Eval(right, s1, c, proven)
          case Ok(b, s2) =>
            if !a.Num? || !b.Num? || !BinaryTyped(op, t, TypeOf(left), TypeOf(right)) then Stuck
            else
              (match Apply(op, TypeOf(left).it, c.pointerBytes, a.n, b.n, wrap || id in proven)
               case Value(n) => Ok(Num(n), s2)
               case Failed(check) => Trap(check, id))
          case failure => failure)
       case failure => failure)
    case Logical(op, left, right) =>
      (match Eval(left, s, c, proven)
       case Ok(a, s1) =>
         if TypeOf(left) != Bool || TypeOf(right) != Bool || !a.Num? then Stuck
         else if (a.n == 0) == op.And? then Ok(a, s1)
         else Eval(right, s1, c, proven)
       case failure => failure)
    case Call(t, id, args) =>
      (match EvalAll(args, s, c, proven)
       case AllOk(values, s1) =>
         (match c.world(id, values, s1)
          case Answer(v, s2) => if Conforms(v, t, c.pointerBytes) then Ok(v, s2) else Stuck
          case NoAnswer(code) => Raised(code))
       case NotOk(failure) => failure)
  }

  function EvalAll(args: seq<Expr>, s: Store, c: Context, proven: set<nat>): (r: Results)
    ensures r.NotOk? ==> !r.failure.Ok?
    decreases args, 1
  {
    if args == [] then AllOk([], s)
    else
      match Eval(args[0], s, c, proven)
      case Ok(v, s1) =>
        (match EvalAll(args[1..], s1, c, proven)
         case AllOk(vs, s2) => AllOk([v] + vs, s2)
         case NotOk(failure) => NotOk(failure))
      case failure => NotOk(failure)
  }

  function SetLocal(s: Store, x: nat, v: Value): Store {
    if x == NO_LOCAL then s else s.(locals := s.locals[x := v])
  }

  /** Fuel bounds the number of loop iterations; every finite prefix of a run is some fuel. */
  function Exec(st: Stmt, s: Store, c: Context, proven: set<nat>, fuel: nat): Outcome
    decreases fuel, st, 0
  {
    match st
    case Local(x, e) =>
      (match Eval(e, s, c, proven)
       case Ok(v, s1) => Next(SetLocal(s1, x, v))
       case failure => Stopped(failure))
    case Assign(x, e) =>
      (match Eval(e, s, c, proven)
       case Ok(v, s1) => Next(SetLocal(s1, x, v))
       case failure => Stopped(failure))
    case If(cond, thn, els) =>
      (match Eval(cond, s, c, proven)
       case Ok(v, s1) => if v == Num(0) then ExecAll(els, s1, c, proven, fuel) else ExecAll(thn, s1, c, proven, fuel)
       case failure => Stopped(failure))
    case For(cond, body) =>
      if fuel == 0 then OutOfFuel
      else
        (match Eval(cond, s, c, proven)
         case Ok(v, s1) =>
           if v == Num(0) then Next(s1)
           else
             (match ExecAll(body, s1, c, proven, fuel)
              case Next(s2) => Exec(st, s2, c, proven, fuel - 1)
              case Continued(s2) => Exec(st, s2, c, proven, fuel - 1)
              case Broke(s2) => Next(s2)
              case exit => exit)
         case failure => Stopped(failure))
    case Break => Broke(s)
    case Continue => Continued(s)
    case Return(e) =>
      (match Eval(e, s, c, proven)
       case Ok(v, s1) => Returned(v, s1)
       case failure => Stopped(failure))
    case Other(code, operands) =>
      (match EvalAll(operands, s, c, proven)
       case AllOk(values, s1) => c.step(code, values, s1)
       case NotOk(failure) => Stopped(failure))
  }

  function ExecAll(sts: seq<Stmt>, s: Store, c: Context, proven: set<nat>, fuel: nat): Outcome
    decreases fuel, sts, 1
  {
    if sts == [] then Next(s)
    else
      match Exec(sts[0], s, c, proven, fuel)
      case Next(s1) => ExecAll(sts[1..], s1, c, proven, fuel)
      case exit => exit
  }

  /** Ids of the nodes that carry a check. */
  function Ids(e: Expr): set<nat> {
    match e
    case Literal(_, _) => {}
    case BoolLiteral(_) => {}
    case Name(_, _) => {}
    case Global(_, _) => {}
    case Convert(_, source) => Ids(source)
    case Index(id, _, base, index) => {id} + Ids(base) + Ids(index)
    case Binary(id, _, _, _, left, right) => {id} + Ids(left) + Ids(right)
    case Logical(_, left, right) => Ids(left) + Ids(right)
    case Call(_, _, args) => IdsAll(args)
  }

  function IdsAll(es: seq<Expr>): set<nat> {
    if es == [] then {} else Ids(es[0]) + IdsAll(es[1..])
  }

  function StmtIds(st: Stmt): set<nat> {
    match st
    case Local(_, e) => Ids(e)
    case Assign(_, e) => Ids(e)
    case If(cond, thn, els) => Ids(cond) + BlockIds(thn) + BlockIds(els)
    case For(cond, body) => Ids(cond) + BlockIds(body)
    case Break => {}
    case Continue => {}
    case Return(e) => Ids(e)
    case Other(_, operands) => IdsAll(operands)
  }

  function BlockIds(sts: seq<Stmt>): set<nat> {
    if sts == [] then {} else StmtIds(sts[0]) + BlockIds(sts[1..])
  }

  /** The expression table holds trees: no node is shared by two parents. */
  predicate Tree(e: Expr) {
    match e
    case Convert(_, source) => Tree(source)
    case Index(id, _, base, index) =>
      Tree(base) && Tree(index) && Ids(base) !! Ids(index) && id !in Ids(base) + Ids(index)
    case Binary(id, _, _, _, left, right) =>
      Tree(left) && Tree(right) && Ids(left) !! Ids(right) && id !in Ids(left) + Ids(right)
    case Logical(_, left, right) => Tree(left) && Tree(right) && Ids(left) !! Ids(right)
    case _ => true
  }

  /** Statements of a block own disjoint expression trees; so do a loop's condition and body. */
  predicate Separate(sts: seq<Stmt>) {
    forall i, j :: 0 <= i < j < |sts| ==> StmtIds(sts[i]) !! StmtIds(sts[j])
  }

  predicate TreeStmt(st: Stmt) {
    match st
    case For(cond, body) => Ids(cond) !! BlockIds(body) && Separate(body) && forall i :: 0 <= i < |body| ==> TreeStmt(body[i])
    case Local(_, e) => Tree(e)
    case Assign(_, e) => Tree(e)
    case _ => true
  }
}
