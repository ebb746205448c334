/**
 The integer part of the WebAssembly virtual machine that the backend's expressions use:
 locals, an operand stack, numeric instructions by opcode, and structured `if`.

 A state results from executing a prefix of a function body, so `if` arms that are not
 taken are skipped instruction by instruction (sections 4.3.2 and 4.4 of the WebAssembly
 Core Specification 1.0). Integers are bit patterns.
 */
module WasmMachine {
  import opened Integers

  datatype Width = W32 | W64

  function Size(w: Width): (m: nat)
    ensures m == Pow2(BitsOf(w)) && m % 2 == 0
  {
    MachineWidths();
    if w.W32? then 0x1_0000_0000 else 0x1_0000_0000_0000_0000
  }

  function BitsOf(w: Width): nat {
    if w.W32? then 32 else 64
  }

  /** A value of type i32 or i64: a bit pattern. */
  datatype RawWord = RawWord(width: Width, bits: nat)

  type Word = w: RawWord | w.bits < Size(w.width) witness RawWord(W32, 0)

  /** The signed interpretation of a pattern. */
  function AsSigned(w: Width, n: nat): int {
    if n >= Size(w) / 2 then n - Size(w) else n
  }

  /** The pattern of an integer. */
  function Encode(w: Width, n: int): (r: Word)
    ensures r.width == w
  {
    if w.W32? then RawWord(w, n % 0x1_0000_0000) else RawWord(w, n % 0x1_0000_0000_0000_0000)
  }

  lemma EncodeResidue(w: Width, n: int)
    ensures Encode(w, n).bits == n % Size(w)
  {
  }

  datatype IntOp = IAdd | ISub | IMul | IDivS | IDivU | IRemS | IRemU | IAnd | IOr | IXor | IShl | IShrS | IShrU

  datatype Relation = REq | RNe | RLtS | RLtU | RGtS | RGtU | RLeS | RLeU | RGeS | RGeU

  datatype Operation =
    | Numeric(width: Width, iop: IntOp)
    | Test(width: Width, relation: Relation)
    | Eqz(width: Width)
    | WrapI64
    | ExtendS
    | ExtendU
    | Unreachable
    | NoOperation

  /** Numeric instructions, in opcode order. */
  function IntOpAt(i: nat): IntOp
    requires i < 13
  {
    if i == 0 then IAdd else if i == 1 then ISub else if i == 2 then IMul else if i == 3 then IDivS
    else if i == 4 then IDivU else if i == 5 then IRemS else if i == 6 then IRemU else if i == 7 then IAnd
    else if i == 8 then IOr else if i == 9 then IXor else if i == 10 then IShl else if i == 11 then IShrS else IShrU
  }

  /** Relational instructions, in opcode order. */
  function RelationAt(i: nat): Relation
    requires i < 10
  {
    if i == 0 then REq else if i == 1 then RNe else if i == 2 then RLtS else if i == 3 then RLtU
    else if i == 4 then RGtS else if i == 5 then RGtU else if i == 6 then RLeS else if i == 7 then RLeU
    else if i == 8 then RGeS else RGeU
  }

  /** Opcodes of the binary format (section 5.4.5 of the WebAssembly Core Specification 1.0). */
  function Decode(opcode: nat): Operation {
    if opcode == 0x00 then Unreachable
    else if opcode == 0x45 then Eqz(W32)
    else if opcode == 0x50 then Eqz(W64)
    else if 0x46 <= opcode <= 0x4f then Test(W32, RelationAt(opcode - 0x46))
    else if 0x51 <= opcode <= 0x5a then Test(W64, RelationAt(opcode - 0x51))
    else if 0x6a <= opcode <= 0x76 then Numeric(W32, IntOpAt(opcode - 0x6a))
    else if 0x7c <= opcode <= 0x88 then Numeric(W64, IntOpAt(opcode - 0x7c))
    else if opcode == 0xa7 then WrapI64
    else if opcode == 0xac then ExtendS
    else if opcode == 0xad then ExtendU
    else NoOperation
  }

  datatype Produced = Push(word: Word) | Traps

  /** Section 4.3.2 of the WebAssembly Core Specification 1.0. */
  function Compute(iop: IntOp, w: Width, a: nat, b: nat): Produced {
    var sa, sb := AsSigned(w, a), AsSigned(w, b);
    match iop
    case IAdd => Push(Encode(w, a + b))
    case ISub => Push(Encode(w, a - b))
    case IMul => Push(Encode(w, a * b))
    case IDivU => if b == 0 then Traps else Push(Encode(w, a / b))
    case IRemU => if b == 0 then Traps else Push(Encode(w, a % b))
    case IDivS =>
      if sb == 0 || TruncDiv(sa, sb) == Size(w) / 2 then Traps
      else Push(Encode(w, TruncDiv(sa, sb)))
    case IRemS => if sb == 0 then Traps else Push(Encode(w, TruncRem(sa, sb)))
    case IAnd => Push(Encode(w, Bitwise(BitAnd, a, b)))
    case IOr => Push(Encode(w, Bitwise(BitOr, a, b)))
    case IXor => Push(Encode(w, Bitwise(BitXor, a, b)))
    case IShl => Push(Encode(w, a * Pow2(b % BitsOf(w))))
    case IShrS => Push(Encode(w, sa / Pow2(b % BitsOf(w))))
    case IShrU => Push(Encode(w, a / Pow2(b % BitsOf(w))))
  }

  predicate Relate(r: Relation, w: Width, a: nat, b: nat) {
    var sa, sb := AsSigned(w, a), AsSigned(w, b);
    match r
    case REq => a == b
    case RNe => a != b
    case RLtS => sa < sb
    case RLtU => a < b
    case RGtS => sa > sb
    case RGtU => a > b
    case RLeS => sa <= sb
    case RLeU => a <= b
    case RGeS => sa >= sb
    case RGeU => a >= b
  }

  function Truth(b: bool): Word {
    RawWord(W32, if b then 1 else 0)
  }

  datatype Instr =
    | LocalGet(x: nat)
    | LocalSet(x: nat)
    | Const(word: Word)
    | If
    | Else
    | End
    | Plain(opcode: nat)

  /** `open` counts entered `if`s. */
  datatype Frame = Frame(stack: seq<Word>, locals: map<nat, Word>, open: nat)

  /** A skipped arm remembers how many `if`s it has passed. */
  datatype State =
    | Running(frame: Frame)
    | Skipping(resume: Frame, nested: nat, untilElse: bool)
    | Trapped
    | Invalid

  function PushOn(f: Frame, word: Word): Frame {
    f.(stack := f.stack + [word])
  }

  function Top(f: Frame): Word
    requires |f.stack| > 0
  {
    f.stack[|f.stack| - 1]
  }

  function Pop(f: Frame): Frame
    requires |f.stack| > 0
  {
    f.(stack := f.stack[..|f.stack| - 1])
  }

  lemma PopPush(f: Frame, word: Word)
    ensures |PushOn(f, word).stack| == |f.stack| + 1
    ensures Top(PushOn(f, word)) == word
    ensures Pop(PushOn(f, word)) == f
  {
    assert (f.stack + [word])[..|f.stack|] == f.stack;
  }

  /** An instruction with operands `a` and `b` that were above the stack of `f`. */
  function Result2(operation: Operation, f: Frame, a: Word, b: Word): State
    requires operation.Numeric? || operation.Test?
  {
    var w := operation.width;
    if a.width != w || b.width != w then Invalid
    else if operation.Test? then Running(PushOn(f, Truth(Relate(operation.relation, w, a.bits, b.bits))))
    else
      match Compute(operation.iop, w, a.bits, b.bits)
      case Push(word) => Running(PushOn(f, word))
      case Traps => Trapped
  }

  /** An instruction with the operand `a` that was above the stack of `f`. */
  function Result1(operation: Operation, f: Frame, a: Word): State
    requires operation.Eqz? || operation.WrapI64? || operation.ExtendS? || operation.ExtendU?
  {
    if a.width != (if operation.Eqz? then operation.width else if operation.WrapI64? then W64 else W32) then Invalid
    else if operation.Eqz? then Running(PushOn(f, Truth(a.bits == 0)))
    else if operation.WrapI64? then Running(PushOn(f, Encode(W32, a.bits)))
    else if operation.ExtendS? then Running(PushOn(f, Encode(W64, AsSigned(W32, a.bits))))
    else Running(PushOn(f, Encode(W64, a.bits)))
  }

  function StepPlain(operation: Operation, f: Frame): State {
    if operation.Unreachable? then Trapped
    else if operation.NoOperation? then Invalid
    else if operation.Numeric? || operation.Test? then
      if |f.stack| < 2 then Invalid else Result2(operation, Pop(Pop(f)), Top(Pop(f)), Top(f))
    else
      if |f.stack| < 1 then Invalid else Result1(operation, Pop(f), Top(f))
  }

  function StepRunning(i: Instr, f: Frame): State {
    match i
    case LocalGet(x) => if x in f.locals then Running(PushOn(f, f.locals[x])) else Invalid
    case LocalSet(x) =>
      if |f.stack| == 0 then Invalid else Running(Pop(f).(locals := f.locals[x := Top(f)]))
    case Const(word) => Running(PushOn(f, word))
    case If =>
      if |f.stack| == 0 || Top(f).width != W32 then Invalid
      else if Top(f).bits != 0 then Running(Pop(f).(open := f.open + 1))
      else Skipping(Pop(f), 0, true)
    case Else => if f.open == 0 then Invalid else Skipping(f.(open := f.open - 1), 0, false)
    case End => if f.open == 0 then Invalid else Running(f.(open := f.open - 1))
    case Plain(opcode) => StepPlain(Decode(opcode), f)
  }

  function Step(i: Instr, s: State): State {
    match s
    case Trapped => Trapped
    case Invalid => Invalid
    case Running(f) => StepRunning(i, f)
    case Skipping(f, nested, untilElse) =>
      (match i
       case If => Skipping(f, nested + 1, untilElse)
       case Else => if nested == 0 && untilElse then Running(f.(open := f.open + 1)) else s
       case End => if nested == 0 then Running(f) else Skipping(f, nested - 1, untilElse)
       case _ => s)
  }

  function Run(code: seq<Instr>, s: State): State {
    if code == [] then s else Step(code[|code| - 1], Run(code[..|code| - 1], s))
  }
}
