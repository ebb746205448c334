/**
 Lowering of integer operators to WebAssembly.

 The emitter appends instructions to a function body. What the emitted code does is stated
 for one arbitrary initial machine state, a ghost constant the code cannot depend on: `Now`
 is the state that executing the code emitted so far leads to.
 */
module WasmInteger {
  import opened Integers
  import opened WasmMachine
  import opened WasmArithmetic

  predicate Binary2(operation: Operation) {
    operation.Numeric? || operation.Test?
  }

  lemma Step2(f: Frame, a: Word, b: Word, opcode: nat)
    requires Binary2(Decode(opcode))
    ensures Step(Plain(opcode), Running(PushOn(PushOn(f, a), b))) == Result2(Decode(opcode), f, a, b)
  {
    PopPush(PushOn(f, a), b);
    PopPush(f, a);
  }

  predicate Unary1(operation: Operation) {
    operation.Eqz? || operation.WrapI64? || operation.ExtendS? || operation.ExtendU?
  }

  lemma Step1(f: Frame, a: Word, opcode: nat)
    requires Unary1(Decode(opcode))
    ensures Step(Plain(opcode), Running(PushOn(f, a))) == Result1(Decode(opcode), f, a)
  {
    PopPush(f, a);
  }

  class Emitter {
    const params: nat
    var code: seq<Instr>
    var localTypes: seq<Width>
    var cursor: nat
    ghost const initial: State
    /** The state the code emitted so far leads to. */
    ghost var now: State

    ghost predicate Valid()
      reads this
    {
      cursor <= |localTypes| && now == Run(code, initial)
    }

    constructor (params: nat, ghost initial: State)
      ensures Valid() && this.params == params && this.initial == initial && now == initial
      ensures code == [] && localTypes == [] && cursor == 0
    {
      this.params, this.initial := params, initial;
      code, localTypes, cursor, now := [], [], 0, initial;
    }

    method Emit(i: Instr)
      requires Valid()
      modifies this`code, this`now
      ensures Valid() && code == old(code) + [i]
      ensures now == Step(i, old(now))
    {
      code := code + [i];
      now := Step(i, now);
      assert code[..|code| - 1] == old(code);
    }

    /** Claims a local of the given type above all live temporaries. */
    method Tmp(width: Width) returns (x: nat)
      requires Valid()
      modifies this`localTypes, this`cursor
      ensures Valid() && old(localTypes) <= localTypes
      ensures params + old(cursor) <= x && cursor == x - params + 1 && localTypes[x - params] == width
    {
      var at := cursor;
      while at < |localTypes| && localTypes[at] != width
        invariant cursor <= at <= |localTypes|
      {
        at := at + 1;
      }
      if at == |localTypes| {
        localTypes := localTypes + [width];
      }
      cursor := at + 1;
      x := params + at;
    }

    /** Pops the operand stack into a fresh local. */
    method Save(width: Width) returns (x: nat)
      requires Valid()
      modifies this
      ensures Valid() && old(localTypes) <= localTypes
      ensures params + old(cursor) <= x && cursor == x - params + 1 && localTypes[x - params] == width
      ensures code == old(code) + [LocalSet(x)]
      ensures now == Step(LocalSet(x), old(now))
    {
      x := Tmp(width);
      Emit(LocalSet(x));
    }

    /** `get l; get r; op` */
    method Pair(l: nat, r: nat, opcode: nat)
      requires Binary2(Decode(opcode))
      requires Valid()
      modifies this`code, this`now
      ensures Valid()
      ensures old(code) <= code
      ensures old(now).Trapped? ==> now.Trapped?
      ensures old(now).Skipping? ==> now == old(now)
      ensures old(now).Running? && l in old(now).frame.locals && r in old(now).frame.locals ==>
                var f := old(now).frame;
                now == Result2(Decode(opcode), f, f.locals[l], f.locals[r])
    {
      hide Run;
      ghost var s := now;
      Emit(LocalGet(l));
      Emit(LocalGet(r));
      if s.Running? && l in s.frame.locals && r in s.frame.locals {
        Step2(s.frame, s.frame.locals[l], s.frame.locals[r], opcode);
      }
      Emit(Plain(opcode));
    }

    /** `get x; const word; op` */
    method Immediate(x: nat, word: Word, opcode: nat)
      requires Binary2(Decode(opcode))
      requires Valid()
      modifies this`code, this`now
      ensures Valid()
      ensures old(code) <= code
      ensures old(now).Trapped? ==> now.Trapped?
      ensures old(now).Skipping? ==> now == old(now)
      ensures old(now).Running? && x in old(now).frame.locals ==>
                var f := old(now).frame; now == Result2(Decode(opcode), f, f.locals[x], word)
    {
      hide Run;
      ghost var s := now;
      Emit(LocalGet(x));
      Emit(Const(word));
      if s.Running? && x in s.frame.locals {
        Step2(s.frame, s.frame.locals[x], word, opcode);
      }
      Emit(Plain(opcode));
    }

    /** Traps unless the operand on top of the stack is nonzero. */
    method Guard(ghost base: Frame, ghost top: Word)
      requires Valid()
      modifies this`code, this`now
      ensures Valid() && old(code) <= code
      ensures old(now).Trapped? ==> now.Trapped?
      ensures old(now).Skipping? ==> now == old(now)
      ensures old(now) == Running(PushOn(base, top)) && top.width == W32 ==>
                now == if top.bits == 0 then Trapped else Running(base)
    {
      hide Run;
      ghost var s := now;
      Emit(Plain(0x45));
      if s == Running(PushOn(base, top)) && top.width == W32 {
        Step1(base, top, 0x45);
        PopPush(base, Truth(top.bits == 0));
      }
      Emit(If);
      Emit(Plain(0x00));
      Emit(End);
    }

    /** Traps unless a comparison of two locals holds. */
    method GuardPair(l: nat, r: nat, opcode: nat)
      requires Decode(opcode).Test?
      requires Valid()
      modifies this`code, this`now
      ensures Valid()
      ensures old(code) <= code
      ensures old(now).Trapped? ==> now.Trapped?
      ensures old(now).Skipping? ==> now == old(now)
      ensures old(now).Running? && l in old(now).frame.locals && r in old(now).frame.locals ==>
                var f := old(now).frame; var o, a, b := Decode(opcode), f.locals[l], f.locals[r];
                a.width == b.width == o.width ==>
                  now == if Relate(o.relation, o.width, a.bits, b.bits) then Running(f) else Trapped
    {
      ghost var s := now;
      Pair(l, r, opcode);
      ghost var f := FrameOf(s);
      ghost var top := if l in f.locals && r in f.locals
        then Truth(Relate(Decode(opcode).relation, Decode(opcode).width, f.locals[l].bits, f.locals[r].bits)) else Truth(true);
      Guard(f, top);
    }

    /** Traps unless a comparison of a local with a constant holds. */
    method GuardImmediate(x: nat, word: Word, opcode: nat)
      requires Decode(opcode).Test?
      requires Valid()
      modifies this`code, this`now
      ensures Valid()
      ensures old(code) <= code
      ensures old(now).Trapped? ==> now.Trapped?
      ensures old(now).Skipping? ==> now == old(now)
      ensures old(now).Running? && x in old(now).frame.locals ==>
                var f := old(now).frame; var o, a := Decode(opcode), f.locals[x];
                a.width == word.width == o.width ==>
                  now == if Relate(o.relation, o.width, a.bits, word.bits) then Running(f) else Trapped
    {
      ghost var s := now;
      Immediate(x, word, opcode);
      ghost var f := FrameOf(s);
      ghost var top := if x in f.locals
        then Truth(Relate(Decode(opcode).relation, Decode(opcode).width, f.locals[x].bits, word.bits)) else Truth(true);
      Guard(f, top);
    }

    /** `op` on the operand on top of the stack and a local. */
    method OnTop(x: nat, opcode: nat, ghost base: Frame, ghost top: Word)
      requires Binary2(Decode(opcode))
      requires Valid()
      modifies this`code, this`now
      ensures Valid()
      ensures old(code) <= code
      ensures old(now).Trapped? ==> now.Trapped?
      ensures old(now).Skipping? ==> now == old(now)
      ensures old(now) == Running(PushOn(base, top)) && x in base.locals ==>
                now == Result2(Decode(opcode), base, top, base.locals[x])
    {
      hide Run;
      ghost var s := now;
      Emit(LocalGet(x));
      if s == Running(PushOn(base, top)) && x in base.locals {
        Step2(base, top, base.locals[x], opcode);
      }
      Emit(Plain(opcode));
    }

    /** Pushes whether `l` differs from the first constant or `r` from the second. */
    method NotBoth(l: nat, first: Word, r: nat, second: Word)
      requires first.width == second.width
      requires Valid()
      modifies this`code, this`now
      ensures Valid()
      ensures old(code) <= code
      ensures old(now).Trapped? ==> now.Trapped?
      ensures old(now).Skipping? ==> now == old(now)
      ensures old(now).Running? && l in old(now).frame.locals && r in old(now).frame.locals ==>
                var f := old(now).frame;
                f.locals[l].width == f.locals[r].width == first.width ==>
                  now == Running(PushOn(f, Truth(!(f.locals[l] == first && f.locals[r] == second))))
    {
      hide Run;
      ghost var s := now;
      var equal := if first.width.W64? then 0x51 else 0x46;
      Immediate(l, first, equal);
      ghost var s1 := now;
      Immediate(r, second, equal);
      ghost var s2 := now;
      if s.Running? && l in s.frame.locals && r in s.frame.locals &&
         s.frame.locals[l].width == s.frame.locals[r].width == first.width {
        var f, p, q := s.frame, s.frame.locals[l] == first, s.frame.locals[r] == second;
        assert s1 == Running(PushOn(f, Truth(p)));
        assert s2 == Running(PushOn(PushOn(f, Truth(p)), Truth(q)));
        AndNot(f, p, q);
      }
      Emit(Plain(0x71));
      Emit(Plain(0x45));
    }

    /** Traps when `l` holds the first constant and `r` the second. */
    method GuardNotBoth(l: nat, first: Word, r: nat, second: Word)
      requires first.width == second.width
      requires Valid()
      modifies this`code, this`now
      ensures Valid()
      ensures old(code) <= code
      ensures old(now).Trapped? ==> now.Trapped?
      ensures old(now).Skipping? ==> now == old(now)
      ensures old(now).Running? && l in old(now).frame.locals && r in old(now).frame.locals ==>
                var f := old(now).frame;
                f.locals[l].width == f.locals[r].width == first.width ==>
                  now == if f.locals[l] == first && f.locals[r] == second then Trapped else Running(f)
    {
      ghost var s := now;
      NotBoth(l, first, r, second);
      ghost var f := FrameOf(s);
      Guard(f, if l in f.locals && r in f.locals then Truth(!(f.locals[l] == first && f.locals[r] == second)) else Truth(true));
    }

    /** Extends two i32 locals and applies an i64 operator. */
    method Extended(l: nat, r: nat, signed: bool, opcode: nat)
      requires Binary2(Decode(opcode))
      requires Valid()
      modifies this`code, this`now
      ensures Valid()
      ensures old(code) <= code
      ensures old(now).Trapped? ==> now.Trapped?
      ensures old(now).Running? && l in old(now).frame.locals && r in old(now).frame.locals ==>
                var f := old(now).frame;
                f.locals[l].width == f.locals[r].width == W32 ==>
                  now == Result2(Decode(opcode), f, Extend(f.locals[l], signed), Extend(f.locals[r], signed))
    {
      ghost var s := now;
      var extend := if signed then 0xac else 0xad;
      Emit(LocalGet(l));
      Emit(Plain(extend));
      Emit(LocalGet(r));
      Emit(Plain(extend));
      Emit(Plain(opcode));
      if s.Running? && l in s.frame.locals && r in s.frame.locals && s.frame.locals[l].width == s.frame.locals[r].width == W32 {
        ExtendedRun(s.frame, l, r, signed, opcode);
      }
    }

    /** `get x; op; save` for a conversion. */
    method Converted(x: nat, opcode: nat, width: Width) returns (y: nat)
      requires Valid() && (opcode == 0xa7 || opcode == 0xac || opcode == 0xad)
      modifies this
      ensures Valid() && old(localTypes) <= localTypes && old(code) <= code
      ensures params + old(cursor) <= y && cursor == y - params + 1 && localTypes[y - params] == width
      ensures old(now).Trapped? ==> now.Trapped?
      ensures old(now).Running? && x in old(now).frame.locals ==>
                var f := old(now).frame; var p := f.locals[x];
                p.width == (if opcode == 0xa7 then W64 else W32) ==>
                  now == Running(f.(locals := f.locals[y := Conversion(opcode, p)]))
    {
      hide Run;
      ghost var s := now;
      Emit(LocalGet(x));
      Emit(Plain(opcode));
      if s.Running? && x in s.frame.locals && s.frame.locals[x].width == (if opcode == 0xa7 then W64 else W32) {
        Step1(s.frame, s.frame.locals[x], opcode);
        PopPush(s.frame, Conversion(opcode, s.frame.locals[x]));
      }
      y := Save(width);
    }

    /** `op` on the operand on top of the stack and a constant. */
    method TopImmediate(word: Word, opcode: nat, ghost base: Frame, ghost top: Word)
      requires Binary2(Decode(opcode))
      requires Valid()
      modifies this`code, this`now
      ensures Valid()
      ensures old(code) <= code
      ensures old(now).Trapped? ==> now.Trapped?
      ensures old(now).Skipping? ==> now == old(now)
      ensures old(now) == Running(PushOn(base, top)) ==>
                now == Result2(Decode(opcode), base, top, word)
    {
      hide Run;
      ghost var s := now;
      Emit(Const(word));
      if s == Running(PushOn(base, top)) {
        Step2(base, top, word, opcode);
      }
      Emit(Plain(opcode));
    }

    /** Pops the known operand on top of the stack into a fresh local. */
    method SaveTop(width: Width, ghost f: Frame, ghost word: Word) returns (x: nat)
      requires Valid() && (now.Trapped? || now == Running(PushOn(f, word)))
      modifies this
      ensures Valid() && old(localTypes) <= localTypes && old(code) <= code
      ensures params + old(cursor) <= x && cursor == x - params + 1 && localTypes[x - params] == width
      ensures now == if old(now).Trapped? then Trapped else Running(f.(locals := f.locals[x := word]))
    {
      PopPush(f, word);
      x := Save(width);
    }

    /** Shifts up and back down: the low bits, sign-extended. */
    method SignExtend(v: nat, t: IntType, ghost n: int) returns (x: nat)
      requires Valid() && (t.I8? || t.I16?) && Live(now, v, Encode(W32, n))
      modifies this
      ensures Valid() && old(localTypes) <= localTypes && old(code) <= code
      ensures params + old(cursor) <= x && cursor == x - params + 1 && localTypes[x - params] == W32
      ensures now == Bind(old(now), x, Canonical(t, Wrap(t, PB, n)))
    {
      hide Run;
      ghost var f := FrameOf(now);
      var k: nat := 32 - Bits(t, PB);
      ghost var up := Encode(W32, Encode(W32, n).bits * Pow2(k));
      Immediate(v, RawWord(W32, k), 0x74);
      ShiftUp(Encode(W32, n).bits, k);
      TopImmediate(RawWord(W32, k), 0x75, f, up);
      ShiftComputes(W32, up.bits, k);
      SignExtends(t, n);
      x := SaveTop(W32, f, Canonical(t, Wrap(t, PB, n)));
    }

    /** Masks the low bits. */
    method ZeroExtend(v: nat, t: IntType, ghost n: int) returns (x: nat)
      requires Valid() && (t.U8? || t.U16?) && Live(now, v, Encode(W32, n))
      modifies this
      ensures Valid() && old(localTypes) <= localTypes && old(code) <= code
      ensures params + old(cursor) <= x && cursor == x - params + 1 && localTypes[x - params] == W32
      ensures now == Bind(old(now), x, Canonical(t, Wrap(t, PB, n)))
    {
      ghost var f := FrameOf(now);
      var mask: nat := Modulus(t, PB) - 1;
      Immediate(v, RawWord(W32, mask), 0x71);
      BitwiseComputes(BitAnd, W32, Encode(W32, n).bits, mask);
      ZeroExtends(t, n);
      x := SaveTop(W32, f, Canonical(t, Wrap(t, PB, n)));
    }

    /** Brings a result held modulo its local's width into canonical form. */
    method Normalize(v: nat, t: IntType, ghost n: int) returns (x: nat)
      requires Valid() && params <= v < params + cursor && localTypes[v - params] == WidthOf(t)
      requires Live(now, v, Encode(WidthOf(t), n))
      modifies this
      ensures Valid() && old(localTypes) <= localTypes && old(code) <= code
      ensures old(cursor) <= cursor && params <= x < params + cursor && localTypes[x - params] == WidthOf(t)
      ensures Yields(old(now), now, params + old(cursor), x, Canonical(t, Wrap(t, PB, n)))
    {
      hide Run, Encode, Wrap;
      if Bits(t, PB) >= 32 {
        FullWidth(t, n);
        x := v;
      } else if Signed(t) {
        x := SignExtend(v, t, n);
      } else {
        x := ZeroExtend(v, t, n);
      }
    }

    /** A conversion between integer types keeps the value modulo the target's width, in canonical form. */
    method Convert(v: nat, from: IntType, to: IntType, ghost n: int) returns (x: nat)
      requires Valid() && params <= v < params + cursor && localTypes[v - params] == WidthOf(from)
      requires InRange(from, PB, n) && Holds(now, v, Canonical(from, n))
      modifies this
      ensures Valid() && old(localTypes) <= localTypes && old(code) <= code
      ensures old(cursor) <= cursor && params <= x < params + cursor && localTypes[x - params] == WidthOf(to)
      ensures Yields(old(now), now, params + old(cursor), x, Canonical(to, Wrap(to, PB, n)))
    {
      hide Run, Encode, Wrap, Conversion, InRange;
      if WidthOf(from) == WidthOf(to) {
        x := Normalize(v, to, n);
      } else {
        var y;
        ConversionFacts(from, to, n);
        if Wide(to) {
          y := Converted(v, if Signed(from) then 0xac else 0xad, W64);
        } else {
          y := Converted(v, 0xa7, W32);
        }
        x := Normalize(y, to, n);
      }
    }

    /** Comparisons: one instruction chosen by width and signedness. */
    method Relational(op: Op, t: IntType, l: nat, r: nat, ghost a: int, ghost b: int) returns (x: nat)
      requires Valid() && Comparison(op) && InRange(t, PB, a) && InRange(t, PB, b)
      requires Holds(now, l, Canonical(t, a)) && Holds(now, r, Canonical(t, b))
      modifies this
      ensures Valid() && old(localTypes) <= localTypes && old(code) <= code
      ensures params + old(cursor) <= x && cursor == x - params + 1 && localTypes[x - params] == W32
      ensures Keeps(old(now), now, params + old(cursor))
      ensures Holds(now, x, Truth(Compare(op, a, b)))
    {
      CompareCorrect(op, t, a, b);
      ghost var f := now.frame;
      Pair(l, r, CompareOpcode(op, t));
      x := SaveTop(W32, f, Truth(Compare(op, a, b)));
    }

    /** The plain instruction of an operator, unchecked. */
    method Plainly(op: Op, t: IntType, l: nat, r: nat, ghost p: Word, ghost q: Word, ghost word: Word) returns (v: nat)
      requires Valid() && !Comparison(op)
      requires Live(now, l, p) && Live(now, r, q)
      requires now.Running? ==>
                 p.width == q.width == WidthOf(t) && Compute(InstrOf(op, Signed(t)), WidthOf(t), p.bits, q.bits) == Push(word)
      modifies this
      ensures Valid() && old(localTypes) <= localTypes && old(code) <= code
      ensures params + old(cursor) <= v && cursor == v - params + 1 && localTypes[v - params] == WidthOf(t)
      ensures now == Bind(old(now), v, word)
    {
      ghost var f := FrameOf(now);
      OpcodeCorrect(op, t);
      Pair(l, r, OpcodeOf(op, t));
      v := SaveTop(WidthOf(t), f, word);
    }

    /** The exact result of a narrow operator, in i64. */
    method ExactWide(op: Op, opcode: nat, t: IntType, l: nat, r: nat, ghost a: int, ghost b: int) returns (v: nat)
      requires Valid() && !Wide(t) && Decode(opcode) == Numeric(W64, CheckedInstr(op)) && CheckedOp(op)
      requires now.Trapped? || NarrowOperands(op, t, a, b)
      requires Live(now, l, Canonical(t, a)) && Live(now, r, Encode(W32, b))
      modifies this
      ensures Valid() && old(localTypes) <= localTypes && old(code) <= code
      ensures params + old(cursor) <= v && cursor == v - params + 1 && localTypes[v - params] == W64
      ensures now == Bind(old(now), v, Encode(W64, Exact(op, a, b)))
    {
      ghost var f := FrameOf(now);
      if now.Running? {
        ExactCompute(op, t, a, b);
      }
      Extended(l, r, Signed(t), opcode);
      v := SaveTop(W64, f, Encode(W64, Exact(op, a, b)));
    }

    /** Traps unless the i64 local lies within a narrow type's bounds. */
    method RangeGuard(v: nat, t: IntType, ghost exact: int)
      requires !Wide(t) && Live(now, v, Encode(W64, exact))
      requires now.Running? ==>
                 if Signed(t) then -0x8000_0000_0000_0000 <= exact < 0x8000_0000_0000_0000
                 else -0x1_0000_0000 < exact < 0x1_0000_0000_0000_0000
      requires Valid()
      modifies this`code, this`now
      ensures Valid()
      ensures old(code) <= code
      ensures now == if InRange(t, PB, exact) then old(now) else Trapped
    {
      hide Run, Encode, Size, MinOf, MaxOf, Pow2;
      if now.Running? {
        NarrowCheck(t, exact);
      }
      GuardImmediate(v, Encode(W64, MaxOf(t, PB)), if Signed(t) then 0x57 else 0x58);
      if Signed(t) {
        GuardImmediate(v, Encode(W64, MinOf(t, PB)), 0x59);
      }
    }

    /** Arithmetic of at most 32 bits: exact in i64, then compared with the type's bounds. */
    method CheckedNarrow(op: Op, opcode: nat, t: IntType, l: nat, r: nat, ghost a: int, ghost b: int) returns (x: nat)
      requires Valid() && !Wide(t) && Decode(opcode) == Numeric(W64, CheckedInstr(op)) && CheckedOp(op)
      requires now.Trapped? || NarrowOperands(op, t, a, b)
      requires Live(now, l, Canonical(t, a)) && Live(now, r, Encode(W32, b))
      modifies this
      ensures Valid() && old(localTypes) <= localTypes && old(code) <= code
      ensures old(cursor) <= cursor && params <= x < params + cursor && localTypes[x - params] == W32
      ensures if InRange(t, PB, Exact(op, a, b))
              then Yields(old(now), now, params + old(cursor), x, Canonical(t, Exact(op, a, b)))
              else now.Trapped?
    {
      hide Run, Encode, MinOf, MaxOf, Exact, Bits;
      var v := ExactWide(op, opcode, t, l, r, a, b);
      if now.Running? {
        NarrowBounds(op, t, a, b);
      }
      RangeGuard(v, t, Exact(op, a, b));
      Narrows(Exact(op, a, b));
      x := Converted(v, 0xa7, W32);
    }

    /** Pushes the conjunction of two exclusive-ors of i64 locals. */
    method XorAnd(l: nat, v: nat, m: nat, u: nat, ghost f: Frame)
      requires Valid() && now == Running(f) && {l, v, m, u} <= f.locals.Keys
      requires f.locals[l].width == f.locals[v].width == f.locals[m].width == f.locals[u].width == W64
      modifies this`code, this`now
      ensures Valid() && old(code) <= code
      ensures now == Running(PushOn(f, SignWord(f.locals[l].bits, f.locals[v].bits, f.locals[m].bits, f.locals[u].bits)))
    {
      hide Run, Encode, Pow2, Bitwise;
      ghost var x := Encode(W64, Bitwise(BitXor, f.locals[l].bits, f.locals[v].bits));
      ghost var y := Encode(W64, Bitwise(BitXor, f.locals[m].bits, f.locals[u].bits));
      Pair(l, v, 0x85);
      assert now == Running(PushOn(f, x));
      Pair(m, u, 0x85);
      assert now == Running(PushOn(PushOn(f, x), y));
      Step2(f, x, y, 0x83);
      Emit(Plain(0x83));
    }

    /** Traps when a signed 64-bit sum or difference, wrapped in `v`, was not representable. */
    method GuardSignedSum(subtract: bool, l: nat, r: nat, v: nat, ghost a: int, ghost b: int)
      requires InRange(I64, PB, a) && InRange(I64, PB, b)
      requires Holds(now, l, Canonical(I64, a)) && Holds(now, r, Canonical(I64, b))
      requires Holds(now, v, Encode(W64, SumOf(a, b, subtract)))
      requires Valid()
      modifies this`code, this`now
      ensures Valid()
      ensures old(code) <= code
      ensures now == if InRange(I64, PB, SumOf(a, b, subtract)) then old(now) else Trapped
    {
      hide Run, Encode, Size, MinOf, MaxOf, Pow2, Bitwise;
      ghost var f := now.frame;
      var m, u := if subtract then l else r, if subtract then r else v;
      ghost var word := SignWord(f.locals[l].bits, f.locals[v].bits, f.locals[m].bits, f.locals[u].bits);
      ghost var fits := Truth(InRange(I64, PB, SumOf(a, b, subtract)));
      XorAnd(l, v, m, u, f);
      SumSign(a, b, subtract);
      TopImmediate(RawWord(W64, 0), 0x59, f, word);
      Guard(f, fits);
    }

    /** Traps when an unsigned 64-bit sum or difference, wrapped in `v`, was not representable. */
    method GuardUnsignedSum(subtract: bool, l: nat, r: nat, v: nat, ghost a: int, ghost b: int)
      requires InRange(U64, PB, a) && InRange(U64, PB, b)
      requires Holds(now, l, Canonical(U64, a)) && Holds(now, r, Canonical(U64, b))
      requires Holds(now, v, Encode(W64, SumOf(a, b, subtract)))
      requires Valid()
      modifies this`code, this`now
      ensures Valid()
      ensures old(code) <= code
      ensures now == if InRange(U64, PB, SumOf(a, b, subtract)) then old(now) else Trapped
    {
      hide Run;
      UnsignedSum(a, b);
      GuardPair(if subtract then l else v, if subtract then r else l, 0x5a);
    }

    /** Traps when a 64-bit left shift, wrapped in `v`, lost bits. */
    method GuardShift(t: IntType, l: nat, r: nat, v: nat, ghost a: int, ghost k: nat)
      requires Wide(t) && InRange(t, PB, a) && k < 64
      requires Live(now, l, Canonical(t, a)) && Live(now, r, RawWord(W64, k))
      requires Live(now, v, Encode(W64, a * Pow2(k)))
      requires Valid()
      modifies this`code, this`now
      ensures Valid()
      ensures old(code) <= code
      ensures now == if InRange(t, PB, a * Pow2(k)) then old(now) else Trapped
    {
      hide Run;
      ghost var f := FrameOf(now);
      ghost var back := Encode(W64, View(t, Encode(W64, a * Pow2(k)).bits) / Pow2(k));
      ShiftComputes(W64, Encode(W64, a * Pow2(k)).bits, k);
      Pair(v, r, if Signed(t) then 0x87 else 0x88);
      assert now.Trapped? || now == Running(PushOn(f, back));
      OnTop(l, 0x51, f, back);
      SmallPow(k);
      ShiftBack(t, a, Pow2(k));
      Guard(f, Truth(back.bits == Canonical(t, a).bits));
    }

    /** Traps unless dividing `v` by `r` gives back `l`. */
    method GuardQuotient(t: IntType, l: nat, r: nat, v: nat, ghost a: int, ghost b: int)
      requires Wide(t) && InRange(t, PB, a) && InRange(t, PB, b)
      requires now.Running? ==> Holds(now, l, Canonical(t, a)) && Holds(now, r, Canonical(t, b)) && Holds(now, v, Encode(W64, a * b))
      requires now.Running? ==> b != 0
      requires now.Running? && Signed(t) ==> !(a == MinOf(t, PB) && b == -1) && !(b == MinOf(t, PB) && a == -1)
      requires Valid()
      modifies this`code, this`now
      ensures Valid()
      ensures old(code) <= code
      ensures old(now).Trapped? ==> now.Trapped?
      ensures old(now).Skipping? ==> now == old(now)
      ensures old(now).Running? ==> now == if InRange(t, PB, a * b) then old(now) else Trapped
    {
      hide Run;
      ghost var s := now;
      Pair(v, r, if Signed(t) then 0x7f else 0x80);
      ghost var f := if s.Running? then s.frame else Frame([], map[], 0);
      ghost var back := if s.Running? then Quotient(t, a, b) else RawWord(W64, 0);
      if s.Running? {
        QuotientComputes(t, a, b);
        assert now == Running(PushOn(f, back));
      }
      OnTop(l, 0x51, f, back);
      Guard(f, Truth(back.bits == Canonical(t, a).bits));
    }

    /** Traps on the two signed products whose division check would itself trap. */
    method GuardFactors(l: nat, r: nat, ghost a: int, ghost b: int)
      requires InRange(I64, PB, a) && InRange(I64, PB, b)
      requires now.Running? ==> Holds(now, l, Canonical(I64, a)) && Holds(now, r, Canonical(I64, b))
      requires Valid()
      modifies this`code, this`now
      ensures Valid()
      ensures old(code) <= code
      ensures old(now).Skipping? ==> now == old(now)
      ensures old(now).Running? ==> now == if BadFactors(a, b) then Trapped else old(now)
    {
      var min, minusOne := Encode(W64, -0x8000_0000_0000_0000), Encode(W64, -1);
      SameWord(a, -0x8000_0000_0000_0000);
      SameWord(b, -0x8000_0000_0000_0000);
      SameWord(a, -1);
      SameWord(b, -1);
      GuardNotBoth(l, min, r, minusOne);
      GuardNotBoth(r, min, l, minusOne);
    }

    /** Opens an `if` whose `else` arm runs exactly when the local is nonzero. */
    method UnlessZero(r: nat, ghost f: Frame)
      requires now == Running(f) && r in f.locals && f.locals[r].width == W64
      requires Valid()
      modifies this`code, this`now
      ensures Valid()
      ensures old(code) <= code
      ensures now == if f.locals[r].bits == 0 then Skipping(f, 0, false) else Running(f.(open := f.open + 1))
    {
      Emit(LocalGet(r));
      Step1(f, f.locals[r], 0x50);
      Emit(Plain(0x50));
      PopPush(f, Truth(f.locals[r].bits == 0));
      Emit(If);
      Emit(Else);
    }

    /** Traps when a 64-bit product, wrapped in `v`, was not representable. */
    method GuardProduct(t: IntType, l: nat, r: nat, v: nat, ghost a: int, ghost b: int)
      requires Wide(t) && InRange(t, PB, a) && InRange(t, PB, b)
      requires Holds(now, l, Canonical(t, a)) && Holds(now, r, Canonical(t, b)) && Holds(now, v, Encode(W64, a * b))
      requires Valid()
      modifies this`code, this`now
      ensures Valid()
      ensures old(code) <= code
      ensures now == if InRange(t, PB, a * b) then old(now) else Trapped
    {
      hide Run, Encode;
      Views(t, b);
      UnlessZero(r, now.frame);
      if Signed(t) {
        GuardFactors(l, r, a, b);
        MinProducts(a, b);
      }
      GuardQuotient(t, l, r, v, a, b);
      Emit(End);
    }

    /** Traps for a zero divisor and for the signed minimum divided by -1. */
    method GuardDivision(t: IntType, l: nat, r: nat, ghost a: int, ghost b: int)
      requires InRange(t, PB, a) && InRange(t, PB, b)
      requires Holds(now, l, Canonical(t, a)) && Holds(now, r, Canonical(t, b))
      requires Valid()
      modifies this`code, this`now
      ensures Valid()
      ensures old(code) <= code
      ensures now == if b == 0 || (Signed(t) && a == MinOf(t, PB) && b == -1) then Trapped else old(now)
    {
      ZeroWord(t, b);
      GuardImmediate(r, Encode(WidthOf(t), 0), if Wide(t) then 0x52 else 0x47);
      if Signed(t) {
        MinWords(t, a, b);
        GuardNotBoth(l, Encode(WidthOf(t), MinOf(t, PB)), r, Encode(WidthOf(t), -1));
      }
    }

    /** Division and remainder: the guards, then one instruction. */
    method DivRem(op: Op, t: IntType, l: nat, r: nat, ghost a: int, ghost b: int) returns (x: nat)
      requires Valid() && (op.Div? || op.Rem?) && InRange(t, PB, a) && InRange(t, PB, b)
      requires Holds(now, l, Canonical(t, a)) && Holds(now, r, Canonical(t, b))
      modifies this
      ensures Valid() && old(localTypes) <= localTypes && old(code) <= code
      ensures old(cursor) <= cursor && params <= x < params + cursor && localTypes[x - params] == WidthOf(t)
      ensures Implements(old(now), now, params + old(cursor), x, t, Apply(op, t, PB, a, b, false))
    {
      hide Run, Encode, Compute, Wrap, Size, Pow2, Decode, Step;
      ghost var n := DivisionFacts(op, t, a, b);
      GuardDivision(t, l, r, a, b);
      var v := Plainly(op, t, l, r, Canonical(t, a), Canonical(t, b), Canonical(t, n));
      x := Normalize(v, t, n);
    }

    /** Traps unless the shift count is below the width, and gives it the shifted operand's width. */
    method ShiftCount(t: IntType, rt: IntType, r: nat, ghost b: int) returns (y: nat)
      requires Valid() && InRange(rt, PB, b) && r < params + cursor && Holds(now, r, Canonical(rt, b))
      modifies this
      ensures Valid() && old(localTypes) <= localTypes && old(code) <= code
      ensures old(cursor) <= cursor && y < params + cursor
      ensures if 0 <= b < Bits(t, PB) then Yields(old(now), now, params + old(cursor), y, RawWord(WidthOf(t), b))
              else now.Trapped?
    {
      CountWord(t, rt, b);
      GuardImmediate(r, Encode(WidthOf(rt), Bits(t, PB)), if Wide(rt) then 0x54 else 0x49);
      if WidthOf(rt) != WidthOf(t) {
        y := Converted(r, if Wide(t) then 0xad else 0xa7, WidthOf(t));
      } else {
        y := r;
      }
    }

    /** Right shift: arithmetic for signed, logical for unsigned types. */
    method ShiftRight(t: IntType, l: nat, r: nat, ghost a: int, ghost b: int) returns (x: nat)
      requires Valid() && InRange(t, PB, a)
      requires now.Trapped? || 0 <= b < Bits(t, PB)
      requires Live(now, l, Canonical(t, a)) && (now.Trapped? || Holds(now, r, RawWord(WidthOf(t), b)))
      modifies this
      ensures Valid() && old(localTypes) <= localTypes && old(code) <= code
      ensures old(cursor) <= cursor && params <= x < params + cursor && localTypes[x - params] == WidthOf(t)
      ensures old(now).Trapped? ==> now.Trapped?
      ensures old(now).Running? ==> Yields(old(now), now, params + old(cursor), x, Canonical(t, a / Pow2(Abs(b))))
    {
      hide Run, Encode, Compute, Wrap;
      ghost var k: nat := if 0 <= b < Bits(t, PB) then b else 0;
      ghost var n := ShiftFacts(t, a, k);
      var v := Plainly(Shr, t, l, r, Canonical(t, a), RawWord(WidthOf(t), k), Canonical(t, n));
      x := Normalize(v, t, n);
    }

    method BitwiseOp(op: Op, t: IntType, l: nat, r: nat, ghost a: int, ghost b: int) returns (x: nat)
      requires Valid() && (op.BitAnd? || op.BitOr? || op.BitXor?) && InRange(t, PB, a) && InRange(t, PB, b)
      requires Holds(now, l, Canonical(t, a)) && Holds(now, r, Canonical(t, b))
      modifies this
      ensures Valid() && old(localTypes) <= localTypes && old(code) <= code
      ensures old(cursor) <= cursor && params <= x < params + cursor && localTypes[x - params] == WidthOf(t)
      ensures Implements(old(now), now, params + old(cursor), x, t, Apply(op, t, PB, a, b, false))
    {
      hide Run, Encode, Compute, Wrap, Apply, Canonical, Keeps, Bind, InRange, MinOf, MaxOf, Bits, InstrOf, OpcodeOf, WidthOf;
      ghost var s := now;
      ghost var n := BitwiseFacts(op, t, a, b);
      var v := Plainly(op, t, l, r, Canonical(t, a), Canonical(t, b), Encode(WidthOf(t), n));
      Bound(s, v, Encode(WidthOf(t), n));
      ghost var s1, limit := now, params + cursor;
      x := Normalize(v, t, n);
      StillKept(s, s1, now, v, limit);
    }

    /** The wrapped result of an operator that can overflow, in canonical form unless 64-bit checks follow. */
    method Wrapped(op: Op, t: IntType, l: nat, r: nat, ghost a: int, ghost b: int) returns (v: nat)
      requires Valid() && CheckedOp(op) && InRange(t, PB, a)
      requires now.Trapped? || if op.Shl? then 0 <= b < Bits(t, PB) else InRange(t, PB, b)
      requires Live(now, l, Canonical(t, a)) && Live(now, r, Encode(WidthOf(t), b))
      modifies this
      ensures Valid() && old(localTypes) <= localTypes && old(code) <= code
      ensures params + old(cursor) <= v && cursor == v - params + 1 && localTypes[v - params] == WidthOf(t)
      ensures now == Bind(old(now), v, Encode(WidthOf(t), Exact(op, a, b)))
    {
      if now.Running? {
        WrapFacts(op, t, a, b);
      }
      v := Plainly(op, t, l, r, Canonical(t, a), Encode(WidthOf(t), b),
                   Encode(WidthOf(t), Exact(op, a, b)));
    }

    /** Traps when the exact result of a 64-bit operator, wrapped in `v`, is not representable. */
    method GuardWide(op: Op, t: IntType, l: nat, r: nat, v: nat, ghost a: int, ghost b: int)
      requires Wide(t) && CheckedOp(op) && InRange(t, PB, a)
      requires if op.Shl? then now.Trapped? || 0 <= b < 64 else now.Running? && InRange(t, PB, b)
      requires Live(now, l, Canonical(t, a)) && Live(now, r, Encode(W64, b)) && Live(now, v, Encode(W64, Exact(op, a, b)))
      requires Valid()
      modifies this`code, this`now
      ensures Valid()
      ensures old(code) <= code
      ensures old(now).Trapped? ==> now.Trapped?
      ensures old(now).Running? ==> now == if InRange(t, PB, Exact(op, a, b)) then old(now) else Trapped
    {
      hide Run, Encode;
      if op.Add? || op.Sub? {
        if Signed(t) {
          GuardSignedSum(op.Sub?, l, r, v, a, b);
        } else {
          GuardUnsignedSum(op.Sub?, l, r, v, a, b);
        }
      } else if op.Shl? {
        ghost var k: nat := if 0 <= b < 64 then b else 0;
        CountBits(t, k);
        GuardShift(t, l, r, v, a, k);
      } else {
        GuardProduct(t, l, r, v, a, b);
      }
    }

    /** Unchecked sums, products and left shifts: the wrapped result, normalised. */
    method Unchecked(op: Op, t: IntType, l: nat, r: nat, ghost a: int, ghost b: int) returns (x: nat)
      requires Valid() && CheckedOp(op) && InRange(t, PB, a)
      requires now.Trapped? || if op.Shl? then 0 <= b < Bits(t, PB) else InRange(t, PB, b)
      requires Live(now, l, Canonical(t, a)) && Live(now, r, Encode(WidthOf(t), b))
      modifies this
      ensures Valid() && old(localTypes) <= localTypes && old(code) <= code
      ensures old(cursor) <= cursor && params <= x < params + cursor && localTypes[x - params] == WidthOf(t)
      ensures Yields(old(now), now, params + old(cursor), x, Canonical(t, Wrap(t, PB, Exact(op, a, b))))
    {
      var v := Wrapped(op, t, l, r, a, b);
      x := Normalize(v, t, Exact(op, a, b));
    }

    /** Checked 64-bit sums, products and left shifts. */
    method CheckedWide(op: Op, t: IntType, l: nat, r: nat, ghost a: int, ghost b: int) returns (x: nat)
      requires Valid() && Wide(t) && CheckedOp(op) && InRange(t, PB, a) && l < params + cursor && r < params + cursor
      requires if op.Shl? then now.Trapped? || 0 <= b < 64 else now.Running? && InRange(t, PB, b)
      requires Live(now, l, Canonical(t, a)) && Live(now, r, Encode(W64, b))
      modifies this
      ensures Valid() && old(localTypes) <= localTypes && old(code) <= code
      ensures old(cursor) <= cursor && params <= x < params + cursor && localTypes[x - params] == WidthOf(t)
      ensures if InRange(t, PB, Exact(op, a, b))
              then Yields(old(now), now, params + old(cursor), x, Canonical(t, Exact(op, a, b)))
              else now.Trapped?
    {
      hide Run, Encode, MinOf, MaxOf, Exact, Canonical, Wrap;
      var v := Wrapped(op, t, l, r, a, b);
      GuardWide(op, t, l, r, v, a, b);
      x := Normalize(v, t, Exact(op, a, b));
    }

    /** Sums, products and left shifts, checked or wrapping. */
    method Arithmetic(op: Op, t: IntType, l: nat, r: nat, unchecked: bool, ghost a: int, ghost b: int) returns (x: nat)
      requires Valid() && CheckedOp(op) && InRange(t, PB, a) && l < params + cursor && r < params + cursor
      requires if op.Shl? then now.Trapped? || 0 <= b < Bits(t, PB) else now.Running? && InRange(t, PB, b)
      requires Live(now, l, Canonical(t, a)) && Live(now, r, Encode(WidthOf(t), b))
      modifies this
      ensures Valid() && old(localTypes) <= localTypes && old(code) <= code
      ensures old(cursor) <= cursor && params <= x < params + cursor && localTypes[x - params] == WidthOf(t)
      ensures old(now).Trapped? ==> now.Trapped?
      ensures old(now).Running? ==>
                Implements(old(now), now, params + old(cursor), x, t, Fit(t, PB, Exact(op, a, b), unchecked))
    {
      hide Exact, Encode, Pow2, Run, Canonical, Wrap;
      if unchecked {
        x := Unchecked(op, t, l, r, a, b);
      } else if Wide(t) {
        x := CheckedWide(op, t, l, r, a, b);
      } else {
        OpcodeCorrect(op, t);
        x := CheckedNarrow(op, OpcodeOf(op, t) + 0x12, t, l, r, a, b);
      }
    }

    /** Shifts: the count check, then the shift. */
    method Shift(op: Op, t: IntType, rt: IntType, l: nat, r: nat, unchecked: bool, ghost a: int, ghost b: int) returns (x: nat)
      requires Valid() && (op.Shl? || op.Shr?) && InRange(t, PB, a) && InRange(rt, PB, b)
      requires l < params + cursor && r < params + cursor
      requires Holds(now, l, Canonical(t, a)) && Holds(now, r, Canonical(rt, b))
      modifies this
      ensures Valid() && old(localTypes) <= localTypes && old(code) <= code
      ensures old(cursor) <= cursor && params <= x < params + cursor && localTypes[x - params] == WidthOf(t)
      ensures Implements(old(now), now, params + old(cursor), x, t, Apply(op, t, PB, a, b, unchecked))
    {
      hide Run, Apply, Exact, Encode, Size, MinOf, MaxOf, Fit;
      var y := ShiftCount(t, rt, r, b);
      if 0 <= b < Bits(t, PB) {
        CountBits(t, b);
      }
      ApplyShift(op, t, a, b, unchecked);
      if op.Shr? {
        x := ShiftRight(t, l, y, a, b);
      } else {
        x := Arithmetic(op, t, l, y, unchecked, a, b);
      }
    }

    /**
     A binary operator on canonical operands: traps exactly when the operator's check fails,
     and otherwise leaves its value in canonical form in a local of the right type.
     */
    method Binary(op: Op, t: IntType, rt: IntType, l: nat, r: nat, wrap: bool, proven: bool, ghost a: int, ghost b: int)
      returns (x: nat)
      requires Valid() && InRange(t, PB, a) && InRange(rt, PB, b) && (op.Shl? || op.Shr? || rt == t)
      requires l < params + cursor && r < params + cursor
      requires Holds(now, l, Canonical(t, a)) && Holds(now, r, Canonical(rt, b))
      modifies this
      ensures Valid() && old(localTypes) <= localTypes && old(code) <= code
      ensures old(cursor) <= cursor && params <= x < params + cursor
      ensures localTypes[x - params] == if Comparison(op) then W32 else WidthOf(t)
      ensures Implements(old(now), now, params + old(cursor), x, if Comparison(op) then U32 else t,
                         Apply(op, t, PB, a, b, wrap || proven))
    {
      hide Apply, Exact, Encode, Run, Fit, MinOf, MaxOf, Compare, Size, Pow2;
      ApplyCases(op, t, a, b, wrap || proven);
      if Comparison(op) {
        x := Relational(op, t, l, r, a, b);
      } else if op.Div? || op.Rem? {
        x := DivRem(op, t, l, r, a, b);
      } else if op.BitAnd? || op.BitOr? || op.BitXor? {
        x := BitwiseOp(op, t, l, r, a, b);
      } else if op.Shl? || op.Shr? {
        x := Shift(op, t, rt, l, r, wrap || proven, a, b);
      } else {
        x := Arithmetic(op, t, l, r, wrap || proven, a, b);
      }
    }
  }

  /** The emitted code realises an operator: a failed check traps, a value ends up canonical in `x`. */
  ghost predicate Implements(s: State, s': State, limit: nat, x: nat, t: IntType, result: Arith) {
    match result
    case Failed(_) => s'.Trapped?
    case Value(n) => Keeps(s, s', limit) && Holds(s', x, Canonical(t, n))
  }

  /** The backend's opcode table for arithmetic. */
  function OpcodeOf(op: Op, t: IntType): nat
    requires !Comparison(op)
  {
    (if op.Add? then 0x6a
     else if op.Sub? then 0x6b
     else if op.Mul? then 0x6c
     else if op.Div? then (if Signed(t) then 0x6d else 0x6e)
     else if op.Rem? then (if Signed(t) then 0x6f else 0x70)
     else if op.BitAnd? then 0x71
     else if op.BitOr? then 0x72
     else if op.BitXor? then 0x73
     else if op.Shl? then 0x74
     else if Signed(t) then 0x75 else 0x76)
    + (if Wide(t) then 0x12 else 0)
  }

  /** The instruction an opcode of the table stands for. */
  function InstrOf(op: Op, signed: bool): IntOp
    requires !Comparison(op)
  {
    match op
    case Add => IAdd
    case Sub => ISub
    case Mul => IMul
    case Div => if signed then IDivS else IDivU
    case Rem => if signed then IRemS else IRemU
    case BitAnd => IAnd
    case BitOr => IOr
    case BitXor => IXor
    case Shl => IShl
    case Shr => if signed then IShrS else IShrU
  }

  lemma OpcodeCorrect(op: Op, t: IntType)
    requires !Comparison(op)
    ensures Decode(OpcodeOf(op, t)) == Numeric(WidthOf(t), InstrOf(op, Signed(t)))
    ensures !Wide(t) ==> Decode(OpcodeOf(op, t) + 0x12) == Numeric(W64, InstrOf(op, Signed(t)))
  {
  }

  /** The value of a division that succeeds, and what the instruction computes. */
  lemma DivisionFacts(op: Op, t: IntType, a: int, b: int) returns (n: int)
    requires (op.Div? || op.Rem?) && InRange(t, PB, a) && InRange(t, PB, b)
    ensures var bad := b == 0 || (Signed(t) && a == MinOf(t, PB) && b == -1);
            if bad then Apply(op, t, PB, a, b, false).Failed?
            else
              && Apply(op, t, PB, a, b, false) == Value(n) && Wrap(t, PB, n) == n
              && Compute(InstrOf(op, Signed(t)), WidthOf(t), Canonical(t, a).bits, Canonical(t, b).bits) == Push(Canonical(t, n))
  {
    n := 0;
    if b != 0 && !(Signed(t) && a == MinOf(t, PB) && b == -1) {
      Divides2(t, a, b);
      n := if op.Div? then TruncDiv(a, b) else TruncRem(a, b);
    }
  }

  lemma BitwiseFacts(op: Op, t: IntType, a: int, b: int) returns (n: int)
    requires op.BitAnd? || op.BitOr? || op.BitXor?
    ensures Compute(InstrOf(op, Signed(t)), WidthOf(t), Canonical(t, a).bits, Canonical(t, b).bits) == Push(Encode(WidthOf(t), n))
    ensures Apply(op, t, PB, a, b, false) == Value(Wrap(t, PB, n))
    ensures Canonical(t, a).width == Canonical(t, b).width == WidthOf(t)
  {
    var p, q := Canonical(t, a).bits, Canonical(t, b).bits;
    n := Bitwise(op, p, q);
    BitwiseComputes(op, WidthOf(t), p, q);
    BitwiseAgrees(op, t, a, b);
  }

  lemma ShiftFacts(t: IntType, a: int, k: nat) returns (n: int)
    requires InRange(t, PB, a) && k < Bits(t, PB)
    ensures Compute(InstrOf(Shr, Signed(t)), WidthOf(t), Canonical(t, a).bits, k) == Push(Canonical(t, n))
    ensures n == a / Pow2(k) && Wrap(t, PB, n) == n
  {
    n := a / Pow2(k);
    ShiftsRight(t, a, k);
    ShiftedInRange(t, a, Pow2(k));
  }

  lemma WrapFacts(op: Op, t: IntType, a: int, b: int)
    requires CheckedOp(op) && (op.Shl? ==> 0 <= b < Bits(t, PB))
    ensures Compute(InstrOf(op, Signed(t)), WidthOf(t), Canonical(t, a).bits, Encode(WidthOf(t), b).bits) ==
            Push(Encode(WidthOf(t), Exact(op, a, b)))
  {
    if op.Shl? {
      CountBits(t, b);
      ShiftsLeft(WidthOf(t), a, b);
    } else {
      WrapsExactly(WidthOf(t), a, b);
    }
  }

  lemma ZeroWord(t: IntType, b: int)
    requires InRange(t, PB, b)
    ensures Canonical(t, b).bits == Encode(WidthOf(t), 0).bits <==> b == 0
  {
    Views(t, b);
    Views(t, 0);
  }

  lemma MinWords(t: IntType, a: int, b: int)
    requires Signed(t) && InRange(t, PB, a) && InRange(t, PB, b)
    ensures Canonical(t, a) == Encode(WidthOf(t), MinOf(t, PB)) <==> a == MinOf(t, PB)
    ensures Canonical(t, b) == Encode(WidthOf(t), -1) <==> b == -1
  {
    Views(t, a);
    Views(t, MinOf(t, PB));
    Views(t, b);
    Views(t, -1);
  }

  /** What the operator means, kind by kind. */
  lemma ApplyCases(op: Op, t: IntType, a: int, b: int, unchecked: bool)
    ensures Comparison(op) ==>
              Apply(op, t, PB, a, b, unchecked) == Value(if Compare(op, a, b) then 1 else 0) &&
              Canonical(U32, if Compare(op, a, b) then 1 else 0) == Truth(Compare(op, a, b))
    ensures op.Add? || op.Sub? || op.Mul? ==>
              Apply(op, t, PB, a, b, unchecked) == Fit(t, PB, Exact(op, a, b), unchecked)
    ensures op.Div? || op.Rem? || op.BitAnd? || op.BitOr? || op.BitXor? ==>
              Apply(op, t, PB, a, b, unchecked) == Apply(op, t, PB, a, b, false)
  {
  }

  lemma ApplyShift(op: Op, t: IntType, a: int, b: int, unchecked: bool)
    requires op.Shl? || op.Shr?
    ensures Apply(op, t, PB, a, b, unchecked) ==
            if !(0 <= b < Bits(t, PB)) then Failed(Check.ShiftCount)
            else if op.Shl? then Fit(t, PB, Exact(op, a, b), unchecked)
            else Value(a / Pow2(Abs(b)))
  {
  }

  /** An unsigned comparison of a count with a width rejects negative and large counts alike. */
  lemma CountWord(t: IntType, rt: IntType, b: int)
    requires InRange(rt, PB, b)
    ensures var p, bits := Canonical(rt, b).bits, Encode(WidthOf(rt), Bits(t, PB)).bits;
            && (p < bits <==> 0 <= b < Bits(t, PB))
            && (0 <= b < Bits(t, PB) ==> p == b && Encode(WidthOf(t), p) == RawWord(WidthOf(t), b))
  {
    SmallWord(WidthOf(rt), Bits(t, PB));
    if 0 <= b < Bits(t, PB) {
      SmallWord(WidthOf(rt), b);
      SmallWord(WidthOf(t), b);
    } else {
      LargeWord(rt, b, Bits(t, PB));
    }
  }

  lemma SmallWord(w: Width, n: nat)
    requires n <= 64
    ensures Encode(w, n) == RawWord(w, n)
  {
  }

  lemma LargeWord(rt: IntType, b: int, bits: nat)
    requires InRange(rt, PB, b) && bits <= 64 && !(0 <= b < bits)
    ensures Canonical(rt, b).bits >= bits
  {
    if b >= 0 {
      assert Canonical(rt, b).bits == b;
    }
  }

  lemma CountBits(t: IntType, b: int)
    requires 0 <= b < Bits(t, PB)
    ensures b < BitsOf(WidthOf(t)) && Encode(WidthOf(t), b) == RawWord(WidthOf(t), b)
  {
  }

  function SumOf(a: int, b: int, subtract: bool): int {
    if subtract then a - b else a + b
  }

  predicate BadFactors(a: int, b: int) {
    || (a == -0x8000_0000_0000_0000 && b == -1)
    || (b == -0x8000_0000_0000_0000 && a == -1)
  }

  /** `(x ^ v) & (y ^ u)` */
  function SignWord(x: nat, v: nat, y: nat, u: nat): Word {
    Encode(W64, Bitwise(BitAnd, Encode(W64, Bitwise(BitXor, x, v)).bits, Encode(W64, Bitwise(BitXor, y, u)).bits))
  }

  lemma SignWordSign(x: nat, v: nat, y: nat, u: nat)
    requires x < Size(W64) && v < Size(W64) && y < Size(W64) && u < Size(W64)
    ensures AsSigned(W64, SignWord(x, v, y, u).bits) < 0 <==>
            (AsSigned(W64, x) < 0) != (AsSigned(W64, v) < 0) && (AsSigned(W64, y) < 0) != (AsSigned(W64, u) < 0)
  {
    SignTest(x, v, y, u);
    Small(Bitwise(BitXor, x, v));
    Small(Bitwise(BitXor, y, u));
    Small(Bitwise(BitAnd, Bitwise(BitXor, x, v), Bitwise(BitXor, y, u)));
  }

  lemma Small(n: nat)
    requires n < Size(W64)
    ensures Encode(W64, n).bits == n
  {
  }

  lemma SumSign(a: int, b: int, subtract: bool)
    requires InRange(I64, PB, a) && InRange(I64, PB, b)
    ensures var x, y, v := Canonical(I64, a).bits, Canonical(I64, b).bits, Encode(W64, SumOf(a, b, subtract)).bits;
            var word := SignWord(x, v, if subtract then x else y, if subtract then y else v);
            AsSigned(W64, word.bits) >= 0 <==> InRange(I64, PB, SumOf(a, b, subtract))
  {
    var x, y, v := Canonical(I64, a).bits, Canonical(I64, b).bits, Encode(W64, SumOf(a, b, subtract)).bits;
    SignWordSign(x, v, if subtract then x else y, if subtract then y else v);
    Views(I64, a);
    Views(I64, b);
    SignedSum(a, b, subtract);
  }

  lemma UnsignedSum(a: int, b: int)
    requires InRange(U64, PB, a) && InRange(U64, PB, b)
    ensures Canonical(U64, a).bits == a && Canonical(U64, b).bits == b
    ensures Encode(W64, a + b).bits >= a <==> InRange(U64, PB, a + b)
    ensures a >= b <==> InRange(U64, PB, a - b)
  {
    Views(U64, a);
    Views(U64, b);
  }

  /** The word that dividing the wrapped product by its right factor yields. */
  function Quotient(t: IntType, a: int, b: int): Word
    requires b != 0
  {
    var v := Encode(W64, a * b).bits;
    if Signed(t) then Encode(W64, TruncDiv(AsSigned(W64, v), b)) else Encode(W64, v / b)
  }

  lemma QuotientComputes(t: IntType, a: int, b: int)
    requires Wide(t) && InRange(t, PB, a) && InRange(t, PB, b) && b != 0
    requires Signed(t) ==> !(a == MinOf(t, PB) && b == -1) && !(b == MinOf(t, PB) && a == -1)
    ensures Compute(if Signed(t) then IDivS else IDivU, W64, Encode(W64, a * b).bits, Canonical(t, b).bits) == Push(Quotient(t, a, b))
    ensures Quotient(t, a, b).bits == Canonical(t, a).bits <==> InRange(t, PB, a * b)
  {
    hide Pow2, Bitwise;
    Views(t, a);
    Views(t, b);
    var v := Encode(W64, a * b).bits;
    if Signed(t) {
      SignedProduct(a, b);
      ViewOf(t, a * b);
      TruncBounds(AsSigned(W64, v), b);
      SameWord(TruncDiv(AsSigned(W64, v), b), a);
    } else {
      UnsignedProduct(a, b);
      Nonlinear.FloorBounds(v, b);
      NonnegativeProduct(a, b);
    }
  }

  lemma NonnegativeProduct(a: nat, b: nat)
    ensures a * b >= 0
  {
  }

  /** Signed 64-bit values have distinct words. */
  lemma SameWord(a: int, b: int)
    requires -0x8000_0000_0000_0000 <= a < 0x8000_0000_0000_0000 && -0x8000_0000_0000_0000 <= b < 0x8000_0000_0000_0000
    ensures Encode(W64, a) == Encode(W64, b) <==> a == b
  {
    SignedPattern(W64, a);
    SignedPattern(W64, b);
  }

  lemma MinProducts(a: int, b: int)
    ensures a == -0x8000_0000_0000_0000 && b == -1 ==> a * b == 0x8000_0000_0000_0000
    ensures b == -0x8000_0000_0000_0000 && a == -1 ==> a * b == 0x8000_0000_0000_0000
  {
  }

  predicate CheckedOp(op: Op) {
    op.Add? || op.Sub? || op.Mul? || op.Shl?
  }

  predicate NarrowOperands(op: Op, t: IntType, a: int, b: int) {
    && !Wide(t) && InRange(t, PB, a)
    && if op.Shl? then 0 <= b < Bits(t, PB) else (op.Add? || op.Sub? || op.Mul?) && InRange(t, PB, b)
  }

  function CheckedInstr(op: Op): IntOp {
    if op.Add? then IAdd else if op.Sub? then ISub else if op.Mul? then IMul else IShl
  }

  /** The i64 operator on extended operands yields the pattern of the exact result. */
  lemma ExactCompute(op: Op, t: IntType, a: int, b: int)
    requires NarrowOperands(op, t, a, b)
    ensures var x, y := Extend(Canonical(t, a), Signed(t)), Extend(Encode(W32, b), Signed(t));
            x.width == y.width == W64 && Compute(CheckedInstr(op), W64, x.bits, y.bits) == Push(Encode(W64, Exact(op, a, b)))
  {
    Extends(t, a);
    SmallExtends(t, b, op);
    assert Extend(Canonical(t, a), Signed(t)) == Encode(W64, a) && Extend(Encode(W32, b), Signed(t)) == Encode(W64, b);
    WideCompute(op, a, b);
  }

  lemma WideCompute(op: Op, a: int, b: int)
    requires op.Add? || op.Sub? || op.Mul? || (op.Shl? && 0 <= b < 64)
    ensures Compute(CheckedInstr(op), W64, Encode(W64, a).bits, Encode(W64, b).bits) == Push(Encode(W64, Exact(op, a, b)))
  {
    if op.Shl? {
      SmallWord(W64, b);
      ShiftsLeft(W64, a, b);
    } else {
      WrapsExactly(W64, a, b);
    }
  }

  lemma ShiftUp(p: nat, k: nat)
    requires k < 32
    ensures Compute(IShl, W32, p, k) == Push(Encode(W32, p * Pow2(k)))
  {
    assert k % BitsOf(W32) == k;
  }

  /** The backend's comparison opcodes. */
  function CompareOpcode(op: Op, t: IntType): nat
    requires Comparison(op)
  {
    (if op.Eq? then 0x46
     else if op.Ne? then 0x47
     else if op.Lt? then (if Signed(t) then 0x48 else 0x49)
     else if op.Le? then (if Signed(t) then 0x4c else 0x4d)
     else if op.Gt? then (if Signed(t) then 0x4a else 0x4b)
     else if Signed(t) then 0x4e else 0x4f)
    + (if Wide(t) then 11 else 0)
  }

  lemma CompareCorrect(op: Op, t: IntType, a: int, b: int)
    requires Comparison(op) && InRange(t, PB, a) && InRange(t, PB, b)
    ensures var o := Decode(CompareOpcode(op, t));
            && o.Test? && o.width == WidthOf(t)
            && (Relate(o.relation, o.width, Canonical(t, a).bits, Canonical(t, b).bits) <==> Compare(op, a, b))
  {
    ComparesAgree(t, a, b);
    RelateViews(op, t, Canonical(t, a).bits, Canonical(t, b).bits, a, b);
  }

  lemma RelateViews(op: Op, t: IntType, p: nat, q: nat, a: int, b: int)
    requires Comparison(op) && (p == q <==> a == b)
    requires if Signed(t) then AsSigned(WidthOf(t), p) == a && AsSigned(WidthOf(t), q) == b else p == a && q == b
    ensures var o := Decode(CompareOpcode(op, t));
            && o.Test? && o.width == WidthOf(t)
            && (Relate(o.relation, o.width, p, q) <==> Compare(op, a, b))
  {
  }

  /** The machine has trapped, or a local holds a word. */
  ghost predicate Live(s: State, x: nat, word: Word) {
    s.Trapped? || Holds(s, x, word)
  }

  ghost function FrameOf(s: State): Frame {
    if s.Running? then s.frame else Frame([], map[], 0)
  }

  ghost function Bind(s: State, x: nat, word: Word): State {
    if s.Running? then Running(s.frame.(locals := s.frame.locals[x := word])) else Trapped
  }

  lemma Bound(s: State, x: nat, word: Word)
    requires s.Running?
    ensures Holds(Bind(s, x, word), x, word) && Keeps(s, Bind(s, x, word), x)
  {
  }

  lemma StillKept(s: State, s1: State, s2: State, x: nat, limit: nat)
    requires Keeps(s, s1, x) && Keeps(s1, s2, limit) && x <= limit
    ensures forall least: nat :: least <= x ==> Keeps(s, s2, least)
  {
  }

  /** From a trap to a trap; otherwise a local at or above `limit` yields a word and nothing below changes. */
  ghost predicate Yields(s: State, s': State, limit: nat, x: nat, word: Word) {
    if s.Trapped? then s'.Trapped? else Keeps(s, s', limit) && Holds(s', x, word)
  }

  /** The machine runs and a local holds a word. */
  ghost predicate Holds(s: State, x: nat, word: Word) {
    s.Running? && x in s.frame.locals && s.frame.locals[x] == word
  }

  /** Both states run, with the same stack and the same locals below `limit`. */
  ghost predicate Keeps(s: State, s': State, limit: nat) {
    && s.Running? && s'.Running?
    && s'.frame.stack == s.frame.stack && s'.frame.open == s.frame.open
    && forall y: nat :: y < limit && y in s.frame.locals ==> y in s'.frame.locals && s'.frame.locals[y] == s.frame.locals[y]
  }

  /** A right operand extends like the left one. */
  lemma SmallExtends(t: IntType, b: int, op: Op)
    requires !Wide(t)
    requires if op.Shl? then 0 <= b < Bits(t, PB) else InRange(t, PB, b)
    ensures Encode(W64, if Signed(t) then AsSigned(W32, Encode(W32, b).bits) else Encode(W32, b).bits) == Encode(W64, b)
  {
    if op.Shl? {
      assert Encode(W32, b).bits == b;
    } else {
      Extends(t, b);
    }
  }

  lemma AndNot(f: Frame, p: bool, q: bool)
    ensures Step(Plain(0x45), Step(Plain(0x71), Running(PushOn(PushOn(f, Truth(p)), Truth(q))))) ==
            Running(PushOn(f, Truth(!(p && q))))
  {
    Step2(f, Truth(p), Truth(q), 0x71);
    TruthAnd(p, q);
    Step1(f, Truth(p && q), 0x45);
  }

  /** i32.wrap_i64, i64.extend_i32_s or i64.extend_i32_u */
  function Conversion(opcode: nat, w: Word): Word {
    if opcode == 0xa7 then Encode(W32, w.bits)
    else if opcode == 0xac then Encode(W64, AsSigned(W32, w.bits))
    else Encode(W64, w.bits)
  }

  lemma ConversionFacts(from: IntType, to: IntType, n: int)
    requires InRange(from, PB, n) && WidthOf(from) != WidthOf(to)
    ensures Canonical(from, n).width == WidthOf(from)
    ensures Conversion(if !Wide(to) then 0xa7 else if Signed(from) then 0xac else 0xad, Canonical(from, n)) ==
            Encode(WidthOf(to), n)
  {
    if Wide(to) {
      Extends(from, n);
    } else {
      Narrows(n);
    }
  }

  /** i64.extend_i32_s or i64.extend_i32_u */
  function Extend(w: Word, signed: bool): Word
    requires w.width == W32
  {
    if signed then Encode(W64, AsSigned(W32, w.bits)) else Encode(W64, w.bits)
  }

  lemma ExtendedRun(f: Frame, l: nat, r: nat, signed: bool, opcode: nat)
    requires Binary2(Decode(opcode)) && l in f.locals && r in f.locals && f.locals[l].width == f.locals[r].width == W32
    ensures var extend := Plain(if signed then 0xac else 0xad);
            var s1 := Step(extend, Step(LocalGet(l), Running(f)));
            var s2 := Step(extend, Step(LocalGet(r), s1));
            Step(Plain(opcode), s2) == Result2(Decode(opcode), f, Extend(f.locals[l], signed), Extend(f.locals[r], signed))
  {
    var x, y := Extend(f.locals[l], signed), Extend(f.locals[r], signed);
    Step1(f, f.locals[l], if signed then 0xac else 0xad);
    Step1(PushOn(f, x), f.locals[r], if signed then 0xac else 0xad);
    Step2(f, x, y, opcode);
  }

  lemma TruthAnd(a: bool, b: bool)
    ensures Compute(IAnd, W32, Truth(a).bits, Truth(b).bits) == Push(Truth(a && b))
  {
    assert Bitwise(BitAnd, 0, 0) == 0 && Bitwise(BitAnd, 1, 0) == 0 && Bitwise(BitAnd, 0, 1) == 0;
    assert Bitwise(BitAnd, 1, 1) == 1;
  }
}
