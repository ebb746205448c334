/** The counter of a lowered range loop, which steps without an overflow check. */
module WasmRange {
  import Nonlinear
  import opened Integers
  import opened Ranges
  import opened WasmMachine
  import opened WasmArithmetic
  import opened WasmInteger

  /** The comparison that keeps the loop going. */
  function KeepGoing(inclusive: bool, reverse: bool): Op {
    if reverse then (if inclusive then Ge else Gt) else (if inclusive then Le else Lt)
  }

  /** One up or down in the counter's machine width, wrapping. */
  function Advance(w: Width, counter: Word, down: bool): Word
  {
    Compute(if down then ISub else IAdd, w, counter.bits, 1).word
  }

  /** As long as the neighbour is a value of the type, stepping stays canonical. */
  lemma AdvanceCanonical(t: IntType, n: int, down: bool)
    ensures Advance(WidthOf(t), Canonical(t, n), down) == Canonical(t, if down then n - 1 else n + 1)
  {
    hide Pow2, Bitwise, TruncDiv, TruncRem, Encode, AsSigned, Size;
    var w := WidthOf(t);
    var m, p: int := Size(w), Encode(w, n).bits;
    EncodeResidue(w, n);
    EncodeResidue(w, p + 1);
    EncodeResidue(w, p - 1);
    EncodeResidue(w, n + 1);
    EncodeResidue(w, n - 1);
    Nonlinear.ModSum(n, 1, m);
    Nonlinear.ModSum(p, 1, m);
    Nonlinear.ModMod(n, m, 1);
  }

  predicate Going(t: IntType, counter: Word, stop: Word, inclusive: bool, reverse: bool) {
    Relate(Decode(CompareOpcode(KeepGoing(inclusive, reverse), t)).relation, WidthOf(t), counter.bits, stop.bits)
  }

  lemma Tests(t: IntType, at: int, bound: int, inclusive: bool, reverse: bool)
    requires InRange(t, PB, at) && InRange(t, PB, bound)
    ensures Going(t, Canonical(t, at), Canonical(t, bound), inclusive, reverse) <==>
            Compare(KeepGoing(inclusive, reverse), at, bound)
    ensures Canonical(t, at).bits == Canonical(t, bound).bits <==> at == bound
  {
    CompareCorrect(KeepGoing(inclusive, reverse), t, at, bound);
    ComparesAgree(t, at, bound);
  }

  /** The counter's value before iteration `n`. */
  function Place(first: int, last: int, reverse: bool, n: nat): int {
    if reverse then last - n else first + n
  }

  /** The loop goes on exactly while integers of the interval are left, and an inclusive one ends at its bound. */
  lemma Counting(t: IntType, first: int, last: int, inclusive: bool, reverse: bool, n: nat)
    requires InRange(t, PB, first) && InRange(t, PB, last) && n <= Count(first, last, inclusive)
    ensures var at, bound := Place(first, last, reverse, n), if reverse then first else last;
            && (Compare(KeepGoing(inclusive, reverse), at, bound) <==> n < Count(first, last, inclusive))
            && (n < Count(first, last, inclusive) ==>
                  && InRange(t, PB, at) && InRange(t, PB, Nth(first, last, inclusive, reverse, n))
                  && Nth(first, last, inclusive, reverse, n) == (if reverse && !inclusive then at - 1 else at)
                  && (inclusive ==> (at == bound <==> n + 1 == Count(first, last, inclusive)))
                  && (!inclusive || at != bound ==> InRange(t, PB, Place(first, last, reverse, n + 1))))
  {
    hide MinOf, MaxOf;
  }

  /**
   Execution of the emitted loop over the words of its counter and bound. Each integer of the
   interval is visited once and in order, in canonical form; the loop ends also when the
   inclusive bound is the type's last value, past which the counter would wrap.
   */
  method RunRange(t: IntType, first: int, last: int, inclusive: bool, reverse: bool) returns (visited: seq<Word>)
    requires InRange(t, PB, first) && InRange(t, PB, last)
    ensures |visited| == Count(first, last, inclusive)
    ensures forall i :: 0 <= i < |visited| ==>
              var n := Nth(first, last, inclusive, reverse, i); InRange(t, PB, n) && visited[i] == Canonical(t, n)
  {
    hide Canonical, Going, MinOf, MaxOf, Advance, Size, Pow2, WidthOf, Count, Nth, Compare, KeepGoing, InRange;
    var counter, stop := Canonical(t, if reverse then last else first), Canonical(t, if reverse then first else last);
    ghost var n: nat, bound := 0, if reverse then first else last;
    visited := [];
    Counting(t, first, last, inclusive, reverse, 0);
    Tests(t, Place(first, last, reverse, 0), bound, inclusive, reverse);
    while Going(t, counter, stop, inclusive, reverse)
      invariant n == |visited| <= Count(first, last, inclusive)
      invariant counter == Canonical(t, Place(first, last, reverse, n)) && InRange(t, PB, Place(first, last, reverse, n))
      invariant Going(t, counter, stop, inclusive, reverse) <==> n < Count(first, last, inclusive)
      invariant forall i :: 0 <= i < n ==>
        InRange(t, PB, Nth(first, last, inclusive, reverse, i)) && visited[i] == Canonical(t, Nth(first, last, inclusive, reverse, i))
      decreases Count(first, last, inclusive) - n
    {
      ghost var at := Place(first, last, reverse, n);
      Counting(t, first, last, inclusive, reverse, n);
      Tests(t, at, bound, inclusive, reverse);
      AdvanceCanonical(t, at, true);
      AdvanceCanonical(t, at, reverse);
      visited := visited + [if reverse && !inclusive then Advance(WidthOf(t), counter, true) else counter];
      n := n + 1;
      if inclusive && counter.bits == stop.bits {
        break;
      }
      counter := Advance(WidthOf(t), counter, reverse);
      Counting(t, first, last, inclusive, reverse, n);
      Tests(t, Place(first, last, reverse, n), bound, inclusive, reverse);
    }
  }
}
