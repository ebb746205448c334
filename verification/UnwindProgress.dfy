/**
 What calls on the table of unwind slots achieve: a call goes without a slot only if the table has
 none for it, a call that no other thread disturbs ends and does what it means, and the flag of
 a slot says whether its thread has begun to unwind.
 */
module UnwindProgress {
  import opened Options
  import opened UnwindSlots

  // ----- going without a slot -----

  predicate Searching(s: State, t: Thread) {
    t in s.locals && s.locals[t].Scan?
  }

  /** The thread is about to load slot `k`. */
  predicate Looks(s: State, t: Thread, k: nat) {
    Searching(s, t) && s.locals[t].i == k && k < |s.slots|
  }

  /** When the thread loaded slot `k`, it was not its own; nor free, if `taken`. */
  predicate SawOther(s: State, t: Thread, k: nat, taken: bool) {
    Looks(s, t, k) && s.slots[k].tid != t && (taken ==> s.slots[k].tid != 0)
  }

  ghost predicate Saw(states: seq<State>, t: Thread, start: nat, end: nat, k: nat, taken: bool) {
    exists m :: start <= m < end <= |states| && SawOther(states[m], t, k, taken)
  }

  /** So it was with the first `i` slots. */
  ghost predicate SawAll(states: seq<State>, t: Thread, start: nat, end: nat, i: nat, taken: bool) {
    forall k :: 0 <= k < i ==> Saw(states, t, start, end, k, taken)
  }

  /** From `start` to `n` the thread has been searching for the same call, in one round. */
  ghost predicate OneRound(states: seq<State>, t: Thread, start: nat, n: nat) {
    && start <= n < |states| && Searching(states[start], t) && states[start].locals[t].i == 0
    && (forall m :: start <= m <= n ==> Searching(states[m], t))
    && (forall m, k :: start <= m <= k <= n ==> states[m].locals[t].call == states[k].locals[t].call && states[m].locals[t].i <= states[k].locals[t].i)
  }

  /** What a search has seen since its round began. */
  lemma {:induction false} RoundSaw(states: seq<State>, actions: seq<Action>, n: nat, t: Thread) returns (start: nat)
    requires Run(states, actions) && n < |states| && Searching(states[n], t)
    ensures OneRound(states, t, start, n)
    ensures SawAll(states, t, start, n, states[n].locals[t].i, states[n].locals[t].empty.None?)
  {
    hide Inv, Run, SawAll, OneRound, Bounded, Step;
    RunStart(states, actions);
    RunStep(states, actions, n - 1);
    Reachable(states, actions, n - 1);
    var s, a := states[n - 1], actions[n - 1];
    StepLocals(s, a, states[n]);
    if a.t == t && (a.Make? || s.locals[t].Claim?) {
      start := n;
      RoundBegins(s, a, states[n], t);
      NewRound(states, t, n);
    } else {
      SearchGoesOn(s, a, states[n], t);
      start := RoundSaw(states, actions, n - 1, t);
      RoundGoesOn(states, t, start, n);
    }
  }

  lemma RunStart(states: seq<State>, actions: seq<Action>)
    requires Run(states, actions)
    ensures |states| == |actions| + 1 && forall t :: !Searching(states[0], t)
  {
  }

  lemma RunStep(states: seq<State>, actions: seq<Action>, n: nat)
    requires Run(states, actions) && n < |actions|
    ensures |states| == |actions| + 1 && Next(states[n], actions[n], states[n + 1])
  {
  }

  lemma NewRound(states: seq<State>, t: Thread, n: nat)
    requires n < |states| && Searching(states[n], t) && states[n].locals[t].i == 0
    ensures OneRound(states, t, n, n) && forall taken :: SawAll(states, t, n, n, 0, taken)
  {
  }

  /** The state before: the same search, with one load less or as it is. */
  ghost predicate Continues(s: State, s': State, t: Thread) {
    && Searching(s, t) && Searching(s', t) && s'.locals[t].call == s.locals[t].call
    && (s'.locals[t] == s.locals[t] ||
        (s'.locals[t].i == s.locals[t].i + 1 && SawOther(s, t, s.locals[t].i, s'.locals[t].empty.None?) && (s'.locals[t].empty.None? ==> s.locals[t].empty.None?)))
  }

  /** An action changes where its own thread is. */
  lemma StepLocals(s: State, a: Action, s': State)
    requires Inv(s) && Next(s, a, s')
    ensures a.t in s.locals && a.t in s'.locals && s'.locals == s.locals[a.t := s'.locals[a.t]]
    ensures a.Advance? ==> Bounded(s, a.t) && s' == Step(s, a.t)
  {
    hide Inv;
    if a.Advance? {
      StepKeeps(s, a.t);
      OwnLocal(s, a.t);
    }
  }

  lemma OwnLocal(s: State, t: Thread)
    requires Bounded(s, t)
    ensures t in Step(s, t).locals && Step(s, t).locals == s.locals[t := Step(s, t).locals[t]]
  {
    hide StepUse;
    assert s.locals[t := s.locals[t]] == s.locals;
    if s.locals[t].Use? {
      UseLocal(s, t, s.locals[t].call, s.locals[t].slot);
    }
  }

  lemma PopLocals(s: State, t: Thread, k: nat)
    requires k < |s.slots|
    ensures PopTop(s, t, k).locals == s.locals
  {
  }

  lemma RoundBegins(s: State, a: Action, s': State, t: Thread)
    requires Inv(s) && Next(s, a, s') && Searching(s', t) && a.t == t && (a.Make? || s.locals[t].Claim?)
    ensures s'.locals[t].i == 0
  {
    hide Inv;
    StepLocals(s, a, s');
  }

  lemma SearchGoesOn(s: State, a: Action, s': State, t: Thread)
    requires Inv(s) && Next(s, a, s') && Searching(s', t) && (a.t == t ==> a.Advance? && t in s.locals && !s.locals[t].Claim?)
    ensures Continues(s, s', t)
  {
    hide Inv, Step;
    StepLocals(s, a, s');
    if a.t == t {
      if s.locals[t].Scan? {
        LoadStep(s, t);
      } else {
        AfterUse(s, t);
      }
    }
  }

  /** One load. */
  lemma LoadStep(s: State, t: Thread)
    requires Bounded(s, t) && Searching(s, t) && Searching(Step(s, t), t)
    ensures Continues(s, Step(s, t), t)
  {
  }

  lemma RoundGoesOn(states: seq<State>, t: Thread, start: nat, n: nat)
    requires 0 < n < |states| && OneRound(states, t, start, n - 1) && Continues(states[n - 1], states[n], t)
    requires SawAll(states, t, start, n - 1, states[n - 1].locals[t].i, states[n - 1].locals[t].empty.None?)
    ensures OneRound(states, t, start, n)
    ensures SawAll(states, t, start, n, states[n].locals[t].i, states[n].locals[t].empty.None?)
  {
    var was, l := states[n - 1].locals[t], states[n].locals[t];
    forall k | 0 <= k < l.i
      ensures Saw(states, t, start, n, k, l.empty.None?)
    {
      if k < was.i {
        assert Saw(states, t, start, n - 1, k, was.empty.None?);
        var m :| start <= m < n - 1 && SawOther(states[m], t, k, was.empty.None?);
        assert SawOther(states[m], t, k, l.empty.None?);
      } else {
        assert SawOther(states[n - 1], t, k, l.empty.None?);
      }
    }
  }

  /**
   A call ends without a slot only if, in the last round of its search, the thread saw each of the
   table's slots belong to another thread, or, for a call that would not claim one, not to itself.
   */
  lemma EndsWithoutSlot(states: seq<State>, actions: seq<Action>, n: nat, t: Thread) returns (start: nat)
    requires Run(states, actions) && n < |actions| && actions[n] == Advance(t)
    requires Searching(states[n], t) && t in states[n + 1].locals && states[n + 1].locals[t].Idle?
    ensures OneRound(states, t, start, n)
    ensures forall k :: 0 <= k < SlotCount ==> Saw(states, t, start, n, k, Claims(states[n].locals[t].call))
  {
    hide Inv, OneRound, Saw, Run;
    RunStep(states, actions, n);
    Reachable(states, actions, n);
    StepKeeps(states[n], t);
    var l := states[n].locals[t];
    start := RoundSaw(states, actions, n, t);
    DropsAtEnd(states[n], t);
    if Claims(l.call) {
      assert l.empty.None?;
    } else {
      forall k | 0 <= k < SlotCount
        ensures Saw(states, t, start, n, k, false)
      {
        SawLess(states, t, start, n, k, l.empty.None?);
      }
    }
  }

  lemma DropsAtEnd(s: State, t: Thread)
    requires Searching(s, t) && Bounded(s, t) && Step(s, t).locals[t].Idle? && Inv(s)
    ensures s.locals[t].i == SlotCount && (Claims(s.locals[t].call) ==> s.locals[t].empty.None?)
  {
    assert Placed(s.slots, s.previous, t, s.locals[t]);
  }

  lemma SawLess(states: seq<State>, t: Thread, start: nat, end: nat, k: nat, taken: bool)
    requires Saw(states, t, start, end, k, taken)
    ensures Saw(states, t, start, end, k, false)
  {
    var m :| start <= m < end <= |states| && SawOther(states[m], t, k, taken);
    assert SawOther(states[m], t, k, false);
  }

  // ----- a call that nobody disturbs -----

  /** Steps of one thread alone. */
  ghost function Solo(s: State, t: Thread, k: nat): State {
    if k == 0 then s
    else
      var r := Solo(s, t, k - 1);
      if Bounded(r, t) then Step(r, t) else r
  }

  lemma {:induction false} SoloMore(s: State, t: Thread, a: nat, b: nat)
    ensures Solo(Solo(s, t, a), t, b) == Solo(s, t, a + b)
    decreases b
  {
    hide Step, Bounded;
    if b > 0 {
      SoloMore(s, t, a, b - 1);
    }
  }

  lemma SoloStep(s: State, t: Thread)
    requires Inv(s) && t in s.locals
    ensures Bounded(s, t) && Solo(s, t, 1) == Step(s, t) && Inv(Step(s, t)) && t in Step(s, t).locals
  {
    hide Inv;
    StepKeeps(s, t);
    assert Solo(s, t, 0) == s;
    KeepsThreads(s, t);
  }

  lemma KeepsThreads(s: State, t: Thread)
    requires Bounded(s, t)
    ensures t in Step(s, t).locals
  {
  }

  ghost predicate Free(slots: seq<Slot>) {
    exists k :: 0 <= k < |slots| && slots[k].tid == 0
  }

  /** What a search remembers of the free slots it has passed. */
  predicate Remembers(slots: seq<Slot>, i: nat, empty: Option<nat>) {
    && i <= |slots|
    && (empty.Some? ==> empty.value < i && slots[empty.value].tid == 0)
    && (empty.None? ==> forall j :: 0 <= j < i ==> slots[j].tid != 0)
  }

  /** A search on a table that stays as it is finds the thread's own slot, or ends knowing whether one is free. */
  lemma {:induction false} SoloSearch(s: State, t: Thread) returns (k: nat, l: Local)
    requires Inv(s) && Searching(s, t) && s.locals[t].i <= SlotCount && Remembers(s.slots, s.locals[t].i, s.locals[t].empty)
    ensures Solo(s, t, k) == At(s, t, l) && Inv(At(s, t, l))
    ensures if HasSlot(s.slots, t) then l.Use? && l.call == s.locals[t].call && l.slot < |s.slots| && s.slots[l.slot].tid == t
            else l.Scan? && l.call == s.locals[t].call && l.i == SlotCount && Remembers(s.slots, SlotCount, l.empty)
    decreases SlotCount - s.locals[t].i
  {
    hide Inv, Step, Bounded;
    var was := s.locals[t];
    SearchFacts(s, t);
    if was.i == SlotCount {
      k, l := 0, was;
      assert At(s, t, was) == s;
    } else {
      SoloStep(s, t);
      Loads(s, t);
      var s1 := Step(s, t);
      if s.slots[was.i].tid == t {
        k, l := 1, Use(was.call, was.i);
        assert HasSlot(s.slots, t);
      } else {
        assert s1 == At(s, t, s1.locals[t]) && s1.slots == s.slots;
        k, l := SoloSearch(s1, t);
        SoloMore(s, t, 1, k);
        k := k + 1;
        assert At(s1, t, l) == At(s, t, l);
      }
    }
  }

  lemma Loads(s: State, t: Thread)
    requires Bounded(s, t) && Searching(s, t) && s.locals[t].i < SlotCount
    ensures var l := s.locals[t];
            var seen := s.slots[l.i].tid;
            Step(s, t) == At(s, t, if seen == t then Use(l.call, l.i)
                                   else Scan(l.call, l.i + 1, if seen == 0 && l.empty.None? then Some(l.i) else l.empty))
  {
  }

  lemma SearchFacts(s: State, t: Thread)
    requires Inv(s) && Searching(s, t)
    ensures |s.slots| == SlotCount && t != 0 && (s.locals[t].i == SlotCount ==> !HasSlot(s.slots, t))
  {
    assert Placed(s.slots, s.previous, t, s.locals[t]);
  }

  /** Whether the thread has begun to unwind, as its slot says. */
  ghost predicate Unwinding(s: State, t: Thread) {
    exists k :: 0 <= k < |s.slots| && s.slots[k].tid == t && s.slots[k].unwinding
  }

  /** What a call is for. */
  function Intended(frames: seq<Frame>, call: Call, unwinding: bool): seq<Frame> {
    match call
    case Link(f) => frames + [f]
    case Unlink(f) => if frames != [] && frames[|frames| - 1] == f then frames[..|frames| - 1] else frames
    case Begin => if frames != [] && !unwinding then frames[..|frames| - 1] else frames
    case Continue => if frames != [] then frames[..|frames| - 1] else frames
  }

  /** With a slot at hand a call does what it is for. */
  lemma SoloUse(s: State, t: Thread) returns (k: nat)
    requires Inv(s) && t in s.locals && s.locals[t].Use?
    ensures var l, r := s.locals[t], Solo(s, t, k);
            && t in r.locals && r.locals[t].Idle?
            && r.linked == s.linked[t := Intended(s.linked[t], l.call, Unwinding(s, t))]
            && (HasSlot(r.slots, t) <==> !GivesUp(s.linked[t], l.call, Unwinding(s, t)))
  {
    hide Inv, Step, Bounded, HasSlot;
    var l := s.locals[t];
    SoloStep(s, t);
    var s1 := Step(s, t);
    LinkedMeans(s, t);
    OwnFlag(s, t);
    AfterUse(s, t);
    UseReleases(s, t);
    if s1.locals[t].Idle? {
      k := 1;
    } else {
      SoloStep(s1, t);
      AfterSlot(s1, t);
      LinkedMeans(s1, t);
      AfterUse(s1, t);
      SoloMore(s, t, 1, 1);
      k := 2;
      assert s1.linked[t := s1.linked[t]] == s1.linked;
    }
  }

  /** Unlinking the last frame gives the slot back, unless the thread is unwinding. */
  predicate GivesUp(frames: seq<Frame>, call: Call, unwinding: bool) {
    call.Unlink? && frames == [call.frame] && !unwinding
  }

  lemma UseReleases(s: State, t: Thread)
    requires Inv(s) && t in s.locals && Bounded(s, t) && s.locals[t].Use?
    ensures t in Step(s, t).locals && HasSlot(Step(s, t).slots, t)
    ensures Step(s, t).locals[t].Release? <==> GivesUp(s.linked[t], s.locals[t].call, s.slots[s.locals[t].slot].unwinding)
  {
    hide StepUse, PopTop, Inv;
    var l := s.locals[t];
    InvLinked(s, t);
    UseSlot(s, t);
    assert Step(s, t).slots[l.slot].tid == t;
    UseLocal(s, t, l.call, l.slot);
    PopsLast(s, t);
  }

  lemma InvLinked(s: State, t: Thread)
    requires Inv(s) && t in s.locals
    ensures t in s.linked
  {
  }

  /** The list of a used slot is empty after its only frame. */
  lemma PopsLast(s: State, t: Thread)
    requires Inv(s) && t in s.locals && Bounded(s, t) && s.locals[t].Use?
    ensures var k, frames := s.locals[t].slot, s.linked[t];
            && (frames == [] <==> s.slots[k].top.None?) && (frames != [] ==> s.slots[k].top == Some(frames[|frames| - 1]))
            && (frames != [] ==> (PopTop(s, t, k).slots[k].top.None? <==> |frames| == 1))
  {
    var k := s.locals[t].slot;
    assert Placed(s.slots, s.previous, t, s.locals[t]);
    assert SlotMatches(s.slots[k], s.previous, s.linked);
    ListTop(s.previous, s.slots[k].top, s.linked[t]);
  }

  lemma ListTop(previous: map<Frame, Option<Frame>>, top: Option<Frame>, frames: seq<Frame>)
    requires ListOf(previous, top, frames)
    ensures frames == [] <==> top == None
    ensures frames != [] ==> top == Some(frames[|frames| - 1]) && top.value in previous && (previous[top.value] == None <==> |frames| == 1)
  {
    if frames != [] {
      var rest := frames[..|frames| - 1];
      assert ListOf(previous, previous[top.value], rest);
    }
  }

  /** Linking keeps the slot, releasing frees it. */
  lemma AfterSlot(s: State, t: Thread)
    requires Inv(s) && t in s.locals && Bounded(s, t) && (s.locals[t].Chained? || s.locals[t].Release?)
    ensures HasSlot(Step(s, t).slots, t) <==> s.locals[t].Chained?
  {
    var l := s.locals[t];
    assert Placed(s.slots, s.previous, t, l);
    if l.Chained? {
      assert Step(s, t).slots[l.slot].tid == t;
    }
  }

  lemma OwnFlag(s: State, t: Thread)
    requires Inv(s) && t in s.locals && s.locals[t].Use?
    ensures s.locals[t].slot < |s.slots| && (s.slots[s.locals[t].slot].unwinding <==> Unwinding(s, t)) && t in s.linked
  {
    assert Placed(s.slots, s.previous, t, s.locals[t]);
  }

  /** Where using a slot leads. */
  lemma AfterUse(s: State, t: Thread)
    requires t in s.locals && Bounded(s, t)
    ensures t in Step(s, t).locals
    ensures var l, l1 := s.locals[t], Step(s, t).locals[t];
            && (l.Idle? ==> l1.Idle?)
            && (l.Use? && l.call.Link? ==> l1.Chained? && l1.frame == l.call.frame)
            && (l.Use? && !l.call.Link? ==> l1.Idle? || l1.Release?)
            && (l.Chained? || l.Release? ==> l1.Idle?)
  {
    hide StepUse, StepScan, StepClaim;
    var l := s.locals[t];
    if l.Use? {
      UseLocal(s, t, l.call, l.slot);
    } else if l.Scan? || l.Claim? {
      OwnLocal(s, t);
    }
  }

  lemma UseLocal(s: State, t: Thread, call: Call, k: nat)
    requires t in s.locals && k < |s.slots|
    ensures var s' := StepUse(s, t, call, k);
            && t in s'.locals && s'.locals == s.locals[t := s'.locals[t]]
            && (call.Link? ==> s'.locals[t].Chained? && s'.locals[t].frame == call.frame)
            && (!call.Link? ==> s'.locals[t].Idle? || s'.locals[t].Release?)
            && (s'.locals[t].Release? <==> call.Unlink? && s.slots[k].top == Some(call.frame) && PopTop(s, t, k).slots[k].top.None? && !s.slots[k].unwinding)
  {
    hide PopTop;
    PopLocals(s, t, k);
    PopLocals(s.(slots := s.slots[k := s.slots[k].(unwinding := true)]), t, k);
  }

  /**
   A call that no other thread disturbs ends, and does what it is for, unless it is to link a
   frame, the thread has no slot and none is free; then it changes nothing. The thread keeps its
   slot until it unlinks its last frame, and takes a free one only to link or to begin unwinding.
   */
  lemma SoloCall(s: State, t: Thread, call: Call) returns (k: nat)
    requires Inv(s) && MayCall(s, t, call)
    ensures var r := Solo(Called(s, t, call), t, k);
            && t in r.locals && r.locals[t].Idle?
            && r.linked == (if call.Link? && !HasSlot(s.slots, t) && !Free(s.slots) then s.linked
                            else s.linked[t := Intended(s.linked[t], call, Unwinding(s, t))])
            && (HasSlot(r.slots, t) <==>
                if HasSlot(s.slots, t) then !GivesUp(s.linked[t], call, Unwinding(s, t)) else Claims(call) && Free(s.slots))
  {
    hide Inv, Step, Bounded, HasSlot;
    CallKeeps(s, t, call);
    var s0 := Called(s, t, call);
    var a, l := SoloSearch(s0, t);
    var s1 := At(s0, t, l);
    var b: nat;
    if HasSlot(s.slots, t) {
      b := SoloUse(s1, t);
      SameFlag(s, s1, t);
    } else {
      b := SoloWithout(s, s1, t);
    }
    SoloMore(s0, t, a, b);
    k := a + b;
  }

  lemma SameFlag(s: State, s': State, t: Thread)
    requires s'.slots == s.slots
    ensures Unwinding(s', t) <==> Unwinding(s, t)
  {
  }

  /** The end of a search that has not found a slot of the thread's own. */
  lemma SoloWithout(s: State, s1: State, t: Thread) returns (b: nat)
    requires Inv(s1) && Searching(s1, t) && s1.locals[t].i == SlotCount && Remembers(s1.slots, SlotCount, s1.locals[t].empty)
    requires s.slots == s1.slots && s.linked == s1.linked && !HasSlot(s.slots, t)
    ensures var r, call := Solo(s1, t, b), s1.locals[t].call;
            && t in r.locals && r.locals[t].Idle? && t in s.linked
            && r.linked == (if call.Link? && !Free(s.slots) then s.linked
                            else s.linked[t := Intended(s.linked[t], call, Unwinding(s, t))])
            && (HasSlot(r.slots, t) <==> Claims(call) && Free(s.slots))
  {
    hide Inv, Step, Bounded, HasSlot;
    var l := s1.locals[t];
    SearchFacts(s1, t);
    NoFrames(s1, t);
    SoloStep(s1, t);
    var s2 := Step(s1, t);
    SearchEnds(s1, t);
    assert s.linked[t := s.linked[t]] == s.linked;
    if s2.locals[t].Idle? {
      b := 1;
      assert l.empty.None? && Claims(l.call) ==> !Free(s.slots);
    } else {
      SoloStep(s2, t);
      var s3 := Step(s2, t);
      ClaimTakes(s2, t);
      var c := SoloUse(s3, t);
      assert Free(s.slots) by { assert s.slots[l.empty.value].tid == 0; }
      SoloMore(s1, t, 1, 1);
      SoloMore(s1, t, 2, c);
      b := 2 + c;
    }
  }

  lemma NoFrames(s: State, t: Thread)
    requires Inv(s) && t in s.locals && !HasSlot(s.slots, t)
    ensures t in s.linked && s.linked[t] == [] && !Unwinding(s, t)
  {
  }

  lemma SearchEnds(s: State, t: Thread)
    requires Inv(s) && Searching(s, t) && Bounded(s, t) && s.locals[t].i == SlotCount
    ensures var l, s' := s.locals[t], Step(s, t);
            && s'.slots == s.slots && s'.linked == s.linked
            && s'.locals[t] == if Claims(l.call) && l.empty.Some? then Claim(l.call, l.empty.value) else Idle
  {
  }

  /** Claiming a slot that is still free. */
  lemma ClaimTakes(s: State, t: Thread)
    requires Inv(s) && t in s.locals && Bounded(s, t) && s.locals[t].Claim? && s.slots[s.locals[t].free].tid == 0
    ensures var l, s' := s.locals[t], Step(s, t);
            && s'.linked == s.linked && s'.locals[t] == Use(l.call, l.free) && s'.slots == s.slots[l.free := s.slots[l.free].(tid := t)]
            && (Unwinding(s', t) ==> Unwinding(s, t))
  {
  }

  // ----- the flag -----

  /** The thread begins to unwind, with a frame to go to. */
  predicate Begins(s: State, a: Action, t: Thread) {
    a == Advance(t) && t in s.locals && t in s.linked && s.locals[t].Use? && s.locals[t].call.Begin? && s.linked[t] != []
  }

  ghost predicate Begun(states: seq<State>, actions: seq<Action>, n: nat, t: Thread) {
    exists m :: 0 <= m < n && m < |states| && m < |actions| && Begins(states[m], actions[m], t)
  }

  /** In every state of every run a thread's slot is flagged exactly if the thread has begun to unwind. */
  lemma {:induction false} FlagMeansBegun(states: seq<State>, actions: seq<Action>, n: nat, t: Thread)
    requires Run(states, actions) && n < |states| && t in states[n].locals
    ensures Unwinding(states[n], t) <==> Begun(states, actions, n, t)
  {
    hide Inv, Step, Bounded;
    if n == 0 {
      NoFlag(states, actions, t);
    } else {
      RunStep(states, actions, n - 1);
      Reachable(states, actions, n - 1);
      var s, a := states[n - 1], actions[n - 1];
      SameThreads(s, a, states[n]);
      FlagMeansBegun(states, actions, n - 1, t);
      FlagStep(s, a, states[n], t);
      BegunStep(states, actions, n, t);
    }
  }

  lemma NoFlag(states: seq<State>, actions: seq<Action>, t: Thread)
    requires Run(states, actions)
    ensures !Unwinding(states[0], t)
  {
  }

  lemma BegunStep(states: seq<State>, actions: seq<Action>, n: nat, t: Thread)
    requires 0 < n < |states| && n <= |actions|
    ensures Begun(states, actions, n, t) <==> Begun(states, actions, n - 1, t) || Begins(states[n - 1], actions[n - 1], t)
  {
    if Begun(states, actions, n, t) {
      var m :| 0 <= m < n && m < |states| && m < |actions| && Begins(states[m], actions[m], t);
    }
  }

  lemma SameThreads(s: State, a: Action, s': State)
    requires Inv(s) && Next(s, a, s')
    ensures s'.locals.Keys == s.locals.Keys
  {
    hide Inv, Step;
    StepLocals(s, a, s');
  }

  lemma FlagStep(s: State, a: Action, s': State, t: Thread)
    requires Inv(s) && Next(s, a, s') && t in s.locals
    ensures Unwinding(s', t) <==> Unwinding(s, t) || Begins(s, a, t)
  {
    hide Inv, Step, Bounded;
    if a.Make? {
      SameFlag(s, s', t);
    } else {
      StepKeeps(s, a.t);
      SlotStep(s, a.t);
      var k := SlotOf(s, a.t);
      FlagChange(s, s', a.t, t, k);
    }
  }

  /** The slot a step may change. */
  ghost function SlotOf(s: State, u: Thread): nat
    requires u in s.locals
  {
    match s.locals[u]
    case Claim(_, e) => e
    case Use(_, k) => k
    case Chained(_, k) => k
    case Release(k) => k
    case _ => 0
  }

  /** A step changes at most one slot, which is free or the thread's own, and flags it only to begin unwinding. */
  lemma SlotStep(s: State, u: Thread)
    requires Inv(s) && u in s.locals && Bounded(s, u)
    ensures var s', k := Step(s, u), SlotOf(s, u);
            && u != 0 && |s'.slots| == |s.slots| == SlotCount && k < SlotCount && s'.slots == s.slots[k := s'.slots[k]]
            && (s'.slots == s.slots || s.slots[k].tid == u || s.slots[k].tid == 0)
            && (s'.slots == s.slots || s'.slots[k].tid == u || s'.slots[k].tid == 0)
            && (s.slots[k].tid == 0 && s'.slots[k].tid == u ==> s'.slots[k].unwinding == s.slots[k].unwinding)
            && (s.slots[k].tid == u && s.locals[u].Release? ==> !s.slots[k].unwinding)
            && (s.slots[k].tid == u && !s.locals[u].Release? ==> s'.slots[k].tid == u)
            && (s.slots[k].tid == u && s'.slots[k].tid == u ==>
                  (s'.slots[k].unwinding <==> s.slots[k].unwinding || (s.slots[k].tid == u && Begins(s, Advance(u), u))))
            && (Begins(s, Advance(u), u) ==> s.slots[k].tid == u && s'.slots[k].tid == u && s'.slots[k].unwinding)
            && 0 !in s.locals
            && (forall j :: 0 <= j < SlotCount && s.slots[j].tid == 0 ==> !s.slots[j].unwinding)
            && (forall i, j :: 0 <= i < j < SlotCount && s.slots[i].tid == s.slots[j].tid ==> s.slots[i].tid == 0)
  {
    var l := s.locals[u];
    assert Placed(s.slots, s.previous, u, l);
    if l.Use? {
      UseSlot(s, u);
    }
  }

  lemma UseSlot(s: State, u: Thread)
    requires Inv(s) && u in s.locals && Bounded(s, u) && s.locals[u].Use?
    ensures var s', k := Step(s, u), s.locals[u].slot;
            && k < |s.slots| && s.slots[k].tid == u && |s'.slots| == |s.slots| && s'.slots == s.slots[k := s'.slots[k]] && s'.slots[k].tid == u
            && (s'.slots[k].unwinding <==> s.slots[k].unwinding || Begins(s, Advance(u), u))
  {
    var l := s.locals[u];
    assert Placed(s.slots, s.previous, u, l);
    assert SlotMatches(s.slots[l.slot], s.previous, s.linked);
  }

  lemma FlagChange(s: State, s': State, u: Thread, t: Thread, k: nat)
    requires t in s.locals && u in s.locals && Bounded(s, u) && Inv(s) && s' == Step(s, u) && k == SlotOf(s, u)
    ensures Unwinding(s', t) <==> Unwinding(s, t) || (t == u && Begins(s, Advance(u), u))
  {
    hide Inv, Step, Bounded, Begins;
    SlotStep(s, u);
    if Unwinding(s, t) {
      var j :| 0 <= j < |s.slots| && s.slots[j].tid == t && s.slots[j].unwinding;
      assert s'.slots[j].tid == t && s'.slots[j].unwinding;
    } else if t == u && Begins(s, Advance(u), u) {
      assert s'.slots[k].tid == t && s'.slots[k].unwinding;
    } else {
      assert forall j :: 0 <= j < |s'.slots| && j != k ==> s'.slots[j] == s.slots[j];
    }
  }

  /** The record of linked frames is that of the calls: nothing in the table decides it. */
  lemma LinkedByCalls(states: seq<State>, actions: seq<Action>, n: nat, t: Thread)
    requires Run(states, actions) && n < |actions| && actions[n] == Advance(t)
    ensures var s := states[n];
            && t in s.locals && t in s.linked
            && states[n + 1].linked == s.linked[t := Meant(s.linked[t], s.locals[t], Begun(states, actions, n, t))]
  {
    hide Inv, Step;
    RunStep(states, actions, n);
    Reachable(states, actions, n);
    var s := states[n];
    LinkedMeans(s, t);
    FlagMeansBegun(states, actions, n, t);
    if s.locals[t].Use? {
      OwnFlag(s, t);
    }
  }
}
