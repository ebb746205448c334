/**
 The runtime's table of unwind slots, shared by all threads without locks.

 A run interleaves the threads' steps: each atomic load and each compare-and-swap is a step of
 its own, as is each later access to memory that other threads might see. `linked` records what
 the calls mean: the frames a thread has linked and not yet unlinked or unwound to.
 */
module UnwindSlots {
  import opened Options

  type Frame = nat
  type Thread = nat

  const SlotCount: nat := 64

  datatype Slot = Slot(tid: Thread, top: Option<Frame>, unwinding: bool)

  datatype Call = Link(frame: Frame) | Unlink(frame: Frame) | Begin | Continue

  /** Where a thread is: between calls, looking for a slot, or using the slot it has. */
  datatype Local =
    | Idle
    | Scan(call: Call, i: nat, empty: Option<nat>)
    | Claim(call: Call, free: nat)
    | Use(call: Call, slot: nat)
    | Chained(frame: Frame, slot: nat)
    | Release(slot: nat)

  /** `owner` names the thread that has linked, or is linking, a frame. */
  datatype State = State(
    slots: seq<Slot>,
    previous: map<Frame, Option<Frame>>,
    locals: map<Thread, Local>,
    linked: map<Thread, seq<Frame>>,
    owner: map<Frame, Thread>)

  predicate Claims(call: Call) {
    call.Link? || call.Begin?
  }

  // ----- steps -----

  function At(s: State, t: Thread, l: Local): State {
    s.(locals := s.locals[t := l])
  }

  /** One load of the search; a whole round without the thread's own id ends in a claim or without a slot. */
  function StepScan(s: State, t: Thread, call: Call, i: nat, empty: Option<nat>): State
    requires |s.slots| == SlotCount
  {
    if i < SlotCount then
      var seen := s.slots[i].tid;
      if seen == t then At(s, t, Use(call, i))
      else At(s, t, Scan(call, i + 1, if seen == 0 && empty.None? then Some(i) else empty))
    else if Claims(call) && empty.Some? then At(s, t, Claim(call, empty.value))
    else Drop(At(s, t, Idle), call)
  }

  /** A call that ends without a slot; a frame that could not be linked stays free. */
  function Drop(s: State, call: Call): State {
    if call.Link? then s.(owner := s.owner - {call.frame}) else s
  }

  function StepClaim(s: State, t: Thread, call: Call, e: nat): State
    requires e < |s.slots|
  {
    if s.slots[e].tid == 0 then At(s.(slots := s.slots[e := s.slots[e].(tid := t)]), t, Use(call, e))
    else At(s, t, Scan(call, 0, None))
  }

  /** Takes the top frame off the slot's list. */
  function PopTop(s: State, t: Thread, k: nat): (s': State)
    requires k < |s.slots|
    ensures |s'.slots| == |s.slots|
  {
    var top := s.slots[k].top;
    if top.Some? && top.value in s.previous && t in s.linked && s.linked[t] != [] then
      s.(slots := s.slots[k := s.slots[k].(top := s.previous[top.value])],
         linked := s.linked[t := s.linked[t][..|s.linked[t]| - 1]],
         owner := s.owner - {top.value})
    else s
  }

  function StepUse(s: State, t: Thread, call: Call, k: nat): State
    requires k < |s.slots|
  {
    var slot := s.slots[k];
    match call
    case Link(f) => At(s.(previous := s.previous[f := slot.top]), t, Chained(f, k))
    case Unlink(f) =>
      if slot.top != Some(f) then At(s, t, Idle)
      else
        var s' := PopTop(s, t, k);
        if s'.slots[k].top.None? && !slot.unwinding then At(s', t, Release(k)) else At(s', t, Idle)
    case Begin =>
      if slot.unwinding || slot.top.None? then At(s, t, Idle)
      else At(PopTop(s.(slots := s.slots[k := slot.(unwinding := true)]), t, k), t, Idle)
    case Continue => At(PopTop(s, t, k), t, Idle)
  }

  /** Slot numbers are within the table; `Inv` includes this, so that no step reads outside it. */
  predicate Bounded(s: State, t: Thread) {
    && |s.slots| == SlotCount && t in s.locals && t in s.linked
    && match s.locals[t]
       case Claim(_, e) => e < SlotCount
       case Use(_, k) => k < SlotCount
       case Chained(_, k) => k < SlotCount
       case Release(k) => k < SlotCount
       case _ => true
  }

  function Step(s: State, t: Thread): State
    requires Bounded(s, t)
  {
    match s.locals[t]
    case Idle => s
    case Scan(call, i, empty) => StepScan(s, t, call, i, empty)
    case Claim(call, e) => StepClaim(s, t, call, e)
    case Use(call, k) => StepUse(s, t, call, k)
    case Chained(f, k) =>
      At(s.(slots := s.slots[k := s.slots[k].(top := Some(f))], linked := s.linked[t := s.linked[t] + [f]]), t, Idle)
    case Release(k) => At(s.(slots := s.slots[k := s.slots[k].(tid := 0)]), t, Idle)
  }

  /** A thread between calls makes one. A frame is linked only while no thread uses it. */
  predicate MayCall(s: State, t: Thread, call: Call) {
    t in s.locals && s.locals[t].Idle? && (call.Link? ==> call.frame !in s.owner)
  }

  function Called(s: State, t: Thread, call: Call): State {
    At(if call.Link? then s.(owner := s.owner[call.frame := t]) else s, t, Scan(call, 0, None))
  }

  // ----- the invariant -----

  /** The list from `top` holds exactly these frames, the last one first. */
  predicate ListOf(previous: map<Frame, Option<Frame>>, top: Option<Frame>, frames: seq<Frame>)
    decreases |frames|
  {
    if frames == [] then top == None
    else
      var last := frames[|frames| - 1];
      top == Some(last) && last in previous && ListOf(previous, previous[last], frames[..|frames| - 1])
  }

  predicate Distinct(frames: seq<Frame>) {
    forall i, j :: 0 <= i < j < |frames| ==> frames[i] != frames[j]
  }

  predicate Absent(slots: seq<Slot>, t: Thread, n: nat) {
    forall j :: 0 <= j < n && j < |slots| ==> slots[j].tid != t
  }

  predicate Placed(slots: seq<Slot>, previous: map<Frame, Option<Frame>>, t: Thread, l: Local)
    requires |slots| == SlotCount
  {
    match l
    case Idle => true
    case Scan(_, i, empty) => i <= SlotCount && Absent(slots, t, i) && (empty.Some? ==> empty.value < SlotCount)
    case Claim(_, e) => e < SlotCount && Absent(slots, t, SlotCount)
    case Use(_, k) => k < SlotCount && slots[k].tid == t
    case Chained(f, k) => k < SlotCount && slots[k].tid == t && f in previous && previous[f] == slots[k].top
    case Release(k) => k < SlotCount && slots[k].tid == t && slots[k].top.None? && !slots[k].unwinding
  }

  predicate AllPlaced(slots: seq<Slot>, previous: map<Frame, Option<Frame>>, locals: map<Thread, Local>)
    requires |slots| == SlotCount
  {
    forall t :: t in locals ==> Placed(slots, previous, t, locals[t])
  }

  predicate HasSlot(slots: seq<Slot>, t: Thread) {
    exists k :: 0 <= k < |slots| && slots[k].tid == t
  }

  /** No two slots carry the id of the same thread, and free slots are empty. */
  predicate SlotsDisjoint(slots: seq<Slot>) {
    && |slots| == SlotCount
    && (forall i, j :: 0 <= i < j < |slots| && slots[i].tid == slots[j].tid ==> slots[i].tid == 0)
    && (forall k :: 0 <= k < |slots| && slots[k].tid == 0 ==> slots[k].top.None? && !slots[k].unwinding)
  }

  predicate SlotMatches(slot: Slot, previous: map<Frame, Option<Frame>>, linked: map<Thread, seq<Frame>>) {
    slot.tid != 0 ==> slot.tid in linked && ListOf(previous, slot.top, linked[slot.tid])
  }

  /** Every slot's list is its owner's linked frames, and only owners of slots have any. */
  predicate ListsMatch(slots: seq<Slot>, previous: map<Frame, Option<Frame>>, linked: map<Thread, seq<Frame>>) {
    && (forall k :: 0 <= k < |slots| ==> SlotMatches(slots[k], previous, linked))
    && (forall t :: t in linked && linked[t] != [] ==> HasSlot(slots, t))
  }

  predicate Owns(owner: map<Frame, Thread>, t: Thread, frames: seq<Frame>) {
    Distinct(frames) && forall i :: 0 <= i < |frames| ==> frames[i] in owner && owner[frames[i]] == t
  }

  predicate Linking(l: Local) {
    ((l.Scan? || l.Claim? || l.Use?) && l.call.Link?) || l.Chained?
  }

  function LinkingFrame(l: Local): Frame
    requires Linking(l)
  {
    if l.Chained? then l.frame else l.call.frame
  }

  predicate MayLink(owner: map<Frame, Thread>, t: Thread, frames: seq<Frame>, l: Local) {
    Linking(l) ==>
      var f := LinkingFrame(l);
      f in owner && owner[f] == t && f !in frames
  }

  /** Frames belong to one thread, which has linked them once or is about to. */
  predicate FramesOwned(locals: map<Thread, Local>, linked: map<Thread, seq<Frame>>, owner: map<Frame, Thread>) {
    && locals.Keys == linked.Keys && 0 !in locals
    && forall t :: t in locals ==> Owns(owner, t, linked[t]) && MayLink(owner, t, linked[t], locals[t])
  }

  predicate Inv(s: State) {
    && SlotsDisjoint(s.slots) && ListsMatch(s.slots, s.previous, s.linked)
    && FramesOwned(s.locals, s.linked, s.owner) && AllPlaced(s.slots, s.previous, s.locals)
  }

  predicate Init(s: State) {
    && |s.slots| == SlotCount && (forall k :: 0 <= k < |s.slots| ==> s.slots[k] == Slot(0, None, false))
    && s.locals.Keys == s.linked.Keys && 0 !in s.locals && s.owner == map[]
    && (forall t :: t in s.locals ==> s.locals[t] == Idle)
    && (forall t :: t in s.linked ==> s.linked[t] == [])
  }

  lemma InitInv(s: State)
    requires Init(s)
    ensures Inv(s)
  {
  }

  // ----- each part of the invariant under changes of one thread -----

  lemma {:induction false} ListFrame(previous: map<Frame, Option<Frame>>, top: Option<Frame>, frames: seq<Frame>, f: Frame, value: Option<Frame>)
    requires ListOf(previous, top, frames) && f !in frames
    ensures ListOf(previous[f := value], top, frames)
    decreases |frames|
  {
    if frames != [] {
      var last := frames[|frames| - 1];
      assert last in frames;
      ListFrame(previous, previous[last], frames[..|frames| - 1], f, value);
    }
  }

  /** Other threads stay placed when `t` changes its own slot, or one that is free, and frames of its own. */
  lemma OthersPlaced(s: State, t: Thread, k: nat, slot: Slot, previous: map<Frame, Option<Frame>>, l: Local)
    requires SlotsDisjoint(s.slots) && FramesOwned(s.locals, s.linked, s.owner) && AllPlaced(s.slots, s.previous, s.locals)
    requires t in s.locals && k < SlotCount
    requires (s.slots[k].tid == 0 || s.slots[k].tid == t) && (slot.tid == 0 || slot.tid == t)
    requires forall f :: f in s.previous && f in s.owner && s.owner[f] != t ==> f in previous && previous[f] == s.previous[f]
    requires Placed(s.slots[k := slot], previous, t, l)
    ensures AllPlaced(s.slots[k := slot], previous, s.locals[t := l])
  {
    forall u | u in s.locals && u != t
      ensures Placed(s.slots[k := slot], previous, u, s.locals[u])
    {
      assert Placed(s.slots, s.previous, u, s.locals[u]) && MayLink(s.owner, u, s.linked[u], s.locals[u]);
    }
  }

  /** Changing a slot's state, not its list. */
  lemma SameLists(s: State, k: nat, slot: Slot)
    requires ListsMatch(s.slots, s.previous, s.linked) && k < |s.slots|
    requires SlotMatches(slot, s.previous, s.linked)
    requires slot.tid == s.slots[k].tid || s.slots[k].tid == 0 || (s.slots[k].tid in s.linked && s.linked[s.slots[k].tid] == [])
    requires 0 !in s.linked
    ensures ListsMatch(s.slots[k := slot], s.previous, s.linked)
  {
    forall t | t in s.linked && s.linked[t] != []
      ensures HasSlot(s.slots[k := slot], t)
    {
      var j :| 0 <= j < |s.slots| && s.slots[j].tid == t;
      assert s.slots[k := slot][j].tid == t;
    }
  }

  /** Changing the list of the slot that `t` owns. */
  lemma OwnList(slots: seq<Slot>, previous: map<Frame, Option<Frame>>, linked: map<Thread, seq<Frame>>, t: Thread, k: nat, slot: Slot, frames: seq<Frame>)
    requires SlotsDisjoint(slots) && ListsMatch(slots, previous, linked) && k < |slots| && t != 0
    requires slots[k].tid == t == slot.tid && ListOf(previous, slot.top, frames)
    ensures ListsMatch(slots[k := slot], previous, linked[t := frames])
  {
    var slots', linked' := slots[k := slot], linked[t := frames];
    forall j | 0 <= j < |slots'|
      ensures SlotMatches(slots'[j], previous, linked')
    {
      assert SlotMatches(slots[j], previous, linked);
    }
    forall u | u in linked' && linked'[u] != []
      ensures HasSlot(slots', u)
    {
      if u == t {
        assert slots'[k].tid == t;
      } else {
        var j :| 0 <= j < |slots| && slots[j].tid == u;
        assert slots'[j].tid == u;
      }
    }
  }

  /** Writing the link of a frame that is in no list. */
  lemma FreshLink(s: State, f: Frame, value: Option<Frame>)
    requires ListsMatch(s.slots, s.previous, s.linked)
    requires forall t :: t in s.linked ==> f !in s.linked[t]
    ensures ListsMatch(s.slots, s.previous[f := value], s.linked)
  {
    forall k | 0 <= k < |s.slots|
      ensures SlotMatches(s.slots[k], s.previous[f := value], s.linked)
    {
      assert SlotMatches(s.slots[k], s.previous, s.linked);
      if s.slots[k].tid != 0 {
        ListFrame(s.previous, s.slots[k].top, s.linked[s.slots[k].tid], f, value);
      }
    }
  }

  /** A frame that `t` is linking is in no list. */
  lemma PendingUnlinked(s: State, t: Thread)
    requires FramesOwned(s.locals, s.linked, s.owner) && t in s.locals && Linking(s.locals[t])
    ensures forall u :: u in s.linked ==> LinkingFrame(s.locals[t]) !in s.linked[u]
  {
    var f := LinkingFrame(s.locals[t]);
    assert MayLink(s.owner, t, s.linked[t], s.locals[t]);
    forall u | u in s.linked
      ensures f !in s.linked[u]
    {
      assert Owns(s.owner, u, s.linked[u]);
    }
  }

  /** A thread that goes on with the frame it was linking, or with none. */
  lemma SameOwners(s: State, t: Thread, l: Local)
    requires FramesOwned(s.locals, s.linked, s.owner) && t in s.locals
    requires Linking(l) ==> Linking(s.locals[t]) && LinkingFrame(l) == LinkingFrame(s.locals[t])
    ensures FramesOwned(s.locals[t := l], s.linked, s.owner)
  {
    assert MayLink(s.owner, t, s.linked[t], s.locals[t]);
  }

  /** Giving up a frame that is in no list. */
  lemma DropOwner(s: State, t: Thread, f: Frame, l: Local)
    requires FramesOwned(s.locals, s.linked, s.owner) && t in s.locals && !Linking(l)
    requires f in s.owner ==> s.owner[f] == t
    requires f !in s.linked[t]
    ensures FramesOwned(s.locals[t := l], s.linked, s.owner - {f})
  {
    forall u | u in s.locals
      ensures Owns(s.owner - {f}, u, s.linked[u]) && MayLink(s.owner - {f}, u, s.linked[u], s.locals[t := l][u])
    {
      assert Owns(s.owner, u, s.linked[u]) && MayLink(s.owner, u, s.linked[u], s.locals[u]);
    }
  }

  // ----- every step keeps the invariant -----

  lemma CallKeeps(s: State, t: Thread, call: Call)
    requires Inv(s) && MayCall(s, t, call)
    ensures Inv(Called(s, t, call))
  {
    var s' := Called(s, t, call);
    forall u | u in s'.locals
      ensures Owns(s'.owner, u, s'.linked[u]) && MayLink(s'.owner, u, s'.linked[u], s'.locals[u])
    {
      assert Owns(s.owner, u, s.linked[u]) && MayLink(s.owner, u, s.linked[u], s.locals[u]);
    }
  }

  lemma ScanKeeps(s: State, t: Thread)
    requires Inv(s) && t in s.locals && s.locals[t].Scan?
    ensures Inv(Step(s, t))
  {
    hide ListsMatch;
    var s', l := Step(s, t), s.locals[t];
    assert Placed(s.slots, s.previous, t, l);
    if s'.owner == s.owner {
      ScanOwners(s, t);
    } else {
      GiveUp(s, t, l.call.frame);
    }
  }

  lemma ScanOwners(s: State, t: Thread)
    requires |s.slots| == SlotCount && FramesOwned(s.locals, s.linked, s.owner) && t in s.locals && s.locals[t].Scan?
    ensures var s' := Step(s, t); s'.owner == s.owner ==> FramesOwned(s'.locals, s'.linked, s'.owner)
  {
    SameOwners(s, t, Step(s, t).locals[t]);
  }

  lemma GiveUp(s: State, t: Thread, f: Frame)
    requires FramesOwned(s.locals, s.linked, s.owner) && t in s.locals && Linking(s.locals[t]) && LinkingFrame(s.locals[t]) == f
    ensures FramesOwned(s.locals[t := Idle], s.linked, s.owner - {f})
  {
    assert MayLink(s.owner, t, s.linked[t], s.locals[t]);
    DropOwner(s, t, f, Idle);
  }

  lemma ClaimKeeps(s: State, t: Thread)
    requires Inv(s) && t in s.locals && s.locals[t].Claim?
    ensures Inv(Step(s, t))
  {
    var l := s.locals[t];
    assert Placed(s.slots, s.previous, t, l);
    var e := l.free;
    if s.slots[e].tid == 0 {
      var slot := s.slots[e].(tid := t);
      assert !HasSlot(s.slots, t);
      SameLists(s, e, slot);
      SameOwners(s, t, Use(l.call, e));
      OthersPlaced(s, t, e, slot, s.previous, Use(l.call, e));
    } else {
      SameOwners(s, t, Scan(l.call, 0, None));
    }
  }

  lemma ReleaseKeeps(s: State, t: Thread)
    requires Inv(s) && t in s.locals && s.locals[t].Release?
    ensures Inv(Step(s, t))
  {
    var l := s.locals[t];
    assert Placed(s.slots, s.previous, t, l);
    var k := l.slot;
    assert SlotMatches(s.slots[k], s.previous, s.linked);
    SameLists(s, k, s.slots[k].(tid := 0));
    SameOwners(s, t, Idle);
    OthersPlaced(s, t, k, s.slots[k].(tid := 0), s.previous, Idle);
  }

  lemma ChainKeeps(s: State, t: Thread)
    requires Inv(s) && t in s.locals && s.locals[t].Use? && s.locals[t].call.Link?
    ensures Inv(Step(s, t))
  {
    var l := s.locals[t];
    var f, k := l.call.frame, l.slot;
    assert Placed(s.slots, s.previous, t, l) && MayLink(s.owner, t, s.linked[t], l);
    PendingUnlinked(s, t);
    FreshLink(s, f, s.slots[k].top);
    SameOwners(s, t, Chained(f, k));
    OthersPlaced(s, t, k, s.slots[k], s.previous[f := s.slots[k].top], Chained(f, k));
    assert s.slots[k := s.slots[k]] == s.slots;
  }

  lemma LinkKeeps(s: State, t: Thread)
    requires Inv(s) && t in s.locals && s.locals[t].Chained?
    ensures Inv(Step(s, t))
  {
    var l := s.locals[t];
    var f, k, frames := l.frame, l.slot, s.linked[t];
    assert Placed(s.slots, s.previous, t, l) && SlotMatches(s.slots[k], s.previous, s.linked);
    assert (frames + [f])[..|frames|] == frames;
    var slot := s.slots[k].(top := Some(f));
    OwnList(s.slots, s.previous, s.linked, t, k, slot, frames + [f]);
    LinkOwners(s, t);
    OthersPlaced(s, t, k, slot, s.previous, Idle);
  }

  lemma LinkOwners(s: State, t: Thread)
    requires FramesOwned(s.locals, s.linked, s.owner) && t in s.locals && s.locals[t].Chained?
    ensures FramesOwned(s.locals[t := Idle], s.linked[t := s.linked[t] + [s.locals[t].frame]], s.owner)
  {
    assert MayLink(s.owner, t, s.linked[t], s.locals[t]) && Owns(s.owner, t, s.linked[t]);
    forall u | u in s.locals && u != t
      ensures Owns(s.owner, u, s.linked[u]) && MayLink(s.owner, u, s.linked[u], s.locals[u])
    {
    }
  }

  lemma PopOwners(s: State, t: Thread, l: Local)
    requires FramesOwned(s.locals, s.linked, s.owner) && t in s.locals && s.linked[t] != [] && !Linking(l)
    ensures var frames := s.linked[t];
            FramesOwned(s.locals[t := l], s.linked[t := frames[..|frames| - 1]], s.owner - {frames[|frames| - 1]})
  {
    var frames := s.linked[t];
    var f := frames[|frames| - 1];
    assert Owns(s.owner, t, frames);
    forall u | u in s.locals && u != t
      ensures Owns(s.owner - {f}, u, s.linked[u]) && MayLink(s.owner - {f}, u, s.linked[u], s.locals[u])
    {
      assert Owns(s.owner, u, s.linked[u]) && MayLink(s.owner, u, s.linked[u], s.locals[u]);
    }
  }

  /** Taking the top frame off an owned slot keeps lists and ownership in step. */
  lemma PopKeeps(s: State, t: Thread, k: nat, l: Local, unwinding: bool)
    requires Inv(s) && t in s.locals && k < SlotCount && s.slots[k].tid == t && s.slots[k].top.Some?
    requires l.Idle? || (l == Release(k) && !unwinding && PopTop(s, t, k).slots[k].top.None?)
    ensures Inv(At(PopTop(s.(slots := s.slots[k := s.slots[k].(unwinding := unwinding)]), t, k), t, l))
  {
    var frames := s.linked[t];
    assert SlotMatches(s.slots[k], s.previous, s.linked);
    var slot := Slot(t, s.previous[s.slots[k].top.value], unwinding);
    OwnList(s.slots, s.previous, s.linked, t, k, slot, frames[..|frames| - 1]);
    PopOwners(s, t, l);
    OthersPlaced(s, t, k, slot, s.previous, l);
    var s1 := s.(slots := s.slots[k := s.slots[k].(unwinding := unwinding)]);
    assert PopTop(s1, t, k).slots == s.slots[k := slot];
  }

  lemma IdleKeeps(s: State, t: Thread)
    requires Inv(s) && t in s.locals
    ensures Inv(At(s, t, Idle))
  {
    SameOwners(s, t, Idle);
  }

  lemma UseKeeps(s: State, t: Thread)
    requires Inv(s) && t in s.locals && s.locals[t].Use?
    ensures Inv(Step(s, t))
  {
    hide Inv, PopTop;
    var l := s.locals[t];
    UsePlaced(s, t);
    var k, slot := l.slot, s.slots[l.slot];
    assert s.slots[k := slot] == s.slots;
    match l.call
    case Link(_) => ChainKeeps(s, t);
    case Unlink(f) =>
      if slot.top == Some(f) {
        PopKeeps(s, t, k, if PopTop(s, t, k).slots[k].top.None? && !slot.unwinding then Release(k) else Idle, slot.unwinding);
      } else {
        IdleKeeps(s, t);
      }
    case Begin =>
      if slot.unwinding || slot.top.None? {
        IdleKeeps(s, t);
      } else {
        PopKeeps(s, t, k, Idle, true);
      }
    case Continue =>
      if slot.top.None? {
        PopNothing(s, t, k);
        IdleKeeps(s, t);
      } else {
        PopKeeps(s, t, k, Idle, slot.unwinding);
      }
  }

  /**
   What a call means for the frames a thread has linked: unlinking takes the last one off, if it
   is the one named; unwinding, unless already under way, and going on with it jump to the last one.
   */
  function Meant(frames: seq<Frame>, l: Local, unwinding: bool): seq<Frame> {
    match l
    case Chained(f, _) => frames + [f]
    case Use(Unlink(f), _) => if frames != [] && frames[|frames| - 1] == f then frames[..|frames| - 1] else frames
    case Use(Begin, _) => if frames != [] && !unwinding then frames[..|frames| - 1] else frames
    case Use(Continue, _) => if frames != [] then frames[..|frames| - 1] else frames
    case _ => frames
  }

  /** The record of linked frames changes as the calls mean, whatever the table says. */
  lemma LinkedMeans(s: State, t: Thread)
    requires Inv(s) && t in s.locals
    ensures Bounded(s, t)
    ensures var l := s.locals[t];
            Step(s, t).linked == s.linked[t := Meant(s.linked[t], l, l.Use? && s.slots[l.slot].unwinding)]
  {
    var l, frames := s.locals[t], s.linked[t];
    assert Placed(s.slots, s.previous, t, l);
    assert s.linked[t := frames] == s.linked;
    if l.Use? {
      assert SlotMatches(s.slots[l.slot], s.previous, s.linked);
      assert frames != [] ==> s.slots[l.slot].top == Some(frames[|frames| - 1]);
    }
  }

  lemma UsePlaced(s: State, t: Thread)
    requires Inv(s) && t in s.locals && s.locals[t].Use?
    ensures s.locals[t].slot < |s.slots| == SlotCount && s.slots[s.locals[t].slot].tid == t
  {
    assert Placed(s.slots, s.previous, t, s.locals[t]);
  }

  lemma PopNothing(s: State, t: Thread, k: nat)
    requires k < |s.slots| && s.slots[k].top.None?
    ensures PopTop(s, t, k) == s
  {
  }

  lemma StepKeeps(s: State, t: Thread)
    requires Inv(s) && t in s.locals
    ensures Bounded(s, t) && Inv(Step(s, t))
  {
    assert Placed(s.slots, s.previous, t, s.locals[t]);
    match s.locals[t]
    case Idle =>
    case Scan(_, _, _) => ScanKeeps(s, t);
    case Claim(_, _) => ClaimKeeps(s, t);
    case Use(_, _) => UseKeeps(s, t);
    case Chained(_, _) => LinkKeeps(s, t);
    case Release(_) => ReleaseKeeps(s, t);
  }

  // ----- runs -----

  datatype Action = Make(t: Thread, call: Call) | Advance(t: Thread)

  /** One action of one thread. */
  predicate Next(s: State, a: Action, s': State) {
    match a
    case Make(t, call) => MayCall(s, t, call) && s' == Called(s, t, call)
    case Advance(t) => t in s.locals && (Bounded(s, t) ==> s' == Step(s, t))
  }

  /** A run: actions of any threads in any order, each possible where it happens. */
  predicate Run(states: seq<State>, actions: seq<Action>) {
    && |states| == |actions| + 1 && Init(states[0])
    && forall i :: 0 <= i < |actions| ==> Next(states[i], actions[i], states[i + 1])
  }

  lemma {:induction false} Reachable(states: seq<State>, actions: seq<Action>, n: nat)
    requires Run(states, actions) && n < |states|
    ensures Inv(states[n])
  {
    if n == 0 {
      InitInv(states[0]);
    } else {
      Reachable(states, actions, n - 1);
      var s, a := states[n - 1], actions[n - 1];
      assert Next(s, a, states[n]);
      if a.Make? {
        CallKeeps(s, a.t, a.call);
      } else {
        StepKeeps(s, a.t);
      }
    }
  }

  /** The frames a slot's list leads through, first to last linked. */
  predicate Holds(s: State, k: nat, frames: seq<Frame>)
    requires k < |s.slots|
  {
    ListOf(s.previous, s.slots[k].top, frames)
  }

  /**
   In every state of every run, with any number of threads: a slot in use belongs to one
   thread, which has no other; its list is exactly that thread's linked frames, none of which
   another thread has linked; and a free slot is empty and not unwinding. A thread without a
   slot has no linked frame.
   */
  lemma SlotsExclusive(states: seq<State>, actions: seq<Action>, n: nat)
    requires Run(states, actions) && n < |states|
    ensures var s := states[n];
            && |s.slots| == SlotCount
            && (forall i, j :: 0 <= i < j < SlotCount && s.slots[i].tid == s.slots[j].tid ==> s.slots[i].tid == 0)
            && (forall k :: 0 <= k < SlotCount ==>
                  if s.slots[k].tid == 0 then s.slots[k].top.None? && !s.slots[k].unwinding
                  else s.slots[k].tid in s.linked && Holds(s, k, s.linked[s.slots[k].tid]))
            && (forall t :: t in s.linked && !HasSlot(s.slots, t) ==> s.linked[t] == [])
            && (forall t, u, i, j :: t in s.linked && u in s.linked && 0 <= i < |s.linked[t]| && 0 <= j < |s.linked[u]| ==>
                  s.linked[t][i] == s.linked[u][j] ==> t == u && i == j)
  {
    Reachable(states, actions, n);
    Exclusive(states[n]);
  }

  lemma Exclusive(s: State)
    requires Inv(s)
    ensures forall k :: 0 <= k < SlotCount && s.slots[k].tid != 0 ==>
              s.slots[k].tid in s.linked && Holds(s, k, s.linked[s.slots[k].tid])
    ensures forall t, u, i, j :: t in s.linked && u in s.linked && 0 <= i < |s.linked[t]| && 0 <= j < |s.linked[u]| ==>
              s.linked[t][i] == s.linked[u][j] ==> t == u && i == j
  {
    forall k | 0 <= k < SlotCount && s.slots[k].tid != 0
      ensures s.slots[k].tid in s.linked && Holds(s, k, s.linked[s.slots[k].tid])
    {
      assert SlotMatches(s.slots[k], s.previous, s.linked);
    }
    forall t, u, i, j | t in s.linked && u in s.linked && 0 <= i < |s.linked[t]| && 0 <= j < |s.linked[u]| && s.linked[t][i] == s.linked[u][j]
      ensures t == u && i == j
    {
      assert Owns(s.owner, t, s.linked[t]) && Owns(s.owner, u, s.linked[u]);
    }
  }

  /** Two threads never use one slot at the same time. */
  lemma SlotsNotShared(states: seq<State>, actions: seq<Action>, n: nat, t: Thread, u: Thread)
    requires Run(states, actions) && n < |states| && t in states[n].locals && u in states[n].locals
    requires states[n].locals[t].Use? && states[n].locals[u].Use? && states[n].locals[t].slot == states[n].locals[u].slot
    ensures t == u
  {
    Reachable(states, actions, n);
    UsePlaced(states[n], t);
    UsePlaced(states[n], u);
  }
}
