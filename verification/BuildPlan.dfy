/**
 Running the jobs of a build on several worker processes that share a ticket counter, or, where
 the counter is not lock-free, that each take every n-th ticket.

 The build function is deterministic: a job's value and error depend on the job alone.
 */
module BuildPlan {
  import opened Nonlinear

  datatype Outcome = Outcome(value: nat, error: nat)

  type Build = nat -> Outcome

  // ----- the order of jobs -----

  predicate Permutation(order: seq<nat>) {
    && (forall i :: 0 <= i < |order| ==> order[i] < |order|)
    && (forall i, j :: 0 <= i < j < |order| ==> order[i] != order[j])
    && (forall id :: 0 <= id < |order| ==> id in order)
  }

  /** Larger jobs come first, equally large ones as they are numbered. */
  predicate Sooner(bytes: seq<nat>, a: nat, b: nat)
    requires a < |bytes| && b < |bytes|
  {
    bytes[a] > bytes[b] || (bytes[a] == bytes[b] && a < b)
  }

  predicate LargestFirst(order: seq<nat>, bytes: seq<nat>, n: nat)
    requires n <= |order| == |bytes| && forall i :: 0 <= i < |order| ==> order[i] < |bytes|
  {
    forall i, j :: 0 <= i < j < n ==> Sooner(bytes, order[i], order[j])
  }

  /** The first `n` jobs are somewhere among the first `n` places, the others at their own. */
  predicate FirstOnes(order: seq<nat>, n: nat) {
    && (forall i :: 0 <= i < n && i < |order| ==> order[i] < n)
    && (forall i :: n <= i < |order| ==> order[i] == i)
  }

  lemma Identity(order: seq<nat>)
    requires forall i :: 0 <= i < |order| ==> order[i] == i
    ensures Permutation(order)
  {
    forall id | 0 <= id < |order|
      ensures id in order
    {
      assert order[id] == id;
    }
  }

  /** Insertion sort by size, in place. */
  method SortOrder(bytes: seq<nat>) returns (order: array<nat>)
    ensures fresh(order) && order.Length == |bytes|
    ensures Permutation(order[..]) && LargestFirst(order[..], bytes, |bytes|)
  {
    order := new nat[|bytes|](i => i);
    Identity(order[..]);
    var i := 1;
    while i < order.Length
      invariant order.Length == 0 || 1 <= i <= order.Length
      invariant Permutation(order[..]) && FirstOnes(order[..], i)
      invariant LargestFirst(order[..], bytes, if i < order.Length then i else order.Length)
    {
      Insert(order, bytes, i);
      i := i + 1;
    }
  }

  method Insert(order: array<nat>, bytes: seq<nat>, i: nat)
    requires i < order.Length == |bytes| && Permutation(order[..]) && LargestFirst(order[..], bytes, i) && FirstOnes(order[..], i)
    modifies order
    ensures Permutation(order[..]) && LargestFirst(order[..], bytes, i + 1) && FirstOnes(order[..], i + 1)
  {
    var j: nat := i;
    while j > 0 && bytes[order[j - 1]] < bytes[order[j]]
      invariant j <= i && Permutation(order[..]) && Inserting(order[..], bytes, i, j)
      invariant order[j] == i && FirstOnes(order[..], i + 1)
    {
      ghost var s := order[..];
      Swapped(s, bytes, i, j);
      order[j], order[j - 1] := order[j - 1], order[j];
      assert order[..] == s[j - 1 := s[j]][j := s[j - 1]];
      j := j - 1;
    }
    Inserted(order[..], bytes, i, j);
  }

  /** Where the element stops, those before it are larger, or as large and numbered lower. */
  lemma Inserted(order: seq<nat>, bytes: seq<nat>, i: nat, j: nat)
    requires j <= i < |order| == |bytes| && Permutation(order) && Inserting(order, bytes, i, j) && order[j] == i && FirstOnes(order, i + 1)
    requires j > 0 ==> bytes[order[j - 1]] >= bytes[order[j]]
    ensures LargestFirst(order, bytes, i + 1)
  {
    forall a, b | 0 <= a < b < i + 1
      ensures Sooner(bytes, order[a], order[b])
    {
      if b == j {
        assert order[a] != i;
        assert a < j - 1 ==> Sooner(bytes, order[a], order[j - 1]);
      }
    }
  }

  /** The element at `j` is on its way down; the others up to `i` are in order, and it precedes those above it. */
  predicate Inserting(order: seq<nat>, bytes: seq<nat>, i: nat, j: nat)
    requires j <= i < |order| == |bytes| && forall k :: 0 <= k < |order| ==> order[k] < |bytes|
  {
    && (forall a, b :: 0 <= a < b <= i && a != j && b != j ==> Sooner(bytes, order[a], order[b]))
    && (forall b :: j < b <= i ==> Sooner(bytes, order[j], order[b]))
  }

  lemma Swapped(order: seq<nat>, bytes: seq<nat>, i: nat, j: nat)
    requires 0 < j <= i < |order| == |bytes| && Permutation(order) && Inserting(order, bytes, i, j)
    requires bytes[order[j - 1]] < bytes[order[j]]
    ensures var swapped := order[j - 1 := order[j]][j := order[j - 1]];
            Permutation(swapped) && Inserting(swapped, bytes, i, j - 1)
  {
    var swapped := order[j - 1 := order[j]][j := order[j - 1]];
    forall id | 0 <= id < |order|
      ensures id in swapped
    {
      assert id in order;
      var k :| 0 <= k < |order| && order[k] == id;
      assert swapped[if k == j then j - 1 else if k == j - 1 then j else k] == id;
    }
  }

  // ----- workers -----

  /** `dynamic`: tickets come from the shared counter. */
  datatype Plan = Plan(order: seq<nat>, workers: nat, dynamic: bool)

  datatype Worker = Fetching | Running(ticket: nat) | Exited

  /** `fixed` holds each worker's next ticket without the counter; `runs` counts executions of each job. */
  datatype State = State(next: nat, fixed: seq<nat>, workers: seq<Worker>, out: seq<Outcome>, runs: seq<nat>)

  /** One step of worker `w`: the atomic fetch of a ticket, or running its job into the job's own slot. */
  function Step(p: Plan, build: Build, s: State, w: nat): State
    requires w < |s.workers| == |s.fixed| && |s.out| == |s.runs| == |p.order|
    requires forall i :: 0 <= i < |p.order| ==> p.order[i] < |p.order|
  {
    match s.workers[w]
    case Fetching =>
      var ticket := if p.dynamic then s.next else s.fixed[w];
      s.(next := if p.dynamic then s.next + 1 else s.next,
         fixed := s.fixed[w := s.fixed[w] + p.workers],
         workers := s.workers[w := if ticket < |p.order| then Running(ticket) else Exited])
    case Running(ticket) =>
      if ticket >= |p.order| then s
      else
        var id := p.order[ticket];
        s.(out := s.out[id := build(id)], runs := s.runs[id := s.runs[id] + 1], workers := s.workers[w := Fetching])
    case Exited => s
  }

  predicate Init(p: Plan, s: State) {
    && s.next == 0 && |s.workers| == |s.fixed| == p.workers > 0 && |s.out| == |s.runs| == |p.order|
    && (forall w :: 0 <= w < p.workers ==> s.workers[w] == Fetching && s.fixed[w] == w)
    && (forall i :: 0 <= i < |s.runs| ==> s.runs[i] == 0)
  }

  // ----- the invariant -----

  /** The worker that takes a ticket when tickets are dealt out. */
  function Dealt(p: Plan, t: nat): (w: nat)
    requires p.workers > 0
    ensures w < p.workers
  {
    t % p.workers
  }

  predicate Taken(p: Plan, s: State, t: nat)
    requires 0 < p.workers == |s.fixed|
  {
    if p.dynamic then t < s.next else t < s.fixed[Dealt(p, t)]
  }

  predicate InHand(s: State, t: nat) {
    exists w :: 0 <= w < |s.workers| && s.workers[w] == Running(t)
  }

  predicate Shaped(p: Plan, s: State) {
    && 0 < p.workers == |s.workers| == |s.fixed| && |s.out| == |s.runs| == |p.order| && Permutation(p.order)
    && (!p.dynamic ==> forall w :: 0 <= w < p.workers ==> Dealt(p, s.fixed[w]) == w)
  }

  /** A ticket's job has run once if the ticket was taken and is out of hand, and not at all otherwise. */
  predicate TicketOk(p: Plan, build: Build, s: State, t: nat)
    requires Shaped(p, s) && t < |p.order|
  {
    var id := p.order[t];
    if Taken(p, s, t) && !InHand(s, t) then s.runs[id] == 1 && s.out[id] == build(id) else s.runs[id] == 0
  }

  predicate Inv(p: Plan, build: Build, s: State) {
    && Shaped(p, s)
    && (forall w :: 0 <= w < |s.workers| && s.workers[w].Running? ==>
          s.workers[w].ticket < |p.order| && Taken(p, s, s.workers[w].ticket))
    && (forall v, w :: 0 <= v < w < |s.workers| && s.workers[v].Running? && s.workers[w].Running? ==>
          s.workers[v].ticket != s.workers[w].ticket)
    && (forall w :: 0 <= w < |s.workers| && s.workers[w].Exited? ==>
          if p.dynamic then s.next >= |p.order| else s.fixed[w] >= |p.order|)
    && (forall t :: 0 <= t < |p.order| ==> TicketOk(p, build, s, t))
  }

  /** Dealing goes on with the same worker's next ticket, and no ticket between is that worker's. */
  lemma DealtNext(p: Plan, t: nat, u: nat)
    requires p.workers > 0
    ensures Dealt(p, t + p.workers) == Dealt(p, t)
    ensures t <= u < t + p.workers && Dealt(p, u) == Dealt(p, t) ==> u == t
    ensures u < p.workers ==> Dealt(p, u) == u
  {
    var n := p.workers;
    ModMultiple(t, 1, n);
    DivMod(t, n);
    DivMod(u, n);
    if t <= u < t + n && Dealt(p, u) == Dealt(p, t) {
      assert u - t == (u / n - t / n) * n;
      SmallMultiple(u / n - t / n, n);
    }
    if u < n {
      DivUnique(u, n, 0, u);
    }
  }

  lemma SmallMultiple(k: int, n: nat)
    requires 0 <= k * n < n
    ensures k == 0
  {
    if k >= 1 {
      Monotone(1, n, k, n);
    } else if k <= -1 {
      Negations(k, n);
      Monotone(1, n, -k, n);
    }
  }

  lemma InitInv(p: Plan, build: Build, s: State)
    requires Init(p, s) && Permutation(p.order)
    ensures Inv(p, build, s)
  {
    forall w | 0 <= w < p.workers
      ensures Dealt(p, s.fixed[w]) == w
    {
      DealtNext(p, 0, w);
    }
    forall t | 0 <= t < |p.order|
      ensures TicketOk(p, build, s, t)
    {
      DealtLow(p, t);
    }
  }

  lemma DealtLow(p: Plan, t: nat)
    requires p.workers > 0
    ensures Dealt(p, t) <= t
  {
    DivMod(t, p.workers);
    FloorBounds(t, p.workers);
    Grows(t / p.workers, p.workers);
  }

  /** Fetching takes one ticket that nobody had. */
  lemma FetchTakes(p: Plan, build: Build, s: State, w: nat)
    requires Shaped(p, s) && w < |s.workers| && s.workers[w].Fetching?
    ensures var s' := Step(p, build, s, w);
            && Shaped(p, s')
            && forall t: nat :: Taken(p, s', t) <==> Taken(p, s, t) || t == if p.dynamic then s.next else s.fixed[w]
    ensures !Taken(p, s, if p.dynamic then s.next else s.fixed[w])
  {
    hide Dealt;
    var s' := Step(p, build, s, w);
    var ticket := if p.dynamic then s.next else s.fixed[w];
    DealtNext(p, s.fixed[w], 0);
    forall t: nat
      ensures Taken(p, s', t) <==> Taken(p, s, t) || t == ticket
      ensures t == ticket ==> !Taken(p, s, t)
    {
      DealtNext(p, s.fixed[w], t);
    }
  }

  lemma FetchKeeps(p: Plan, build: Build, s: State, w: nat)
    requires Inv(p, build, s) && w < |s.workers| && s.workers[w].Fetching?
    ensures Inv(p, build, Step(p, build, s, w))
  {
    hide Taken, Dealt;
    var s' := Step(p, build, s, w);
    var ticket := if p.dynamic then s.next else s.fixed[w];
    FetchTakes(p, build, s, w);
    forall t | 0 <= t < |p.order|
      ensures TicketOk(p, build, s', t)
    {
      assert TicketOk(p, build, s, t);
      if t == ticket {
        assert s'.workers[w] == Running(t);
      } else {
        SameHands(s, s', w, t);
      }
    }
  }

  /** A worker that neither had nor gets a ticket does not change whether it is in hand. */
  lemma SameHands(s: State, s': State, w: nat, t: nat)
    requires w < |s.workers| == |s'.workers| && s'.workers == s.workers[w := s'.workers[w]]
    requires s.workers[w] != Running(t) && s'.workers[w] != Running(t)
    ensures InHand(s', t) <==> InHand(s, t)
  {
    if InHand(s, t) {
      var v :| 0 <= v < |s.workers| && s.workers[v] == Running(t);
      assert s'.workers[v] == Running(t);
    }
  }

  lemma RunKeeps(p: Plan, build: Build, s: State, w: nat)
    requires Inv(p, build, s) && w < |s.workers| && s.workers[w].Running?
    ensures Inv(p, build, Step(p, build, s, w))
  {
    var s', ticket := Step(p, build, s, w), s.workers[w].ticket;
    assert InHand(s, ticket) && TicketOk(p, build, s, ticket);
    forall t | 0 <= t < |p.order|
      ensures TicketOk(p, build, s', t)
    {
      assert TicketOk(p, build, s, t);
      if t != ticket {
        SameHands(s, s', w, t);
      }
    }
  }

  /** A run: the workers' steps in any order. */
  predicate Run(p: Plan, build: Build, states: seq<State>, steps: seq<nat>) {
    && |states| == |steps| + 1 && Permutation(p.order) && Init(p, states[0])
    && forall i :: 0 <= i < |steps| ==>
         && steps[i] < |states[i].workers| == |states[i].fixed| && |states[i].out| == |states[i].runs| == |p.order|
         && states[i + 1] == Step(p, build, states[i], steps[i])
  }

  lemma {:induction false} Reachable(p: Plan, build: Build, states: seq<State>, steps: seq<nat>, n: nat)
    requires Run(p, build, states, steps) && n < |states|
    ensures Inv(p, build, states[n])
  {
    if n == 0 {
      InitInv(p, build, states[0]);
    } else {
      Reachable(p, build, states, steps, n - 1);
      var s, w := states[n - 1], steps[n - 1];
      match s.workers[w]
      case Fetching => FetchKeeps(p, build, s, w);
      case Running(_) => RunKeeps(p, build, s, w);
      case Exited =>
    }
  }

  /**
   However the workers' steps interleave and however tickets are handed out: no job ever runs
   twice, and when all workers have exited each has run exactly once and left its own outcome
   in its own slot.
   */
  lemma EachJobOnce(p: Plan, build: Build, states: seq<State>, steps: seq<nat>, n: nat)
    requires Run(p, build, states, steps) && n < |states|
    ensures var s := states[n];
            && |s.runs| == |s.out| == |p.order|
            && (forall id :: 0 <= id < |s.runs| ==> s.runs[id] <= 1)
            && ((forall w :: 0 <= w < |s.workers| ==> s.workers[w].Exited?) ==>
                  forall id :: 0 <= id < |s.runs| ==> s.runs[id] == 1 && s.out[id] == build(id))
  {
    Reachable(p, build, states, steps, n);
    var s := states[n];
    forall id | 0 <= id < |s.runs|
      ensures s.runs[id] <= 1
      ensures (forall w :: 0 <= w < |s.workers| ==> s.workers[w].Exited?) ==> s.runs[id] == 1 && s.out[id] == build(id)
    {
      assert id in p.order;
      var t :| 0 <= t < |p.order| && p.order[t] == id;
      assert TicketOk(p, build, s, t);
      if forall w :: 0 <= w < |s.workers| ==> s.workers[w].Exited? {
        assert s.workers[0].Exited? && s.workers[Dealt(p, t)].Exited?;
      }
    }
  }

  // ----- the end of a run -----

  predicate Finished(s: State) {
    forall w :: 0 <= w < |s.workers| ==> s.workers[w].Exited?
  }

  function Weight(worker: Worker): nat {
    match worker
    case Fetching => 1
    case Running(_) => 2
    case Exited => 0
  }

  function Weights(workers: seq<Worker>): nat {
    if workers == [] then 0 else Weight(workers[0]) + Weights(workers[1..])
  }

  function Ahead(count: nat, ticket: nat): nat {
    if ticket < count then count - ticket else 0
  }

  function AheadAll(count: nat, tickets: seq<nat>): nat {
    if tickets == [] then 0 else Ahead(count, tickets[0]) + AheadAll(count, tickets[1..])
  }

  /** The steps that may still be taken: two for each ticket ahead, and what the workers have in hand. */
  function Remaining(p: Plan, s: State): nat {
    2 * (if p.dynamic then Ahead(|p.order|, s.next) else AheadAll(|p.order|, s.fixed)) + Weights(s.workers)
  }

  lemma {:induction false} WeightsChange(workers: seq<Worker>, w: nat, to: Worker)
    requires w < |workers|
    ensures Weights(workers[w := to]) + Weight(workers[w]) == Weights(workers) + Weight(to)
  {
    if w == 0 {
      assert workers[0 := to][1..] == workers[1..];
    } else {
      assert workers[w := to][1..] == workers[1..][w - 1 := to];
      WeightsChange(workers[1..], w - 1, to);
    }
  }

  lemma {:induction false} AheadChange(count: nat, tickets: seq<nat>, w: nat, to: nat)
    requires w < |tickets|
    ensures AheadAll(count, tickets[w := to]) + Ahead(count, tickets[w]) == AheadAll(count, tickets) + Ahead(count, to)
  {
    if w == 0 {
      assert tickets[0 := to][1..] == tickets[1..];
    } else {
      assert tickets[w := to][1..] == tickets[1..][w - 1 := to];
      AheadChange(count, tickets[1..], w - 1, to);
    }
  }

  /** A worker that has not exited uses up a step. */
  lemma StepRemains(p: Plan, build: Build, s: State, w: nat)
    requires Inv(p, build, s) && w < |s.workers| && !s.workers[w].Exited?
    ensures Remaining(p, Step(p, build, s, w)) < Remaining(p, s)
  {
    hide Weights, AheadAll, TicketOk, Taken;
    var s' := Step(p, build, s, w);
    WeightsChange(s.workers, w, s'.workers[w]);
    AheadChange(|p.order|, s.fixed, w, s'.fixed[w]);
    assert s.fixed[w := s.fixed[w]] == s.fixed;
  }

  /** How many of the first steps are taken by workers that have not exited. */
  function Busy(states: seq<State>, steps: seq<nat>, n: nat): nat
    requires n <= |steps| && |states| == |steps| + 1
    requires forall i :: 0 <= i < n ==> steps[i] < |states[i].workers|
  {
    if n == 0 then 0 else Busy(states, steps, n - 1) + if states[n - 1].workers[steps[n - 1]].Exited? then 0 else 1
  }

  /**
   Every fair run ends: its workers take no more steps than remain at the start, so a scheduler
   that never passes over all workers still at work has them exit.
   */
  lemma {:induction false} RunsEnd(p: Plan, build: Build, states: seq<State>, steps: seq<nat>, n: nat)
    requires Run(p, build, states, steps) && n <= |steps|
    ensures Busy(states, steps, n) + Remaining(p, states[n]) <= Remaining(p, states[0])
    ensures Remaining(p, states[n]) == 0 <==> Finished(states[n])
  {
    hide Remaining, Inv;
    Reachable(p, build, states, steps, n);
    FinishedRemains(p, build, states[n]);
    if n > 0 {
      RunsEnd(p, build, states, steps, n - 1);
      Reachable(p, build, states, steps, n - 1);
      if !states[n - 1].workers[steps[n - 1]].Exited? {
        StepRemains(p, build, states[n - 1], steps[n - 1]);
      }
    }
  }

  lemma FinishedRemains(p: Plan, build: Build, s: State)
    requires Inv(p, build, s)
    ensures Remaining(p, s) == 0 <==> Finished(s)
  {
    NoWeight(s.workers);
    if Finished(s) {
      assert s.workers[0].Exited?;
      if !p.dynamic {
        NoneAhead(|p.order|, s.fixed);
      }
    }
  }

  lemma {:induction false} NoWeight(workers: seq<Worker>)
    ensures Weights(workers) == 0 <==> forall w :: 0 <= w < |workers| ==> workers[w].Exited?
  {
    if workers != [] {
      NoWeight(workers[1..]);
      assert forall w :: 0 <= w < |workers[1..]| ==> workers[1..][w] == workers[w + 1];
      assert forall w :: 0 < w < |workers| ==> workers[w] == workers[1..][w - 1];
    }
  }

  lemma {:induction false} NoneAhead(count: nat, tickets: seq<nat>)
    requires forall w :: 0 <= w < |tickets| ==> tickets[w] >= count
    ensures AheadAll(count, tickets) == 0
  {
    if tickets != [] {
      NoneAhead(count, tickets[1..]);
    }
  }

  // ----- results -----

  /** The first error by job number, zero without errors. */
  function FirstError(out: seq<Outcome>): nat {
    if out == [] then 0 else if out[0].error != 0 then out[0].error else FirstError(out[1..])
  }

  lemma {:induction false} FirstErrorAppend(out: seq<Outcome>, o: Outcome)
    ensures FirstError(out + [o]) == if FirstError(out) != 0 then FirstError(out) else o.error
  {
    if out == [] {
      assert [] + [o] == [o];
    } else {
      assert (out + [o])[1..] == out[1..] + [o];
      FirstErrorAppend(out[1..], o);
    }
  }

  /** The path for one worker: all jobs in their own order, keeping the first error. */
  method Serial(build: Build, count: nat) returns (out: seq<Outcome>, result: nat)
    ensures |out| == count && forall id :: 0 <= id < count ==> out[id] == build(id)
    ensures result == FirstError(out)
  {
    out, result := [], 0;
    var id := 0;
    while id < count
      invariant id <= count && |out| == id && result == FirstError(out)
      invariant forall k :: 0 <= k < id ==> out[k] == build(k)
    {
      var o := build(id);
      FirstErrorAppend(out, o);
      out := out + [o];
      if result == 0 {
        result := o.error;
      }
      id := id + 1;
    }
  }

  /** What the parent reads from the shared slots after all workers exited normally. */
  method CollectErrors(out: seq<Outcome>) returns (result: nat)
    ensures result == FirstError(out)
  {
    result := 0;
    var i := 0;
    while i < |out|
      invariant i <= |out| && result == FirstError(out[..i])
    {
      FirstErrorAppend(out[..i], out[i]);
      assert out[..i + 1] == out[..i] + [out[i]];
      if out[i].error != 0 && result == 0 {
        result := out[i].error;
      }
      i := i + 1;
    }
    assert out[..i] == out;
  }

  /** Any finished parallel run leaves the values and the first error of the serial path. */
  lemma ParallelIsSerial(p: Plan, build: Build, states: seq<State>, steps: seq<nat>, n: nat, serial: seq<Outcome>)
    requires Run(p, build, states, steps) && n < |states|
    requires Finished(states[n])
    requires |serial| == |p.order| && forall id :: 0 <= id < |serial| ==> serial[id] == build(id)
    ensures states[n].out == serial && FirstError(states[n].out) == FirstError(serial)
  {
    EachJobOnce(p, build, states, steps, n);
  }

  function Outcomes(build: Build, count: nat): seq<Outcome> {
    seq(count, id requires 0 <= id => build(id))
  }

  /** The values of a build without errors. */
  function Values(out: seq<Outcome>): seq<nat> {
    seq(|out|, i requires 0 <= i < |out| => out[i].value)
  }

  /**
   A build's result and values. One worker takes the serial path; with several, `last` is the state
   that any run of theirs ended in. What comes out depends on neither.
   */
  method RunBuild(p: Plan, build: Build, ghost states: seq<State>, ghost steps: seq<nat>, last: State) returns (result: nat, values: seq<nat>)
    requires p.workers != 1 ==> Run(p, build, states, steps) && states[|steps|] == last && Finished(last)
    ensures var out := Outcomes(build, |p.order|);
            result == FirstError(out) && values == if result == 0 then Values(out) else []
  {
    var out;
    if p.workers == 1 {
      out, result := Serial(build, |p.order|);
    } else {
      ParallelIsSerial(p, build, states, steps, |steps|, Outcomes(build, |p.order|));
      out := last.out;
      result := CollectErrors(out);
    }
    assert out == Outcomes(build, |p.order|);
    values := if result == 0 then Values(out) else [];
  }
}
