/**
 The event-loop threads and closing: a counter that closing waits on, and the host that it then
 destroys. The counter is taken on entering a loop; what matters is where it is given back.
 */
module EnetThreads {

  /** Given back after every event inside the loop, as the program does; or once, after the loop. */
  datatype Placement = InsideLoop | AfterLoop

  datatype Position = AtHead | InService

  datatype Threads = Threads(
    listening: bool, closing: bool, hostAlive: bool, count: int, loops: map<nat, Position>,
    entered: nat, left: nat, handled: nat)

  const INITIAL := Threads(false, false, false, 0, map[], 0, 0, 0)

  datatype Step =
    | Listen
    | Enter(loop: nat)
    | CheckHead(loop: nat)
    | Idle(loop: nat)
    | Handle(loop: nat)
    | BeginClose
    | FinishClose

  predicate Enabled(t: Threads, step: Step) {
    match step
    case Listen => !t.hostAlive && !t.closing
    case Enter(loop) => loop !in t.loops
    case CheckHead(loop) => loop in t.loops && t.loops[loop] == AtHead
    case Idle(loop) => loop in t.loops && t.loops[loop] == InService
    case Handle(loop) => loop in t.loops && t.loops[loop] == InService
    case BeginClose => !t.closing
    case FinishClose => t.closing && t.count == 0
  }

  function Apply(placement: Placement, t: Threads, step: Step): Threads
    requires Enabled(t, step)
  {
    match step
    case Listen => t.(listening := true, hostAlive := true)
    case Enter(loop) =>
      t.(loops := t.loops[loop := AtHead], count := t.count + 1, entered := t.entered + 1)
    case CheckHead(loop) =>
      if t.listening then t.(loops := t.loops[loop := InService])
      else t.(loops := t.loops - {loop}, left := t.left + 1,
              count := if placement == AfterLoop then t.count - 1 else t.count)
    case Idle(loop) => t.(loops := t.loops[loop := AtHead])
    case Handle(loop) =>
      t.(loops := t.loops[loop := AtHead], handled := t.handled + 1,
         count := if placement == InsideLoop then t.count - 1 else t.count)
    case BeginClose => t.(listening := false, closing := true)
    case FinishClose => t.(hostAlive := false, closing := false)
  }

  predicate Possible(placement: Placement, t: Threads, steps: seq<Step>)
    decreases |steps|
  {
    steps == []
    || (Enabled(t, steps[0]) && Possible(placement, Apply(placement, t, steps[0]), steps[1..]))
  }

  function Run(placement: Placement, t: Threads, steps: seq<Step>): Threads
    requires Possible(placement, t, steps)
    decreases |steps|
  {
    if steps == [] then t else Run(placement, Apply(placement, t, steps[0]), steps[1..])
  }

  /** A loop is inside the library while the host it serves is gone. */
  predicate UsesDestroyedHost(t: Threads) {
    exists loop :: loop in t.loops && t.loops[loop] == InService && !t.hostAlive
  }

  // ----- what the counter counts -----

  predicate Counts(placement: Placement, t: Threads) {
    && |t.loops| == t.entered - t.left
    && t.count == (if placement == InsideLoop then t.entered - t.handled else |t.loops|)
  }

  lemma NoLoopsIffNoneCounted(t: Threads)
    ensures t.loops == map[] <==> |t.loops| == 0
  {
  }

  lemma StepCounts(placement: Placement, t: Threads, step: Step)
    requires Counts(placement, t) && Enabled(t, step)
    ensures Counts(placement, Apply(placement, t, step))
  {
    var loops := Apply(placement, t, step).loops;
    if step.Enter? {
      assert loops.Keys == t.loops.Keys + {step.loop};
    } else if step.CheckHead? && !t.listening {
      assert loops.Keys == t.loops.Keys - {step.loop};
    } else {
      assert loops.Keys == t.loops.Keys;
    }
    assert |loops| == |loops.Keys| && |t.loops| == |t.loops.Keys|;
  }

  /** In every run: given back after the loop, the counter is the number of loops; given back inside, not. */
  lemma {:induction false} RunCounts(placement: Placement, t: Threads, steps: seq<Step>)
    requires Counts(placement, t) && Possible(placement, t, steps)
    ensures Counts(placement, Run(placement, t, steps))
    decreases |steps|
  {
    if steps != [] {
      StepCounts(placement, t, steps[0]);
      RunCounts(placement, Apply(placement, t, steps[0]), steps[1..]);
    }
  }

  /**
   The counter as shipped, in every run: loops entered less events handled. So closing gets past
   its wait exactly when as many events have been handled as loops entered, and then the loops
   still running are as many as events were handled beyond the loops left.
   */
  lemma ShippedCounter(t: Threads, steps: seq<Step>)
    requires Counts(InsideLoop, t) && Possible(InsideLoop, t, steps)
    ensures var u := Run(InsideLoop, t, steps);
      && u.count == u.entered - u.handled
      && |u.loops| == u.entered - u.left
      && (Enabled(u, FinishClose) <==> u.closing && u.handled == u.entered)
      && (Enabled(u, FinishClose) ==> |u.loops| == u.handled - u.left)
  {
    RunCounts(InsideLoop, t, steps);
  }

  // ----- when closing is safe -----

  /** The host is alive while loops are let in, and closing keeps them out. */
  predicate HostServesListeners(t: Threads) {
    (t.listening ==> t.hostAlive) && (t.closing ==> !t.listening)
  }

  /** The last step of closing is taken while some loop is inside the library. */
  predicate PullsHostAway(t: Threads, step: Step) {
    step.FinishClose? && exists loop :: loop in t.loops && t.loops[loop] == InService
  }

  lemma StepIsSafeIff(placement: Placement, t: Threads, step: Step)
    requires HostServesListeners(t) && !UsesDestroyedHost(t) && Enabled(t, step)
    ensures HostServesListeners(Apply(placement, t, step))
    ensures UsesDestroyedHost(Apply(placement, t, step)) <==> PullsHostAway(t, step)
  {
  }

  predicate SafeThroughout(placement: Placement, t: Threads, steps: seq<Step>)
    requires Possible(placement, t, steps)
    decreases |steps|
  {
    && !UsesDestroyedHost(t)
    && (steps == [] || SafeThroughout(placement, Apply(placement, t, steps[0]), steps[1..]))
  }

  predicate ClosesWhenNoneIsInService(placement: Placement, t: Threads, steps: seq<Step>)
    requires Possible(placement, t, steps)
    decreases |steps|
  {
    steps == []
    || (!PullsHostAway(t, steps[0])
        && ClosesWhenNoneIsInService(placement, Apply(placement, t, steps[0]), steps[1..]))
  }

  /**
   Wherever the counter is given back: no point of a run has a loop in a destroyed host, if and only
   if whenever closing finishes, no loop is inside the library.
   */
  lemma {:induction false} SafeThroughoutIff(placement: Placement, t: Threads, steps: seq<Step>)
    requires HostServesListeners(t) && !UsesDestroyedHost(t) && Possible(placement, t, steps)
    ensures SafeThroughout(placement, t, steps) <==> ClosesWhenNoneIsInService(placement, t, steps)
    decreases |steps|
  {
    if steps != [] {
      var u := Apply(placement, t, steps[0]);
      StepIsSafeIff(placement, t, steps[0]);
      if PullsHostAway(t, steps[0]) {
        assert !SafeThroughout(placement, u, steps[1..]);
      } else {
        SafeThroughoutIff(placement, u, steps[1..]);
      }
    }
  }

  // ----- when closing can end, as shipped -----

  /** The loops that are inside the library, where they may still handle an event. */
  function Serving(t: Threads): set<nat> {
    set loop | loop in t.loops && t.loops[loop] == InService
  }

  predicate FinishesAfter(placement: Placement, t: Threads, steps: seq<Step>) {
    Possible(placement, t, steps) && Enabled(Run(placement, t, steps), FinishClose)
  }

  /** Some way for things to go on lets closing take its last step. */
  ghost predicate CanFinish(placement: Placement, t: Threads) {
    exists steps :: FinishesAfter(placement, t, steps)
  }

  lemma CanFinishBefore(placement: Placement, t: Threads, step: Step)
    requires Enabled(t, step) && CanFinish(placement, Apply(placement, t, step))
    ensures CanFinish(placement, t)
  {
    var later :| FinishesAfter(placement, Apply(placement, t, step), later);
    OneStep(placement, t, step, later);
    assert FinishesAfter(placement, t, [step] + later);
  }

  /** More is counted than the loops inside the library can still give back. */
  predicate IsStuck(t: Threads) {
    t.closing && !t.listening && t.count > |Serving(t)|
  }

  lemma StepStaysStuck(t: Threads, step: Step)
    requires IsStuck(t) && Enabled(t, step)
    ensures IsStuck(Apply(InsideLoop, t, step))
  {
    var u := Apply(InsideLoop, t, step);
    if step.Idle? || step.Handle? {
      assert Serving(u) == Serving(t) - {step.loop};
    } else {
      assert Serving(u) == Serving(t);
    }
  }

  lemma {:induction false} RunStaysStuck(t: Threads, steps: seq<Step>)
    requires IsStuck(t) && Possible(InsideLoop, t, steps)
    ensures IsStuck(Run(InsideLoop, t, steps))
    decreases |steps|
  {
    if steps != [] {
      StepStaysStuck(t, steps[0]);
      RunStaysStuck(Apply(InsideLoop, t, steps[0]), steps[1..]);
    }
  }

  lemma {:induction false} SomeLoopIsUnused(used: set<nat>) returns (loop: nat)
    ensures forall other | other in used :: other < loop
  {
    if used == {} {
      loop := 0;
    } else {
      var one :| one in used;
      var above := SomeLoopIsUnused(used - {one});
      loop := if above > one then above else one + 1;
      assert forall other | other in used :: other == one || other in used - {one};
    }
  }

  /** New loops bring the counter up to 0, events for the loops inside the library bring it down. */
  lemma {:induction false} WayOut(t: Threads)
    requires t.closing && !t.listening && t.count <= |Serving(t)|
    ensures CanFinish(InsideLoop, t)
    decreases if t.count < 0 then -t.count else t.count
  {
    if t.count == 0 {
      assert FinishesAfter(InsideLoop, t, []);
    } else if t.count < 0 {
      var loop := SomeLoopIsUnused(t.loops.Keys);
      var u := Apply(InsideLoop, t, Enter(loop));
      assert Serving(u) == Serving(t);
      WayOut(u);
      CanFinishBefore(InsideLoop, t, Enter(loop));
    } else {
      var loop :| loop in Serving(t);
      var u := Apply(InsideLoop, t, Handle(loop));
      assert Serving(u) == Serving(t) - {loop};
      WayOut(u);
      CanFinishBefore(InsideLoop, t, Handle(loop));
    }
  }

  /**
   As shipped, closing that has begun can finish if and only if the counter does not exceed the
   number of loops inside the library.
   */
  lemma ClosingCanFinishIff(t: Threads)
    requires t.closing && !t.listening
    ensures CanFinish(InsideLoop, t) <==> t.count <= |Serving(t)|
  {
    if t.count <= |Serving(t)| {
      WayOut(t);
    } else if CanFinish(InsideLoop, t) {
      var steps :| FinishesAfter(InsideLoop, t, steps);
      RunStaysStuck(t, steps);
      assert false;
    }
  }

  lemma {:induction false} RunServesListeners(placement: Placement, t: Threads, steps: seq<Step>)
    requires HostServesListeners(t) && Possible(placement, t, steps)
    ensures HostServesListeners(Run(placement, t, steps))
    decreases |steps|
  {
    if steps != [] {
      RunServesListeners(placement, Apply(placement, t, steps[0]), steps[1..]);
    }
  }

  /**
   As shipped, wherever a run has come to in closing: it can finish if and only if the loops entered
   are no more than the events handled and the loops now inside the library.
   */
  lemma ShippedClosingCanFinishIff(t: Threads, steps: seq<Step>)
    requires Counts(InsideLoop, t) && HostServesListeners(t) && Possible(InsideLoop, t, steps)
    requires Run(InsideLoop, t, steps).closing
    ensures var u := Run(InsideLoop, t, steps);
      CanFinish(InsideLoop, u) <==> u.entered <= u.handled + |Serving(u)|
  {
    RunCounts(InsideLoop, t, steps);
    RunServesListeners(InsideLoop, t, steps);
    ClosingCanFinishIff(Run(InsideLoop, t, steps));
  }

  function EnterCount(steps: seq<Step>): nat {
    if steps == [] then 0 else (if steps[0].Enter? then 1 else 0) + EnterCount(steps[1..])
  }

  /** Only entering a loop raises the counter. */
  lemma {:induction false} OnlyEnteringRaisesCount(placement: Placement, t: Threads, steps: seq<Step>)
    requires Possible(placement, t, steps)
    ensures Run(placement, t, steps).count <= t.count + EnterCount(steps)
    decreases |steps|
  {
    if steps != [] {
      OnlyEnteringRaisesCount(placement, Apply(placement, t, steps[0]), steps[1..]);
    }
  }

  /**
   As shipped, once more events have been handled than loops entered, closing can finish, but every
   way to do so enters as many new loops as the counter is short of.
   */
  lemma ClosingWaitsForNewLoops(t: Threads, steps: seq<Step>)
    requires Counts(InsideLoop, t) && t.handled > t.entered && t.closing && !t.listening
    ensures CanFinish(InsideLoop, t)
    ensures FinishesAfter(InsideLoop, t, steps) ==> EnterCount(steps) >= t.handled - t.entered
  {
    WayOut(t);
    if Possible(InsideLoop, t, steps) {
      OnlyEnteringRaisesCount(InsideLoop, t, steps);
    }
  }

  /** As shipped: one loop, no event, and closing can never finish, whatever comes after. */
  lemma QuietEndpointNeverCloses(loop: nat)
    ensures var steps := [Listen, Enter(loop), CheckHead(loop), Idle(loop), BeginClose];
      Possible(InsideLoop, INITIAL, steps) && !CanFinish(InsideLoop, Run(InsideLoop, INITIAL, steps))
  {
    var steps := [Listen, Enter(loop), CheckHead(loop), Idle(loop), BeginClose];
    var t5 := Threads(false, true, true, 1, map[loop := AtHead], 1, 0, 0);
    assert Serving(t5) == {};
    ClosingCanFinishIff(t5);
    var t4 := t5.(listening := true, closing := false);
    OneStep(InsideLoop, t4, BeginClose, []);
    var t3 := t4.(loops := map[loop := InService]);
    assert t3.loops[loop := AtHead] == t4.loops;
    OneStep(InsideLoop, t3, Idle(loop), [BeginClose]);
    assert t4.loops[loop := InService] == t3.loops;
    OneStep(InsideLoop, t4, CheckHead(loop), [Idle(loop), BeginClose]);
    var t1 := INITIAL.(listening := true, hostAlive := true);
    assert t1.loops[loop := AtHead] == t4.loops;
    OneStep(InsideLoop, t1, Enter(loop), [CheckHead(loop), Idle(loop), BeginClose]);
    OneStep(InsideLoop, INITIAL, Listen, steps[1..]);
  }

  // ----- the intended placement -----

  predicate HostOutlivesLoops(t: Threads) {
    && Counts(AfterLoop, t)
    && (t.listening ==> t.hostAlive)
    && (t.closing ==> !t.listening)
    && forall loop | loop in t.loops :: t.loops[loop] == InService ==> t.hostAlive
  }

  lemma StepKeepsHost(t: Threads, step: Step)
    requires HostOutlivesLoops(t) && Enabled(t, step)
    ensures HostOutlivesLoops(Apply(AfterLoop, t, step))
  {
    StepCounts(AfterLoop, t, step);
    NoLoopsIffNoneCounted(t);
  }

  lemma {:induction false} RunKeepsHost(t: Threads, steps: seq<Step>)
    requires HostOutlivesLoops(t) && Possible(AfterLoop, t, steps)
    ensures HostOutlivesLoops(Run(AfterLoop, t, steps))
    decreases |steps|
  {
    if steps != [] {
      StepKeepsHost(t, steps[0]);
      RunKeepsHost(Apply(AfterLoop, t, steps[0]), steps[1..]);
    }
  }

  /** Given back after the loop: in every run, no loop ever serves a destroyed host. */
  lemma AfterLoopIsSafe(t: Threads, steps: seq<Step>)
    requires HostOutlivesLoops(t) && Possible(AfterLoop, t, steps)
    ensures var u := Run(AfterLoop, t, steps);
      && !UsesDestroyedHost(u)
      && u.count == |u.loops|
      && (Enabled(u, FinishClose) ==> u.loops == map[])
  {
    RunKeepsHost(t, steps);
    NoLoopsIffNoneCounted(Run(AfterLoop, t, steps));
  }

  /** Given back after the loop: closing that has begun can always finish. */
  lemma {:induction false} AfterLoopCanFinish(t: Threads)
    requires HostOutlivesLoops(t) && t.closing
    ensures CanFinish(AfterLoop, t)
    decreases |t.loops|, |Serving(t)|
  {
    NoLoopsIffNoneCounted(t);
    if t.loops == map[] {
      assert FinishesAfter(AfterLoop, t, []);
    } else {
      var loop :| loop in t.loops;
      var step := if t.loops[loop] == InService then Idle(loop) else CheckHead(loop);
      var u := Apply(AfterLoop, t, step);
      StepKeepsHost(t, step);
      if step.Idle? {
        assert u.loops.Keys == t.loops.Keys && |u.loops| == |u.loops.Keys| && |t.loops| == |t.loops.Keys|;
        assert Serving(u) == Serving(t) - {loop};
      }
      AfterLoopCanFinish(u);
      CanFinishBefore(AfterLoop, t, step);
    }
  }

  lemma NewEndpointCounts(placement: Placement)
    ensures Counts(placement, INITIAL)
  {
  }

  lemma NewEndpointHostOutlivesLoops()
    ensures HostOutlivesLoops(INITIAL)
  {
  }

  /** As shipped, from a new endpoint: the counter is loops entered less events handled. */
  lemma ShippedCountsFromNew(steps: seq<Step>)
    requires Possible(InsideLoop, INITIAL, steps)
    ensures Counts(InsideLoop, Run(InsideLoop, INITIAL, steps))
  {
    NewEndpointCounts(InsideLoop);
    RunCounts(InsideLoop, INITIAL, steps);
  }

  /** As shipped, from a new endpoint: exactly when closing can still finish. */
  lemma ShippedClosingFromNewIff(steps: seq<Step>)
    requires Possible(InsideLoop, INITIAL, steps) && Run(InsideLoop, INITIAL, steps).closing
    ensures var u := Run(InsideLoop, INITIAL, steps);
      CanFinish(InsideLoop, u) <==> u.entered <= u.handled + |Serving(u)|
  {
    NewEndpointCounts(InsideLoop);
    ShippedClosingCanFinishIff(INITIAL, steps);
  }

  /** As shipped, from a new endpoint: exactly when no loop ever loses its host. */
  lemma ShippedSafeFromNewIff(steps: seq<Step>)
    requires Possible(InsideLoop, INITIAL, steps)
    ensures SafeThroughout(InsideLoop, INITIAL, steps)
       <==> ClosesWhenNoneIsInService(InsideLoop, INITIAL, steps)
  {
    SafeThroughoutIff(InsideLoop, INITIAL, steps);
  }

  /** As intended, from a new endpoint: no run lets a loop lose its host. */
  lemma IntendedFromNew(steps: seq<Step>)
    requires Possible(AfterLoop, INITIAL, steps)
    ensures HostOutlivesLoops(Run(AfterLoop, INITIAL, steps))
    ensures !UsesDestroyedHost(Run(AfterLoop, INITIAL, steps))
  {
    NewEndpointHostOutlivesLoops();
    RunKeepsHost(INITIAL, steps);
  }

  /** As intended, from a new endpoint: wherever a run has come to in closing, it can finish. */
  lemma IntendedClosingFromNew(steps: seq<Step>)
    requires Possible(AfterLoop, INITIAL, steps) && Run(AfterLoop, INITIAL, steps).closing
    ensures CanFinish(AfterLoop, Run(AfterLoop, INITIAL, steps))
  {
    IntendedFromNew(steps);
    AfterLoopCanFinish(Run(AfterLoop, INITIAL, steps));
  }

  /** As shipped: one loop handles one event, goes back to serving, and closing pulls the host away. */
  lemma ShippedPlacementIsUnsafe(loop: nat)
    ensures var steps := [Listen, Enter(loop), CheckHead(loop), Handle(loop), CheckHead(loop), BeginClose, FinishClose];
      Possible(InsideLoop, INITIAL, steps) && UsesDestroyedHost(Run(InsideLoop, INITIAL, steps))
  {
    var steps := [Listen, Enter(loop), CheckHead(loop), Handle(loop), CheckHead(loop), BeginClose, FinishClose];
    var t6 := Threads(false, true, true, 0, map[loop := InService], 1, 0, 1);
    var t7 := t6.(hostAlive := false, closing := false);
    OneStep(InsideLoop, t6, FinishClose, []);
    var t5 := t6.(listening := true, closing := false);
    OneStep(InsideLoop, t5, BeginClose, [FinishClose]);
    var t4 := t5.(loops := map[loop := AtHead]);
    assert t4.loops[loop := InService] == t5.loops;
    OneStep(InsideLoop, t4, CheckHead(loop), [BeginClose, FinishClose]);
    var t3 := t5.(count := 1, handled := 0);
    assert t3.loops[loop := AtHead] == t4.loops;
    OneStep(InsideLoop, t3, Handle(loop), [CheckHead(loop), BeginClose, FinishClose]);
    var t2 := t4.(count := 1, handled := 0);
    OneStep(InsideLoop, t2, CheckHead(loop), [Handle(loop), CheckHead(loop), BeginClose, FinishClose]);
    var t1 := INITIAL.(listening := true, hostAlive := true);
    assert t1.loops[loop := AtHead] == t2.loops;
    OneStep(InsideLoop, t1, Enter(loop), [CheckHead(loop), Handle(loop), CheckHead(loop), BeginClose, FinishClose]);
    OneStep(InsideLoop, INITIAL, Listen, steps[1..]);
    assert t7.loops[loop] == InService;
  }

  lemma OneStep(placement: Placement, t: Threads, step: Step, later: seq<Step>)
    requires Enabled(t, step) && Possible(placement, Apply(placement, t, step), later)
    ensures Possible(placement, t, [step] + later)
    ensures Run(placement, t, [step] + later) == Run(placement, Apply(placement, t, step), later)
  {
  }
}
