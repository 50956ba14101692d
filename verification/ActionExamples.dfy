/**
Runs of the action server that show what its conditions on the CANCELING transition mean.
*/
module ActionExamples {
  import opened Wrappers
  import opened GoalStates
  import opened ActionProtocol
  import opened ActionInvariants
  import opened ActionTheorems

  lemma RunOne(s: System, a: Event)
    ensures Run(s, [a]) == Apply(s, a)
  {
    assert [a][1..] == [];
  }

  lemma RunTwo(s: System, a: Event, b: Event)
    ensures Run(s, [a, b]) == Apply(Apply(s, a), b)
  {
    assert [a, b][1..] == [b];
    RunOne(Apply(s, a), b);
  }

  lemma RunThree(s: System, a: Event, b: Event, c: Event)
    ensures Run(s, [a, b, c]) == Apply(Apply(Apply(s, a), b), c)
  {
    assert [a, b, c][1..] == [b, c];
    RunTwo(Apply(s, a), b, c);
  }

  lemma RunParts(s: System, first: seq<Event>, second: seq<Event>, third: seq<Event>)
    ensures Run(s, first + (second + third)) == Run(Run(Run(s, first), second), third)
  {
    RunConcat(s, first, second + third);
    RunConcat(Run(s, first), second, third);
  }

  // ---------------------------------------------------------------------------------------------
  // The handler runs before the CANCELING transition

  const GOAL_ACTIVATED := [Deliver, OwnerStep([]), CallAcceptPending([])]
  const HANDLER_FIRST := [HookReturn([]), RequestCancel(0), OwnerStep([])]
  const TRANSITION_LAST := [HookReturn([]), CancelTransition(0)]

  const ACTIVE := INITIAL.(lib := Goals([Executing], {}, [Transition(0, Execute)], []),
                           active := Some(0), owner := InGoalHook(0), offered := 1, activated := [0])

  /** A run in which the cancel handler overtakes the CANCELING transition: the goal ends ABORTED. */
  lemma CanceledGoalAborted()
    ensures var l := Run(INITIAL, GOAL_ACTIVATED + (HANDLER_FIRST + TRANSITION_LAST)).lib;
            l.results == [ClientResult(0, Aborted)]
  {
    RunParts(INITIAL, GOAL_ACTIVATED, HANDLER_FIRST, TRANSITION_LAST);
    GoalActivated();
    HandlerTaken();
    HandlerAborts(Run(ACTIVE, HANDLER_FIRST));
  }

  lemma GoalActivated()
    ensures Run(INITIAL, GOAL_ACTIVATED) == ACTIVE
  {
    RunThree(INITIAL, Deliver, OwnerStep([]), CallAcceptPending([]));
    var s := Apply(INITIAL, Deliver);
    assert s.queue == [AcceptedCallback(0)] && s.lib.state == [Accepted] && s.queue[1..] == [];
    assert [Accepted][0 := Executing] == [Executing];
  }

  lemma HandlerTaken()
    ensures Run(ACTIVE, HANDLER_FIRST) ==
            ACTIVE.(owner := InCancelHook(0), sent := {0}, lib := ACTIVE.lib.(due := {0}), cancelHooks := [0])
  {
    RunThree(ACTIVE, HookReturn([]), RequestCancel(0), OwnerStep([]));
    assert [CancelHandler(0)][1..] == [];
  }

  lemma HandlerAborts(s: System)
    requires s.lib.state == [Executing] && s.active == Some(0) && s.owner == InCancelHook(0)
    ensures Run(s, TRANSITION_LAST).lib.results == s.lib.results + [ClientResult(0, Aborted)]
  {
    RunTwo(s, HookReturn([]), CancelTransition(0));
    assert Apply(s, HookReturn([])).lib.state == [Aborted];
  }

  // ---------------------------------------------------------------------------------------------
  // Goals the server does not end

  const FIRST_GOAL := [Deliver, OwnerStep([]), HookReturn([])]

  const PENDING := INITIAL.(lib := Goals([Accepted], {}, [], []), pending := Some(0), offered := 1)

  lemma FirstGoalPending()
    ensures Run(INITIAL, FIRST_GOAL) == PENDING
  {
    RunThree(INITIAL, Deliver, OwnerStep([]), HookReturn([]));
    var s := Apply(INITIAL, Deliver);
    assert s.queue == [AcceptedCallback(0)] && s.lib.state == [Accepted] && s.queue[1..] == [];
  }

  /** Nothing is left to do for the server, and canceled goal 0 has no result from it. */
  predicate Left(s: System) {
    && s.owner.Idle? && s.queue == [] && s.lib.due == {} && s.lib.results == []
    && s.lib.state != [] && s.lib.state[0].Canceling? && !InSlot(s, 0)
    && Releasable(s, 0)
  }

  const SECOND_GOAL_THEN_CANCEL := [Deliver, RequestCancel(0), CancelTransition(0)]
  const DRAIN_QUEUE := [OwnerStep([]), HookReturn([]), OwnerStep([])]

  const CANCELED_THEN_OFFERED :=
    PENDING.(lib := Goals([Canceling, Accepted], {}, [Transition(0, CancelGoal)], []), sent := {0},
             queue := [AcceptedCallback(1), CancelHandler(0)])

  /** The pending goal is CANCELING when it is replaced. */
  lemma ReplacedGoalLeft()
    ensures Left(Run(INITIAL, FIRST_GOAL + (SECOND_GOAL_THEN_CANCEL + DRAIN_QUEUE)))
  {
    RunParts(INITIAL, FIRST_GOAL, SECOND_GOAL_THEN_CANCEL, DRAIN_QUEUE);
    FirstGoalPending();
    CanceledThenOffered();
    QueueDrained();
  }

  lemma CanceledThenOffered()
    ensures Run(PENDING, SECOND_GOAL_THEN_CANCEL) == CANCELED_THEN_OFFERED
  {
    RunThree(PENDING, Deliver, RequestCancel(0), CancelTransition(0));
    assert Apply(PENDING, Deliver).lib.state == [Accepted, Accepted];
    assert [Accepted, Accepted][0 := Canceling] == [Canceling, Accepted];
  }

  lemma QueueDrained()
    ensures Run(CANCELED_THEN_OFFERED, DRAIN_QUEUE) ==
            CANCELED_THEN_OFFERED.(queue := [], pending := Some(1), offered := 2)
  {
    RunThree(CANCELED_THEN_OFFERED, OwnerStep([]), HookReturn([]), OwnerStep([]));
    assert [AcceptedCallback(1), CancelHandler(0)][1..] == [CancelHandler(0)];
    assert [CancelHandler(0)][1..] == [];
  }

  // the transition of goal 0 slips in just before access 7, execute() in acceptPending()
  const SLIP_BEFORE_PROMOTION: Schedule := [[], [], [], [], [], [], [], [0]]
  // the transition of goal 0 slips in just before access 5, execute() in terminateGoal()
  const SLIP_BEFORE_TERMINATION: Schedule := [[], [], [], [], [], [0]]

  /** execute() in acceptPending() throws. */
  lemma AcceptedGoalLeft()
    ensures var es := FIRST_GOAL + [RequestCancel(0), CallAcceptPending(SLIP_BEFORE_PROMOTION), OwnerStep([])];
            Left(Run(INITIAL, es))
  {
    AcceptSlips();
    CancelThen(CallAcceptPending(SLIP_BEFORE_PROMOTION));
  }

  /** execute() in terminateGoal() throws; rejectPending() returns true all the same. */
  lemma RejectedGoalLeft()
    ensures var es := FIRST_GOAL + [RequestCancel(0), CallRejectPending(SLIP_BEFORE_TERMINATION), OwnerStep([])];
            Left(Run(INITIAL, es))
    ensures RejectPending(PENDING_CANCELED, SLIP_BEFORE_TERMINATION).ok
  {
    RejectSlips();
    CancelThen(CallRejectPending(SLIP_BEFORE_TERMINATION));
  }

  const PENDING_CANCELED := PENDING.(lib := PENDING.lib.(due := {0}), queue := [CancelHandler(0)], sent := {0})
  const PENDING_DROPPED :=
    PENDING_CANCELED.(lib := Goals([Canceling], {}, [Transition(0, CancelGoal)], []), pending := None)

  lemma AcceptSlips()
    ensures Apply(PENDING_CANCELED, CallAcceptPending(SLIP_BEFORE_PROMOTION)) == PENDING_DROPPED
  {
    assert SlipAll(PENDING_CANCELED.lib, [0]) == Slip(PENDING_CANCELED.lib, 0);
    assert [Accepted][0 := Canceling] == [Canceling];
  }

  lemma RejectSlips()
    ensures RejectPending(PENDING_CANCELED, SLIP_BEFORE_TERMINATION) == Outcome(PENDING_DROPPED, true)
  {
    assert SlipAll(PENDING_CANCELED.lib, [0]) == Slip(PENDING_CANCELED.lib, 0);
    assert [Accepted][0 := Canceling] == [Canceling];
  }

  lemma CancelThen(e: Event)
    requires Apply(PENDING_CANCELED, e) == PENDING_DROPPED
    ensures Left(Run(INITIAL, FIRST_GOAL + [RequestCancel(0), e, OwnerStep([])]))
  {
    RunConcat(INITIAL, FIRST_GOAL, [RequestCancel(0), e, OwnerStep([])]);
    FirstGoalPending();
    RunThree(PENDING, RequestCancel(0), e, OwnerStep([]));
    PendingCanceled();
    HandlerFindsNothing(PENDING_DROPPED);
  }

  lemma PendingCanceled()
    ensures Apply(PENDING, RequestCancel(0)) == PENDING_CANCELED
  {
  }

  lemma HandlerFindsNothing(s: System)
    requires s.owner.Idle? && s.queue == [CancelHandler(0)] && !InSlot(s, 0)
    ensures Apply(s, OwnerStep([])) == s.(queue := [])
  {
  }
}
