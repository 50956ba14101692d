/**
SimpleActionServer as a state machine over the events of its environment.

A locked section of the server excludes other public calls, but not the CANCELING transitions: those
are made by the ROS executor after cancelCallback has returned. Every operation therefore takes a
schedule saying which due transitions slip in before its k-th access to a goal handle, and a run is
any sequence of events with any schedules. The empty schedule is the operation taken atomically.
*/
module ActionProtocol {
  import opened Wrappers
  import opened GoalStates

  type Schedule = seq<seq<nat>>

  /** The library at the k-th access to a goal handle in a locked section. */
  function At(l: Goals, sc: Schedule, k: nat): Goals {
    if k < |sc| then SlipAll(l, sc[k]) else l
  }

  /** The messages in the queue of the owner's execution engine (OwnThread operations). */
  datatype Message = AcceptedCallback(goal: nat) | CancelHandler(goal: nat)

  /** What the owner thread is doing: the hooks run with the mutex released. */
  datatype Owner = Idle | InGoalHook(goal: nat) | InCancelHook(goal: nat) {
    /** The callback that runs the hook has a handle of the goal. */
    predicate Holds(g: nat) { !Idle? && goal == g }
  }

  /**
  The server and its surroundings. `active`, `pending` are the two slots, `queue` the owner's queue.
  The remaining fields are history: the number of accepted callbacks run, the goals a cancel handler
  was sent for, the goals made active and the goals the cancel hook ran for, both in order.
  */
  datatype System = System(
    lib: Goals,
    active: Option<nat>,
    pending: Option<nat>,
    queue: seq<Message>,
    owner: Owner,
    offered: nat,
    sent: set<nat>,
    activated: seq<nat>,
    cancelHooks: seq<nat>)

  const INITIAL := System(Goals([], {}, [], []), None, None, [], Idle, 0, {}, [], [])

  /** The result of a public call: the new system and the value returned. */
  datatype Outcome = Outcome(sys: System, ok: bool)

  predicate IsExecutingAt(l: Goals, g: nat) { g < |l.state| && l.state[g].IsExecuting() }
  predicate IsCancelingAt(l: Goals, g: nat) { g < |l.state| && l.state[g].IsCanceling() }
  predicate IsActiveAt(l: Goals, g: nat) { g < |l.state| && l.state[g].IsActive() }

  // ---------------------------------------------------------------------------------------------
  // Private helpers of the server

  datatype Handle = Handle(lib: Goals, goal: Option<nat>)

  /** pendingGoalHandle(): the pending goal if it is still deferred. */
  function PendingHandle(l: Goals, pending: Option<nat>, sc: Schedule): Handle {
    if pending.None? then Handle(l, None) else
      var p := pending.value;
      var l1 := At(l, sc, 0);
      if !IsActiveAt(l1, p) then Handle(l1, None) else
        var l2 := At(l1, sc, 1);
        if IsExecutingAt(l2, p) then Handle(l2, None) else
          var l3 := At(l2, sc, 2);
          if IsCancelingAt(l3, p) then Handle(l3, None) else Handle(l3, pending)
  }

  /** terminateGoal(): ABORTED, or CANCELED when the goal is seen CANCELING; an exception ends it. */
  function Terminate(l: Goals, g: nat, sc: Schedule): Goals {
    var l1 := At(l, sc, 3);
    if IsCancelingAt(l1, g) then Fire(At(l1, sc, 4), g, CancelDone) else ExecuteAndAbort(l1, g, sc)
  }

  function ExecuteAndAbort(l: Goals, g: nat, sc: Schedule): Goals {
    var l1 := At(l, sc, 4);
    if IsExecutingAt(l1, g) then Fire(At(l1, sc, 6), g, Abort) else
      var l2 := At(l1, sc, 5);
      if !Enabled(l2, g, Execute) then l2
      else Fire(At(Fire(l2, g, Execute), sc, 6), g, Abort)
  }

  /** The library after an observation or a transition, and what was seen or whether it succeeded. */
  datatype Seen = Seen(lib: Goals, yes: bool)

  /** is_executing() || is_canceling() */
  function SeesLive(l: Goals, a: nat, sc: Schedule, k: nat): Seen {
    var l1 := At(l, sc, k);
    if IsExecutingAt(l1, a) then Seen(l1, true)
    else
      var l2 := At(l1, sc, k + 1);
      Seen(l2, IsCancelingAt(l2, a))
  }

  /** The active goal gets its result: CANCELED when it is seen CANCELING, ABORTED otherwise. */
  function FinishLive(l: Goals, a: nat, sc: Schedule): Seen {
    var l1 := At(l, sc, 5);
    var event := if IsCancelingAt(l1, a) then CancelDone else Abort;
    var l2 := At(l1, sc, 6);
    Seen(Fire(l2, a, event), Enabled(l2, a, event))
  }

  /** finishActive(); the parameter prefer_canceled only decides about a warning in the log. */
  function FinishActive(s: System, sc: Schedule): Outcome {
    if s.active.None? then Outcome(s, false) else
      var live := SeesLive(s.lib, s.active.value, sc, 3);
      if !live.yes then Outcome(s.(lib := live.lib, active := None), false)
      else
        var done := FinishLive(live.lib, s.active.value, sc);
        Outcome(s.(lib := done.lib, active := None), done.yes)
  }

  // ---------------------------------------------------------------------------------------------
  // Public calls

  /** The second half of acceptPending(): execute() the goal seen pending, which may throw. */
  function ExecutePending(s: System, p: nat, sc: Schedule): Outcome {
    var l := At(s.lib, sc, 7);
    if !Enabled(l, p, Execute) then
      Outcome(s.(lib := l, pending := None), false)
    else
      var promoted := s.(active := Some(p), pending := None, activated := s.activated + [p]);
      Outcome(promoted.(lib := Fire(l, p, Execute)), true)
  }

  function AcceptPending(s: System, sc: Schedule): Outcome {
    var h := PendingHandle(s.lib, s.pending, sc);
    if h.goal.None? then Outcome(s.(lib := h.lib), false) else
      ExecutePending(FinishActive(s.(lib := h.lib), sc).sys, h.goal.value, sc)
  }

  function RejectPending(s: System, sc: Schedule): Outcome {
    var h := PendingHandle(s.lib, s.pending, sc);
    if h.goal.None? then Outcome(s.(lib := h.lib), false)
    else Outcome(s.(lib := Terminate(h.lib, h.goal.value, sc), pending := None), true)
  }

  function SucceedActive(s: System, sc: Schedule): Outcome {
    if s.active.None? then Outcome(s, false) else
      var a := s.active.value;
      var live := SeesLive(s.lib, a, sc, 0);
      if !live.yes then Outcome(s.(lib := live.lib), false)
      else
        var l := At(live.lib, sc, 2);
        if !Enabled(l, a, Succeed) then Outcome(s.(lib := l), false)
        else Outcome(s.(lib := Fire(l, a, Succeed), active := None), true)
  }

  // ---------------------------------------------------------------------------------------------
  // Queries, each one locked section; those with several accesses to a handle take a schedule

  predicate IsActive(s: System) { s.active.Some? && IsExecutingAt(s.lib, s.active.value) }

  predicate IsPreempting(s: System) { s.active.Some? && IsCancelingAt(s.lib, s.active.value) }

  /** isPending() taken atomically. */
  predicate IsPending(s: System) { PendingHandle(s.lib, s.pending, []).goal.Some? }

  function GetActiveGoal(s: System, sc: Schedule): Handle {
    if s.active.None? then Handle(s.lib, None) else
      var seen := SeesLive(s.lib, s.active.value, sc, 0);
      Handle(seen.lib, if seen.yes then s.active else None)
  }

  function GetPendingGoal(s: System, sc: Schedule): Handle { PendingHandle(s.lib, s.pending, sc) }

  // ---------------------------------------------------------------------------------------------
  // Callbacks

  /** cancelCallback() in the thread of the executor: ACCEPT exactly the goals in the slots. */
  function CancelCallback(s: System, g: nat): Outcome {
    if s.active == Some(g) || s.pending == Some(g) then
      var lib := s.lib.(due := s.lib.due + {g});
      Outcome(s.(queue := s.queue + [CancelHandler(g)], sent := s.sent + {g}, lib := lib), true)
    else
      Outcome(s, false)
  }

  /** acceptedCallback() in the owner thread, up to the goal hook. */
  function RunAcceptedCallback(s: System, g: nat, sc: Schedule): System {
    var h := PendingHandle(s.lib, s.pending, sc);
    var l := if h.goal.Some? then Terminate(h.lib, h.goal.value, sc) else h.lib;
    s.(lib := l, pending := Some(g), offered := s.offered + 1, owner := InGoalHook(g))
  }

  /** cancelHandler() in the owner thread, up to the cancel hook. */
  function BeginCancelHandler(s: System, g: nat, sc: Schedule): System {
    if s.active == Some(g) then s.(owner := InCancelHook(g), cancelHooks := s.cancelHooks + [g])
    else if s.pending == Some(g) then s.(lib := Terminate(s.lib, g, sc), pending := None)
    else s
  }

  /** cancelHandler() after the cancel hook. */
  function EndCancelHandler(s: System, g: nat, sc: Schedule): System {
    (if s.active == Some(g) then FinishActive(s, sc).sys else s).(owner := Idle)
  }

  // ---------------------------------------------------------------------------------------------
  // Events and runs

  datatype Event =
    | Deliver                            // the library accepts a goal and sends acceptedCallback
    | RequestCancel(goal: nat)           // the library calls cancelCallback
    | CancelTransition(goal: nat)        // a due CANCELING transition happens
    | CallAcceptPending(sc: Schedule)    // public calls, by hooks or by any other thread
    | CallRejectPending(sc: Schedule)
    | CallAbortActive(sc: Schedule)
    | CallCancelActive(sc: Schedule)
    | CallSucceedActive(sc: Schedule)
    | OwnerStep(sc: Schedule)            // the idle owner takes the next message
    | HookReturn(sc: Schedule)           // the running hook returns
    | Shutdown
    | HandleReleased(goal: nat, abort: bool)  // the last handle of a goal is gone, the library ends the goal

  /** Nobody has a handle of the goal any more, and it has no result. */
  predicate Releasable(s: System, g: nat) {
    && g < |s.lib.state| && s.lib.state[g].IsActive()
    && s.active != Some(g) && s.pending != Some(g) && !s.owner.Holds(g)
    && g !in s.lib.due
    && (forall m | m in s.queue :: m.goal != g)
  }

  function Apply(s: System, e: Event): System {
    match e
    case Deliver =>
      s.(lib := s.lib.(state := s.lib.state + [Accepted]), queue := s.queue + [AcceptedCallback(|s.lib.state|)])
    case RequestCancel(g) => CancelCallback(s, g).sys
    case CancelTransition(g) => s.(lib := Slip(s.lib, g))
    case CallAcceptPending(sc) => AcceptPending(s, sc).sys
    case CallRejectPending(sc) => RejectPending(s, sc).sys
    case CallAbortActive(sc) => FinishActive(s, sc).sys
    case CallCancelActive(sc) => FinishActive(s, sc).sys
    case CallSucceedActive(sc) => SucceedActive(s, sc).sys
    case OwnerStep(sc) =>
      if !s.owner.Idle? || s.queue == [] then s else
        var s1 := s.(queue := s.queue[1..]);
        if s.queue[0].AcceptedCallback? then RunAcceptedCallback(s1, s.queue[0].goal, sc)
        else BeginCancelHandler(s1, s.queue[0].goal, sc)
    case HookReturn(sc) =>
      if s.owner.InCancelHook? then EndCancelHandler(s, s.owner.goal, sc) else s.(owner := Idle)
    case Shutdown => s.(active := None, pending := None)
    case HandleReleased(g, abort) =>
      if Releasable(s, g) then s.(lib := ReleaseHandle(s.lib, g, abort)) else s
  }

  function Run(s: System, es: seq<Event>): System
    decreases |es|
  {
    if es == [] then s else Run(Apply(s, es[0]), es[1..])
  }
}
