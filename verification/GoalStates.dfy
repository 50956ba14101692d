/**
The goal handles of rclcpp_action, as the action server sees them.

This is the contract the server relies on (ROS 2 design article "Actions", section "Goal States"):
a handle is a small state machine, an invalid transition throws and leaves the handle unchanged, and
a cancel request that the server has accepted makes its goal CANCELING at some later moment, in the
thread of the ROS executor and without holding the mutex of the server.
*/
module GoalStates {
  import opened Wrappers

  datatype GoalState = Accepted | Executing | Canceling | Succeeded | Canceled | Aborted {
    predicate IsActive() { Accepted? || Executing? || Canceling? }
    predicate IsExecuting() { Executing? }
    predicate IsCanceling() { Canceling? }
    predicate IsTerminal() { !IsActive() }
  }

  datatype GoalEvent = Execute | CancelGoal | Succeed | CancelDone | Abort {
    /** Events which deliver a result to the client. */
    predicate IsResult() { Succeed? || CancelDone? || Abort? }
  }

  /** The transition table. None stands for the exception thrown on an invalid transition. */
  function Next(s: GoalState, e: GoalEvent): Option<GoalState> {
    match (s, e)
    case (Accepted, Execute) => Some(Executing)
    case (Accepted, CancelGoal) => Some(Canceling)
    case (Executing, CancelGoal) => Some(Canceling)
    case (Executing, Succeed) => Some(Succeeded)
    case (Executing, Abort) => Some(Aborted)
    case (Canceling, Succeed) => Some(Succeeded)
    case (Canceling, Abort) => Some(Aborted)
    case (Canceling, CancelDone) => Some(Canceled)
    case _ => None
  }

  datatype Transition = Transition(goal: nat, event: GoalEvent)

  /**
  All goals the library has accepted, numbered in the order of their acceptance.
  `due` holds the goals with an accepted cancel request whose CANCELING transition is still to come,
  `log` every transition that has happened and `results` the results sent to the clients, in order.
  */
  datatype Goals = Goals(state: seq<GoalState>, due: set<nat>, log: seq<Transition>, results: seq<ClientResult>)

  /** A result as the client receives it. */
  datatype ClientResult = ClientResult(goal: nat, code: GoalState)

  function Code(e: GoalEvent): GoalState
    requires e.IsResult()
  {
    match e case Succeed => Succeeded case CancelDone => Canceled case Abort => Aborted
  }

  predicate Enabled(l: Goals, g: nat, e: GoalEvent) {
    g < |l.state| && Next(l.state[g], e).Some?
  }

  /** One call of a transition method on a goal handle. */
  function Fire(l: Goals, g: nat, e: GoalEvent): Goals {
    if Enabled(l, g, e) then
      l.(state := l.state[g := Next(l.state[g], e).value],
         log := l.log + [Transition(g, e)],
         results := l.results + if e.IsResult() then [ClientResult(g, Code(e))] else [])
    else
      l
  }

  /** The late CANCELING transition of one goal; the library swallows the exception if it is invalid. */
  function Slip(l: Goals, g: nat): Goals {
    if g in l.due then Fire(l.(due := l.due - {g}), g, CancelGoal) else l
  }

  function SlipAll(l: Goals, gs: seq<nat>): Goals
    decreases |gs|
  {
    if gs == [] then l else SlipAll(Slip(l, gs[0]), gs[1..])
  }

  /**
  The last handle of a goal is released before the goal has a result: the library ends the goal itself.
  Whether it aborts or cancels the goal is left open.
  */
  function ReleaseHandle(l: Goals, g: nat, abort: bool): Goals {
    if abort then Fire(Fire(l, g, Execute), g, Abort) else Fire(Fire(l, g, CancelGoal), g, CancelDone)
  }

  // ---------------------------------------------------------------------------------------------
  // What late transitions can do

  /** Goal g is where it was, or became CANCELING because a cancel request was due for it. */
  predicate SameOrSlipped(l: Goals, l': Goals, g: nat)
    requires g < |l.state| == |l'.state|
  {
    || l'.state[g] == l.state[g]
    || (g in l.due && g !in l'.due && l'.state[g].Canceling? && (l.state[g].Accepted? || l.state[g].Executing?))
  }

  /** Between l and l' only the goals in `touched` were operated on; all others at most slipped. */
  ghost predicate Frame(l: Goals, l': Goals, touched: set<nat>) {
    && |l'.state| == |l.state|
    && l'.due <= l.due
    && (forall g | 0 <= g < |l.state| && g !in touched :: SameOrSlipped(l, l', g))
  }

  /** The frame in terms of the states. */
  lemma FrameStates(l: Goals, l': Goals, touched: set<nat>)
    requires Frame(l, l', touched)
    ensures forall g | 0 <= g < |l.state| && g !in touched ::
              || l'.state[g] == l.state[g]
              || (g in l.due && l'.state[g].Canceling? && (l.state[g].Accepted? || l.state[g].Executing?))
  {
    forall g | 0 <= g < |l.state| && g !in touched
      ensures || l'.state[g] == l.state[g]
              || (g in l.due && l'.state[g].Canceling? && (l.state[g].Accepted? || l.state[g].Executing?))
    {
      assert SameOrSlipped(l, l', g);
    }
  }

  lemma FrameTrans(l0: Goals, l1: Goals, l2: Goals, touched: set<nat>)
    requires Frame(l0, l1, touched) && Frame(l1, l2, touched)
    ensures Frame(l0, l2, touched)
  {
    forall g | 0 <= g < |l0.state| && g !in touched
      ensures SameOrSlipped(l0, l2, g)
    {
      assert SameOrSlipped(l0, l1, g) && SameOrSlipped(l1, l2, g);
    }
  }

  lemma {:induction false} SlipFrame(l: Goals, gs: seq<nat>)
    ensures Frame(l, SlipAll(l, gs), {})
    ensures WellFormed(l) ==> WellFormed(SlipAll(l, gs))
    ensures SlipAll(l, gs).results == l.results
    decreases |gs|
  {
    if gs == [] {
    } else {
      var l1 := Slip(l, gs[0]);
      assert Frame(l, l1, {});
      if WellFormed(l) {
        FireKeepsWellFormed(l.(due := l.due - {gs[0]}), gs[0], CancelGoal);
      }
      SlipFrame(l1, gs[1..]);
      FrameTrans(l, l1, SlipAll(l1, gs[1..]), {});
    }
  }

  // ---------------------------------------------------------------------------------------------
  // The log determines the states

  /** The state of goal g after the transitions in log, or None if one of its transitions was invalid. */
  function Replay(log: seq<Transition>, g: nat): Option<GoalState> {
    if log == [] then Some(Accepted)
    else
      var before := Replay(log[..|log| - 1], g);
      var t := log[|log| - 1];
      if before.None? || t.goal != g then before else Next(before.value, t.event)
  }

  /** The results a log has delivered. */
  function Results(log: seq<Transition>): seq<ClientResult> {
    if log == [] then [] else
      var t := log[|log| - 1];
      Results(log[..|log| - 1]) + if t.event.IsResult() then [ClientResult(t.goal, Code(t.event))] else []
  }

  ghost predicate WellFormed(l: Goals) {
    && (forall g | g in l.due :: g < |l.state|)
    && (forall i | 0 <= i < |l.log| :: l.log[i].goal < |l.state|)
    && (forall g | 0 <= g < |l.state| :: Replay(l.log, g) == Some(l.state[g]))
    && |l.log| <= Rank(l.state)
    && l.results == Results(l.log)
  }

  /** How far a goal has come; every transition raises it. */
  function Progress(s: GoalState): nat {
    match s
    case Accepted => 0
    case Executing => 1
    case Canceling => 2
    case _ => 3
  }

  function Rank(states: seq<GoalState>): nat {
    if states == [] then 0 else Progress(states[0]) + Rank(states[1..])
  }

  lemma {:induction false} RankUpdate(states: seq<GoalState>, g: nat, s: GoalState)
    requires g < |states|
    ensures Rank(states[g := s]) == Rank(states) - Progress(states[g]) + Progress(s)
  {
    if g == 0 {
      assert states[0 := s][1..] == states[1..];
    } else {
      assert states[g := s][1..] == states[1..][g - 1 := s];
      RankUpdate(states[1..], g - 1, s);
    }
  }

  lemma {:induction false} RankBound(states: seq<GoalState>)
    ensures Rank(states) <= 3 * |states|
  {
    if states == [] {
    } else {
      RankBound(states[1..]);
    }
  }

  lemma {:induction false} RankAppend(states: seq<GoalState>)
    ensures Rank(states + [Accepted]) == Rank(states)
  {
    if states == [] {
      assert states + [Accepted] == [Accepted];
    } else {
      assert (states + [Accepted])[1..] == states[1..] + [Accepted];
      RankAppend(states[1..]);
    }
  }

  lemma FireKeepsWellFormed(l: Goals, g: nat, e: GoalEvent)
    requires WellFormed(l)
    ensures WellFormed(Fire(l, g, e))
  {
    if Enabled(l, g, e) {
      var l' := Fire(l, g, e);
      assert l'.log[..|l'.log| - 1] == l.log;
      RankUpdate(l.state, g, l'.state[g]);
    }
  }

  /** A goal no transition mentions is still ACCEPTED. */
  lemma {:induction false} ReplayUntouched(log: seq<Transition>, g: nat)
    requires forall i | 0 <= i < |log| :: log[i].goal != g
    ensures Replay(log, g) == Some(Accepted)
  {
    if log == [] {
    } else {
      ReplayUntouched(log[..|log| - 1], g);
    }
  }

  lemma NewGoalKeepsWellFormed(l: Goals)
    requires WellFormed(l)
    ensures WellFormed(l.(state := l.state + [Accepted]))
  {
    ReplayUntouched(l.log, |l.state|);
    RankAppend(l.state);
  }

  // ---------------------------------------------------------------------------------------------
  // What every log of handle transitions satisfies

  predicate OnePerGoal(rs: seq<ClientResult>) {
    forall i, j | 0 <= i < j < |rs| :: rs[i].goal != rs[j].goal
  }

  lemma {:induction false} ResultsOfGoal(log: seq<Transition>, g: nat)
    requires Replay(log, g).Some?
    ensures Replay(log, g).value.IsTerminal() ==> ClientResult(g, Replay(log, g).value) in Results(log)
    ensures forall r :: r in Results(log) && r.goal == g ==> Replay(log, g) == Some(r.code)
    ensures forall r :: r in Results(log) ==> r.code.IsTerminal()
  {
    if log == [] {
    } else {
      ResultsOfGoal(log[..|log| - 1], g);
    }
  }

  lemma {:induction false} ResultsDistinct(log: seq<Transition>)
    requires forall i | 0 <= i < |log| :: Replay(log, log[i].goal).Some?
    ensures OnePerGoal(Results(log))
  {
    if log == [] {
    } else {
      var shorter := log[..|log| - 1];
      forall i | 0 <= i < |shorter| ensures Replay(shorter, shorter[i].goal).Some? {
        assert Replay(log, log[i].goal).Some?;
      }
      ResultsDistinct(shorter);
      var g := log[|log| - 1].goal;
      assert Replay(log, g).Some?;
      ResultsOfGoal(shorter, g);
    }
  }

  /** The goals with a result are the terminal ones; each has one result, that of its state. */
  lemma OneResultPerGoal(l: Goals)
    requires WellFormed(l)
    ensures var rs := l.results;
            && OnePerGoal(rs)
            && (forall g | 0 <= g < |l.state| :: l.state[g].IsTerminal() <==> ClientResult(g, l.state[g]) in rs)
            && (forall r :: r in rs && r.goal < |l.state| ==> r.code == l.state[r.goal])
  {
    forall i | 0 <= i < |l.log| ensures Replay(l.log, l.log[i].goal).Some? {
      var g := l.log[i].goal;
      assert Replay(l.log, g) == Some(l.state[g]);
    }
    ResultsDistinct(l.log);
    forall g | 0 <= g < |l.state|
      ensures l.state[g].IsTerminal() <==> ClientResult(g, l.state[g]) in l.results
    {
      ResultsOfGoal(l.log, g);
    }
    forall r | r in l.results && r.goal < |l.state| ensures r.code == l.state[r.goal] {
      ResultsOfGoal(l.log, r.goal);
    }
  }

  lemma NoResultYet(l: Goals, g: nat)
    requires WellFormed(l) && g < |l.state| && !l.state[g].IsTerminal()
    ensures forall r :: r in l.results ==> r.goal != g
  {
    OneResultPerGoal(l);
    ResultsOfGoal(l.log, g);
  }

  /** CANCELED is reached only through CANCELING. */
  lemma {:induction false} CanceledWasCanceling(log: seq<Transition>, g: nat)
    requires Replay(log, g) == Some(Canceled) || Replay(log, g) == Some(Canceling)
    ensures Transition(g, CancelGoal) in log
  {
    if log[|log| - 1] == Transition(g, CancelGoal) {
    } else {
      CanceledWasCanceling(log[..|log| - 1], g);
    }
  }

  /** Each goal handle makes at most three transitions. */
  lemma TransitionBound(l: Goals)
    requires WellFormed(l)
    ensures |l.log| <= 3 * |l.state|
  {
    RankBound(l.state);
  }
}
