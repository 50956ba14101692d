/**
The race between a locked section of the action server and the CANCELING transitions that are due:
exactly which transitions, slipping in before which access to a handle, decide about each outcome.
*/
module ActionRaces {
  import opened Wrappers
  import opened GoalStates
  import opened ActionProtocol

  /** The transition of goal g is scheduled just before access k. */
  predicate SlipsAt(sc: Schedule, k: nat, g: nat) { k < |sc| && g in sc[k] }

  function Slipped(s: GoalState): GoalState {
    if s.Accepted? || s.Executing? then Canceling else s
  }

  /** From l to l' goal g was not operated on; its transition happened if it was due and slipsIn holds. */
  predicate OnlySlipped(l: Goals, l': Goals, g: nat, slipsIn: bool)
    requires g < |l.state|
  {
    && |l'.state| == |l.state|
    && l'.state[g] == (if g in l.due && slipsIn then Slipped(l.state[g]) else l.state[g])
    && (g in l'.due <==> g in l.due && !slipsIn)
  }

  lemma {:induction false} SlipAllOf(l: Goals, gs: seq<nat>, g: nat)
    requires g < |l.state|
    ensures OnlySlipped(l, SlipAll(l, gs), g, g in gs)
    decreases |gs|
  {
    if gs == [] {
    } else {
      SlipAllOf(Slip(l, gs[0]), gs[1..], g);
    }
  }

  lemma AtOf(l: Goals, sc: Schedule, k: nat, g: nat)
    requires g < |l.state|
    ensures OnlySlipped(l, At(l, sc, k), g, SlipsAt(sc, k, g))
  {
    if k < |sc| { SlipAllOf(l, sc[k], g); }
  }

  // ---------------------------------------------------------------------------------------------
  // Looking at the pending goal

  predicate Deferred(l: Goals, p: nat) {
    p < |l.state| && (l.state[p].Accepted? || l.state[p].Canceling?)
  }

  predicate SlipsAtLooks(sc: Schedule, g: nat) { SlipsAt(sc, 0, g) || SlipsAt(sc, 1, g) || SlipsAt(sc, 2, g) }

  /** pendingGoalHandle() returns the goal iff it is not CANCELING and does not become so meanwhile. */
  lemma HandleReturnedIff(l: Goals, p: nat, sc: Schedule)
    requires Deferred(l, p)
    ensures PendingHandle(l, Some(p), sc).goal.Some? <==> l.state[p].Accepted? && !(p in l.due && SlipsAtLooks(sc, p))
    ensures var h := PendingHandle(l, Some(p), sc);
            h.goal.None? ==> && |h.lib.state| == |l.state| && h.lib.state[p].Canceling?
                             && (l.state[p].Accepted? ==> p in l.due && p !in h.lib.due)
  {
    var l1 := At(l, sc, 0);
    var l2 := At(l1, sc, 1);
    AtOf(l, sc, 0, p);
    AtOf(l1, sc, 1, p);
    AtOf(l2, sc, 2, p);
  }

  lemma LooksOf(l: Goals, p: nat, sc: Schedule, g: nat)
    requires PendingHandle(l, Some(p), sc).goal.Some? && g < |l.state|
    ensures OnlySlipped(l, PendingHandle(l, Some(p), sc).lib, g, SlipsAtLooks(sc, g))
  {
    var l1 := At(l, sc, 0);
    var l2 := At(l1, sc, 1);
    AtOf(l, sc, 0, g);
    AtOf(l1, sc, 1, g);
    AtOf(l2, sc, 2, g);
  }

  // ---------------------------------------------------------------------------------------------
  // Terminating a deferred goal

  /** The transition comes after terminateGoal() has seen the goal not CANCELING and before it calls execute(). */
  predicate SlipsBeforeExecute(l: Goals, sc: Schedule, g: nat) {
    g in l.due && !SlipsAt(sc, 3, g) && (SlipsAt(sc, 4, g) || SlipsAt(sc, 5, g))
  }

  /** How terminateGoal() leaves a goal: CANCELING, without a result, iff it slips just before execute(). */
  function TerminatedState(l: Goals, sc: Schedule, g: nat): GoalState
    requires g < |l.state|
  {
    if l.state[g].Canceling? || (g in l.due && SlipsAt(sc, 3, g)) then Canceled
    else if SlipsBeforeExecute(l, sc, g) then Canceling
    else Aborted
  }

  lemma TerminatedAs(l: Goals, g: nat, sc: Schedule)
    requires Deferred(l, g)
    ensures |Terminate(l, g, sc).state| == |l.state|
    ensures var st := Terminate(l, g, sc).state[g];
            && st == TerminatedState(l, sc, g)
            && (l.state[g].Accepted? && !st.Aborted? ==> g in l.due && g !in Terminate(l, g, sc).due)
  {
    var l1 := At(l, sc, 3);
    var l2 := At(l1, sc, 4);
    var l3 := At(l2, sc, 5);
    AtOf(l, sc, 3, g);
    AtOf(l1, sc, 4, g);
    AtOf(l2, sc, 5, g);
    AtOf(Fire(l3, g, Execute), sc, 6, g);
  }

  /** The pending goal is CANCELING, or becomes so, before anybody calls execute() to end it. */
  predicate CancelsBeforeEnd(l: Goals, sc: Schedule, p: nat)
    requires p < |l.state|
  {
    l.state[p].Canceling? || (p in l.due && SlipsAtLooks(sc, p))
  }

  /** How a pending goal is left that rejectPending() or acceptedCallback() is to end. */
  function EndedState(l: Goals, sc: Schedule, p: nat): GoalState
    requires p < |l.state|
  {
    if CancelsBeforeEnd(l, sc, p) then Canceling else TerminatedState(l, sc, p)
  }

  /** rejectPending() and the outcome of the pending goal. */
  lemma RejectedAs(s: System, sc: Schedule)
    requires s.pending.Some? && Deferred(s.lib, s.pending.value)
    ensures var p := s.pending.value; var out := RejectPending(s, sc); var l := out.sys.lib;
            && p < |l.state|
            && (out.ok <==> out.sys.pending.None?)
            && (out.ok <==> !CancelsBeforeEnd(s.lib, sc, p))
            && l.state[p] == EndedState(s.lib, sc, p)
  {
    ReplacedAs(s, 0, sc);
    HandleReturnedIff(s.lib, s.pending.value, sc);
  }

  /** acceptedCallback() and the outcome of the goal it replaces. */
  lemma ReplacedAs(s: System, g: nat, sc: Schedule)
    requires s.pending.Some? && Deferred(s.lib, s.pending.value)
    ensures var p := s.pending.value; var l := RunAcceptedCallback(s, g, sc).lib;
            && p < |l.state|
            && l.state[p] == EndedState(s.lib, sc, p)
            && (s.lib.state[p].Accepted? && !l.state[p].Aborted? ==> p in s.lib.due && p !in l.due)
  {
    var p := s.pending.value;
    HandleReturnedIff(s.lib, p, sc);
    if PendingHandle(s.lib, s.pending, sc).goal.Some? {
      LooksOf(s.lib, p, sc, p);
      TerminatedAs(PendingHandle(s.lib, s.pending, sc).lib, p, sc);
    }
  }

  // ---------------------------------------------------------------------------------------------
  // Finishing the active goal

  predicate Live(l: Goals, a: nat) {
    a < |l.state| && (l.state[a].Executing? || l.state[a].Canceling?)
  }

  /** The active goal ends CANCELED iff finishActive() sees it CANCELING at one of its two looks. */
  function FinishedState(l: Goals, sc: Schedule, a: nat): GoalState
    requires a < |l.state|
  {
    if l.state[a].Canceling? || (a in l.due && (SlipsAt(sc, 3, a) || SlipsAt(sc, 5, a))) then Canceled else Aborted
  }

  lemma FinishedAs(s: System, sc: Schedule)
    requires s.active.Some? && Live(s.lib, s.active.value)
    ensures var a := s.active.value; var l := FinishActive(s, sc).sys.lib;
            && |l.state| == |s.lib.state|
            && l.state[a] == FinishedState(s.lib, sc, a)
            && (s.lib.state[a].Executing? && l.state[a].Canceled? ==> a in s.lib.due && a !in l.due)
  {
    var a := s.active.value;
    var l1 := At(s.lib, sc, 3);
    AtOf(s.lib, sc, 3, a);
    AtOf(l1, sc, 4, a);
    var l2 := SeesLive(s.lib, a, sc, 3).lib;
    AtOf(l2, sc, 5, a);
    AtOf(At(l2, sc, 5), sc, 6, a);
  }

  /** Another goal slips at an access of finishActive(); the second look is made only at a CANCELING goal. */
  predicate SlipsWhileFinishing(l: Goals, sc: Schedule, a: nat, g: nat)
    requires a < |l.state|
  {
    || SlipsAt(sc, 3, g) || SlipsAt(sc, 5, g) || SlipsAt(sc, 6, g)
    || (SlipsAt(sc, 4, g) && (l.state[a].Canceling? || (a in l.due && SlipsAt(sc, 3, a))))
  }

  lemma FinishOf(s: System, sc: Schedule, g: nat)
    requires s.active.Some? && Live(s.lib, s.active.value) && g < |s.lib.state| && s.active != Some(g)
    ensures OnlySlipped(s.lib, FinishActive(s, sc).sys.lib, g, SlipsWhileFinishing(s.lib, sc, s.active.value, g))
  {
    var a := s.active.value;
    var l1 := At(s.lib, sc, 3);
    AtOf(s.lib, sc, 3, a);
    AtOf(s.lib, sc, 3, g);
    AtOf(l1, sc, 4, a);
    AtOf(l1, sc, 4, g);
    var l2 := SeesLive(s.lib, a, sc, 3).lib;
    AtOf(l2, sc, 5, g);
    AtOf(l2, sc, 5, a);
    AtOf(At(l2, sc, 5), sc, 6, g);
  }

  // ---------------------------------------------------------------------------------------------
  // Accepting the pending goal

  /** The transition comes after acceptPending() has seen the goal pending and before it calls execute(). */
  predicate SlipsBeforePromotion(s: System, sc: Schedule)
    requires s.pending.Some? && (s.active.Some? ==> s.active.value < |s.lib.state|)
  {
    var p := s.pending.value;
    && p in s.lib.due
    && (|| SlipsAt(sc, 7, p)
        || (s.active.Some? && var a := s.active.value;
              || SlipsAt(sc, 3, p) || SlipsAt(sc, 5, p) || SlipsAt(sc, 6, p)
              || (SlipsAt(sc, 4, p) &&
                  (s.lib.state[a].Canceling? || (a in s.lib.due && (SlipsAtLooks(sc, a) || SlipsAt(sc, 3, a)))))))
  }

  /**
  acceptPending() succeeds iff the pending goal does not become CANCELING before execute(). It drops
  the goal without a result iff it does so after the goal was seen pending, and leaves it in its slot
  iff before. In the first two cases the active goal is finished.
  */
  lemma AcceptedIff(s: System, sc: Schedule)
    requires s.active.Some? ==> Live(s.lib, s.active.value)
    requires s.pending.Some? && Deferred(s.lib, s.pending.value) && s.pending != s.active
    ensures var p := s.pending.value; var out := AcceptPending(s, sc); var s' := out.sys;
            && p < |s'.lib.state|
            && (out.ok <==> !CancelsBeforeEnd(s.lib, sc, p) && !SlipsBeforePromotion(s, sc))
            && (out.ok <==> s'.lib.state[p].Executing?)
            && (s'.pending.None? && !out.ok <==> !CancelsBeforeEnd(s.lib, sc, p) && SlipsBeforePromotion(s, sc))
            && (s'.pending == s.pending <==> CancelsBeforeEnd(s.lib, sc, p))
            && (!out.ok ==> s'.lib.state[p].Canceling?)
  {
    var p := s.pending.value;
    HandleReturnedIff(s.lib, p, sc);
    var h := PendingHandle(s.lib, s.pending, sc);
    if h.goal.Some? {
      var s0 := s.(lib := h.lib);
      LooksOf(s.lib, p, sc, p);
      if s.active.Some? {
        LooksOf(s.lib, p, sc, s.active.value);
        FinishOf(s0, sc, p);
      }
      AtOf(FinishActive(s0, sc).sys.lib, sc, 7, p);
    }
  }

  /** acceptPending() finishes the active goal iff it saw a pending one: CANCELED iff it slipped in time. */
  lemma AcceptFinishesIff(s: System, sc: Schedule)
    requires s.active.Some? && Live(s.lib, s.active.value)
    requires s.pending.Some? && Deferred(s.lib, s.pending.value) && s.pending != s.active
    ensures var a, p := s.active.value, s.pending.value; var s' := AcceptPending(s, sc).sys;
            && a < |s'.lib.state|
            && (s'.active == s.active <==> CancelsBeforeEnd(s.lib, sc, p))
            && (s'.lib.state[a].IsTerminal() <==> !CancelsBeforeEnd(s.lib, sc, p))
            && (s'.lib.state[a].Canceled? <==>
                  && !CancelsBeforeEnd(s.lib, sc, p)
                  && (|| s.lib.state[a].Canceling?
                      || (a in s.lib.due && (SlipsAtLooks(sc, a) || SlipsAt(sc, 3, a) || SlipsAt(sc, 5, a)))))
            && (s'.lib.state[a].Aborted? <==> s'.lib.state[a].IsTerminal() && !s'.lib.state[a].Canceled?)
  {
    var a, p := s.active.value, s.pending.value;
    HandleReturnedIff(s.lib, p, sc);
    var h := PendingHandle(s.lib, s.pending, sc);
    if h.goal.Some? {
      var s0 := s.(lib := h.lib);
      LooksOf(s.lib, p, sc, a);
      LooksOf(s.lib, p, sc, p);
      FinishedAs(s0, sc);
      FinishOf(s0, sc, p);
      AtOf(FinishActive(s0, sc).sys.lib, sc, 7, a);
      AtOf(FinishActive(s0, sc).sys.lib, sc, 7, p);
    } else {
      LookedAtOf(s.lib, p, sc, a);
    }
  }

  /** Looking at the pending goal at most cancels the active one. */
  lemma LookedAtOf(l: Goals, p: nat, sc: Schedule, a: nat)
    requires p < |l.state| && Live(l, a)
    ensures Live(PendingHandle(l, Some(p), sc).lib, a)
  {
    var l1 := At(l, sc, 0);
    var l2 := At(l1, sc, 1);
    AtOf(l, sc, 0, a);
    AtOf(l1, sc, 1, a);
    AtOf(l2, sc, 2, a);
  }
}
