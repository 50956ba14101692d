/**
The guarantees of SimpleActionServer, over every run from its creation.
*/
module ActionTheorems {
  import opened Wrappers
  import opened Sequences
  import opened GoalStates
  import opened ActionProtocol
  import opened ActionRaces
  import opened ActionEffects
  import opened ActionInvariants

  predicate NoShutdown(es: seq<Event>) {
    forall i :: 0 <= i < |es| ==> !es[i].Shutdown?
  }

  lemma {:induction false} RunKeepsInv(s: System, es: seq<Event>)
    requires Inv(s)
    ensures Inv(Run(s, es))
    ensures NoneStranded(s) && NoShutdown(es) ==> NoneStranded(Run(s, es))
    decreases |es|
  {
    if es == [] {
    } else {
      KeepsInv(s, es[0]);
      RunKeepsInv(Apply(s, es[0]), es[1..]);
    }
  }

  lemma {:induction false} RunConcat(s: System, es: seq<Event>, more: seq<Event>)
    ensures Run(s, es + more) == Run(Run(s, es), more)
    decreases |es|
  {
    if es == [] {
      assert es + more == more;
    } else {
      assert (es + more)[1..] == es[1..] + more;
      RunConcat(Apply(s, es[0]), es[1..], more);
    }
  }

  // ---------------------------------------------------------------------------------------------
  // The slots

  /** The slots always hold goals they are meant for, and only the active goal is EXECUTING. */
  lemma SlotsHoldLiveGoals(es: seq<Event>)
    ensures var s := Run(INITIAL, es);
            && (s.active.Some? ==> s.active.value < |s.lib.state| &&
                                   s.lib.state[s.active.value] in {Executing, Canceling})
            && (s.pending.Some? ==> s.pending.value < |s.lib.state| &&
                                    s.lib.state[s.pending.value] in {Accepted, Canceling})
            && (s.active.Some? ==> s.active != s.pending)
            && (NoShutdown(es) ==>
                  forall g | 0 <= g < |s.lib.state| :: s.lib.state[g].Executing? ==> s.active == Some(g))
  {
    RunKeepsInv(INITIAL, es);
  }

  /** The newest goal wins, and goals become active in the order of their delivery. */
  lemma NewestGoalWins(es: seq<Event>)
    ensures var s := Run(INITIAL, es);
            && (s.pending.Some? ==> s.pending.value == s.offered - 1)
            && (s.active.Some? && s.pending.Some? ==> s.active.value < s.pending.value)
            && (s.active.Some? ==> s.activated != [] && s.activated[|s.activated| - 1] == s.active.value)
            && (forall i, j :: 0 <= i < j < |s.activated| ==> s.activated[i] < s.activated[j])
  {
    RunKeepsInv(INITIAL, es);
  }

  // ---------------------------------------------------------------------------------------------
  // Results

  /**
  No goal is stranded. A goal that was ever active is active or has its result; so does every offered
  goal nobody asked to cancel, unless it is pending. What remains is a goal that was replaced,
  accepted or rejected while a client was canceling it: the server leaves it CANCELING to the library.
  */
  lemma NoGoalStranded(es: seq<Event>, g: nat)
    requires NoShutdown(es) && g < Run(INITIAL, es).offered
    ensures var s := Run(INITIAL, es);
            && g < |s.lib.state|
            && (InSlot(s, g) || s.lib.state[g].IsTerminal() || (s.lib.state[g].Canceling? && g in s.sent))
            && (g in s.activated ==> s.active == Some(g) || s.lib.state[g].IsTerminal())
            && (g !in s.sent ==> InSlot(s, g) || s.lib.state[g].IsTerminal())
  {
    RunKeepsInv(INITIAL, es);
    var s := Run(INITIAL, es);
    if g in s.activated && s.pending == Some(g) { assert false; }
  }

  /** Once the owner has drained its queue, no goal with an accepted cancel request occupies a slot. */
  lemma DrainedQueueLeavesNoCancel(es: seq<Event>, g: nat)
    requires var s := Run(INITIAL, es); s.owner.Idle? && s.queue == [] && g in s.sent
    ensures !InSlot(Run(INITIAL, es), g)
  {
    RunKeepsInv(INITIAL, es);
  }

  /** Clients get at most one result per goal: the one of its state, and CANCELED only after CANCELING. */
  lemma OneResultOverARun(es: seq<Event>)
    ensures var l := Run(INITIAL, es).lib;
            && OnePerGoal(l.results)
            && (forall g | 0 <= g < |l.state| ::
                  l.state[g].IsTerminal() <==> ClientResult(g, l.state[g]) in l.results)
            && (forall g | 0 <= g < |l.state| :: l.state[g].Canceled? ==> Transition(g, CancelGoal) in l.log)
            && |l.log| <= 3 * |l.state|
  {
    RunKeepsInv(INITIAL, es);
    var l := Run(INITIAL, es).lib;
    OneResultPerGoal(l);
    TransitionBound(l);
    forall g | 0 <= g < |l.state| && l.state[g].Canceled? ensures Transition(g, CancelGoal) in l.log {
      CanceledWasCanceling(l.log, g);
    }
  }

  /** A goal the server has no handle of any more, and which is done or being canceled. */
  predicate LetGo(s: System, g: nat) {
    g < |s.lib.state| && !InSlot(s, g) && (s.lib.state[g].IsTerminal() || s.lib.state[g].Canceling?)
  }

  /** The library ends goal g. */
  predicate Releases(s: System, e: Event, g: nat) { e.HandleReleased? && e.goal == g && Releasable(s, g) }

  lemma StepKeepsLetGo(s: System, e: Event, g: nat)
    requires Inv(s) && LetGo(s, g)
    ensures LetGo(Apply(s, e), g)
    ensures if Releases(s, e, g) then Apply(s, e).lib.state[g].IsTerminal()
            else Apply(s, e).lib.state[g] == s.lib.state[g]
  {
    match e
    case CancelTransition(h) =>
      SlipOneFrame(s.lib, h);
      assert SameOrSlipped(s.lib, Slip(s.lib, h), g);
    case CallAcceptPending(sc) => PendingCallKeepsLetGo(s, e, g);
    case CallRejectPending(sc) => PendingCallKeepsLetGo(s, e, g);
    case CallAbortActive(sc) => FinishKeepsLetGo(s, sc, g);
    case CallCancelActive(sc) => FinishKeepsLetGo(s, sc, g);
    case CallSucceedActive(sc) =>
      if s.active.Some? {
        SucceedEffect(s, sc);
        assert SameOrSlipped(s.lib, Apply(s, e).lib, g);
      }
    case OwnerStep(sc) => if s.owner.Idle? && s.queue != [] { OwnerKeepsLetGo(s, sc, g); }
    case HookReturn(sc) => FinishKeepsLetGo(s, sc, g);
    case HandleReleased(h, abort) => ReleaseKeepsLetGo(s, e, g);
    case _ =>
  }

  lemma ReleaseKeepsLetGo(s: System, e: Event, g: nat)
    requires LetGo(s, g) && e.HandleReleased?
    ensures LetGo(Apply(s, e), g)
    ensures if Releases(s, e, g) then Apply(s, e).lib.state[g].IsTerminal()
            else Apply(s, e).lib.state[g] == s.lib.state[g]
  {
    if Releasable(s, e.goal) { ReleaseEffect(s.lib, e.goal, e.abort); }
  }

  lemma PendingCallKeepsLetGo(s: System, e: Event, g: nat)
    requires Inv(s) && LetGo(s, g) && (e.CallAcceptPending? || e.CallRejectPending?)
    ensures LetGo(Apply(s, e), g) && Apply(s, e).lib.state[g] == s.lib.state[g]
  {
    if e.CallAcceptPending? { AcceptEffect(s, e.sc); } else { RejectEffect(s, e.sc); }
    assert SameOrSlipped(s.lib, Apply(s, e).lib, g);
  }

  lemma OwnerKeepsLetGo(s: System, sc: Schedule, g: nat)
    requires Inv(s) && LetGo(s, g) && s.owner.Idle? && s.queue != []
    ensures var s' := Apply(s, OwnerStep(sc)); LetGo(s', g) && s'.lib.state[g] == s.lib.state[g]
  {
    var h := s.queue[0].goal;
    if s.queue[0].AcceptedCallback? {
      NextOffer(s);
      ReplacedEffect(s.(queue := s.queue[1..]), h, sc);
      assert SameOrSlipped(s.lib, Apply(s, OwnerStep(sc)).lib, g);
    } else if s.active != Some(h) && s.pending == Some(h) {
      TerminateEffect(s.lib, h, sc);
      assert SameOrSlipped(s.lib, Terminate(s.lib, h, sc), g);
    }
  }

  lemma FinishKeepsLetGo(s: System, sc: Schedule, g: nat)
    requires SlotsTyped(s) && LetGo(s, g)
    ensures var s' := FinishActive(s, sc).sys; LetGo(s', g) && s'.lib.state[g] == s.lib.state[g]
  {
    if s.active.Some? {
      FinishEffect(s, sc);
      assert SameOrSlipped(s.lib, FinishActive(s, sc).sys.lib, g);
    }
  }

  /** The library ends goal g at some event of the run. */
  predicate ReleasedIn(s: System, es: seq<Event>, g: nat)
    decreases |es|
  {
    es != [] && (Releases(s, es[0], g) || ReleasedIn(Apply(s, es[0]), es[1..], g))
  }

  lemma {:induction false} LetGoForever(s: System, es: seq<Event>, g: nat)
    requires Inv(s) && LetGo(s, g)
    ensures LetGo(Run(s, es), g)
    ensures if ReleasedIn(s, es, g) then s.lib.state[g].Canceling? && Run(s, es).lib.state[g].IsTerminal()
            else Run(s, es).lib.state[g] == s.lib.state[g]
    decreases |es|
  {
    if es == [] {
    } else {
      StepKeepsLetGo(s, es[0], g);
      KeepsInv(s, es[0]);
      LetGoForever(Apply(s, es[0]), es[1..], g);
    }
  }

  /** A goal never leaves a terminal state, whatever happens later. */
  lemma TerminalForever(s: System, es: seq<Event>, g: nat)
    requires Inv(s) && g < |s.lib.state| && s.lib.state[g].IsTerminal()
    ensures var s' := Run(s, es); g < |s'.lib.state| && s'.lib.state[g] == s.lib.state[g]
  {
    LetGoForever(s, es, g);
  }

  /**
  The server never gives a result to a goal that is CANCELING in no slot: in every later run it has a
  result if and only if the library has released it.
  */
  lemma LeftToTheLibrary(s: System, es: seq<Event>, g: nat)
    requires Inv(s) && g < |s.lib.state| && s.lib.state[g].Canceling? && !InSlot(s, g)
    ensures var s' := Run(s, es);
            && g < |s'.lib.state| && !InSlot(s', g)
            && (s'.lib.state[g].IsTerminal() <==> ReleasedIn(s, es, g))
            && ((exists r :: r in s'.lib.results && r.goal == g) <==> ReleasedIn(s, es, g))
            && (!ReleasedIn(s, es, g) ==> s'.lib.state[g].Canceling?)
  {
    LetGoForever(s, es, g);
    RunKeepsInv(s, es);
    var l := Run(s, es).lib;
    OneResultPerGoal(l);
    if l.state[g].IsTerminal() {
      assert ClientResult(g, l.state[g]) in l.results && ClientResult(g, l.state[g]).goal == g;
    } else {
      NoResultYet(l, g);
    }
  }

  /**
  Once everything under way is done every goal is in a slot or has its result, even after a shutdown:
  no event that the environment owes is left, and the library has released what it could.
  */
  lemma EveryGoalEnds(es: seq<Event>, g: nat)
    requires var s := Run(INITIAL, es);
             && g < |s.lib.state| && s.owner.Idle? && s.queue == [] && s.lib.due == {}
             && forall h :: !Releasable(s, h)
    ensures var s := Run(INITIAL, es);
            && (InSlot(s, g) || s.lib.state[g].IsTerminal())
            && (s.lib.state[g].IsTerminal() <==> ClientResult(g, s.lib.state[g]) in s.lib.results)
  {
    OneResultOverARun(es);
    assert !Releasable(Run(INITIAL, es), g);
  }

  /** Shutdown leaves both goals to the library, which can end them unless something is under way. */
  lemma ShutdownLeavesGoalsToTheLibrary(s: System, g: nat)
    requires Inv(s) && InSlot(s, g)
    ensures var s' := Apply(s, Event.Shutdown);
            && !InSlot(s', g) && s' == s.(active := None, pending := None)
            && (Releasable(s', g) <==>
                  !s.owner.Holds(g) && g !in s.lib.due && forall m | m in s.queue :: m.goal != g)
  {
  }

  /** The library ends a goal nobody holds with one result. */
  lemma ReleasedGoalEnds(s: System, g: nat, abort: bool)
    requires Inv(s) && Releasable(s, g)
    ensures var s' := Apply(s, HandleReleased(g, abort));
            && Inv(s') && !Releasable(s', g)
            && s'.lib.results == s.lib.results + [ClientResult(g, if abort then Aborted else GoalState.Canceled)]
            && s' == s.(lib := s'.lib)
            && s'.lib.state == s.lib.state[g := if abort then Aborted else GoalState.Canceled]
  {
    ReleaseEffect(s.lib, g, abort);
    KeepsInv(s, HandleReleased(g, abort));
  }

  // ---------------------------------------------------------------------------------------------
  // Cancellation

  /**
  A client's request is accepted iff the goal is in one of the slots. Then one handler is sent, behind
  the messages already waiting, and the CANCELING transition is due. Nothing else changes.
  */
  lemma CancelRequestIff(s: System, g: nat)
    ensures var out := CancelCallback(s, g); var s' := out.sys;
            && (out.ok <==> s.active == Some(g) || s.pending == Some(g))
            && s' == Apply(s, RequestCancel(g))
            && s'.queue == s.queue + (if out.ok then [CancelHandler(g)] else [])
            && s'.lib.due == s.lib.due + (if out.ok then {g} else {})
            && s'.sent == s.sent + (if out.ok then {g} else {})
            && s' == s.(queue := s'.queue, sent := s'.sent, lib := s.lib.(due := s'.lib.due))
  {
  }

  /** Requests are not forgotten. */
  lemma {:induction false} SentStays(s: System, es: seq<Event>)
    ensures s.sent <= Run(s, es).sent
    decreases |es|
  {
    if es == [] {
    } else {
      StepKeepsSent(s, es[0]);
      SentStays(Apply(s, es[0]), es[1..]);
    }
  }

  lemma StepKeepsSent(s: System, e: Event)
    ensures s.sent <= Apply(s, e).sent
  {
  }

  /**
  Every cancel request for the active or the pending goal takes effect: once the owner has drained its
  queue the goal is in no slot, andwithout a shutdown it is done or left CANCELING to the
  library.
  */
  lemma CancelRequestTakesEffect(es: seq<Event>, g: nat, more: seq<Event>)
    requires InSlot(Run(INITIAL, es), g)
    requires var s' := Run(Run(INITIAL, es), [RequestCancel(g)] + more); s'.owner.Idle? && s'.queue == []
    ensures var s' := Run(Run(INITIAL, es), [RequestCancel(g)] + more);
            && g in s'.sent && !InSlot(s', g)
            && g < |s'.lib.state|
            && (NoShutdown(es) && NoShutdown(more) ==> s'.lib.state[g].IsTerminal() || s'.lib.state[g].Canceling?)
  {
    var s := Run(INITIAL, es);
    var all := es + ([RequestCancel(g)] + more);
    RunConcat(INITIAL, es, [RequestCancel(g)] + more);
    RunCons(s, RequestCancel(g), more);
    CancelRequestIff(s, g);
    SentStays(Apply(s, RequestCancel(g)), more);
    DrainedQueueLeavesNoCancel(all, g);
    RunKeepsInv(INITIAL, all);
    if NoShutdown(es) && NoShutdown(more) {
      assert NoShutdown(all);
      NoGoalStranded(all, g);
    }
  }

  /** Anything that can happen while a hook runs: calls of the hook and of other threads, and the executor. */
  predicate DuringHook(e: Event) {
    !e.OwnerStep? && !e.HookReturn? && !e.Shutdown?
  }

  /** Where the goal being canceled can be while its cancel hook runs. */
  predicate BeingCanceled(s: System, g: nat, wasCanceling: bool) {
    && g < |s.lib.state|
    && s.owner == InCancelHook(g)
    && (s.active == Some(g) ==> wasCanceling ==> s.lib.state[g].Canceling?)
    && (s.active != Some(g) ==> s.lib.state[g].IsTerminal() &&
                                (wasCanceling ==> s.lib.state[g] in {GoalState.Canceled, Succeeded}))
  }

  lemma HookStepActive(s: System, e: Event, g: nat)
    requires SlotsTyped(s) && s.active == Some(g) && DuringHook(e)
    ensures var s' := Apply(s, e);
            && g < |s.lib.state| <= |s'.lib.state|
            && (s'.active == Some(g) ==> s.lib.state[g].Canceling? ==> s'.lib.state[g].Canceling?)
            && (s'.active == Some(g) ==> s'.lib.state[g] in {Executing, Canceling})
            && (s'.active != Some(g) ==> s'.lib.state[g].IsTerminal())
            && (s'.active != Some(g) && s.lib.state[g].Canceling? ==>
                  s'.lib.state[g] in {GoalState.Canceled, Succeeded})
            && (!e.CallSucceedActive? ==> s'.lib.state[g] != Succeeded)
  {
    match e
    case CancelTransition(h) =>
      SlipOneFrame(s.lib, h);
      assert SameOrSlipped(s.lib, Slip(s.lib, h), g);
    case CallAcceptPending(sc) => AcceptEffect(s, sc);
    case CallRejectPending(sc) =>
      RejectEffect(s, sc);
      assert SameOrSlipped(s.lib, Apply(s, e).lib, g);
    case CallAbortActive(sc) => FinishEffect(s, sc);
    case CallCancelActive(sc) => FinishEffect(s, sc);
    case CallSucceedActive(sc) => SucceedEffect(s, sc);
    case HandleReleased(h, abort) => if Releasable(s, h) { ReleaseEffect(s.lib, h, abort); }
    case _ =>
  }

  lemma HookStep(s: System, e: Event, g: nat, wasCanceling: bool)
    requires Inv(s) && BeingCanceled(s, g, wasCanceling) && DuringHook(e)
    ensures BeingCanceled(Apply(s, e), g, wasCanceling)
    ensures !e.CallSucceedActive? && s.lib.state[g] != Succeeded ==> Apply(s, e).lib.state[g] != Succeeded
  {
    if s.active != Some(g) {
      StepKeepsLetGo(s, e, g);
      NotActivatedAgain(s, e, g);
    } else {
      HookStepActive(s, e, g);
    }
  }

  /** A goal whose cancel hook has started does not become active again. */
  lemma NotActivatedAgain(s: System, e: Event, g: nat)
    requires Inv(s) && s.owner == InCancelHook(g) && s.active != Some(g) && DuringHook(e)
    ensures Apply(s, e).active != Some(g) && Apply(s, e).owner == s.owner
  {
    assert s.pending != Some(g);
    if e.CallAcceptPending? { AcceptEffect(s, e.sc); }
  }

  lemma {:induction false} HookRun(s: System, es: seq<Event>, g: nat, wasCanceling: bool)
    requires Inv(s) && BeingCanceled(s, g, wasCanceling)
    requires forall i :: 0 <= i < |es| ==> DuringHook(es[i])
    ensures Inv(Run(s, es)) && BeingCanceled(Run(s, es), g, wasCanceling)
    ensures (forall i :: 0 <= i < |es| ==> !es[i].CallSucceedActive?) && s.lib.state[g] != Succeeded ==>
              Run(s, es).lib.state[g] != Succeeded
    decreases |es|
  {
    if es == [] {
    } else {
      KeepsInv(s, es[0]);
      HookStep(s, es[0], g, wasCanceling);
      HookRun(Apply(s, es[0]), es[1..], g, wasCanceling);
    }
  }

  /**
  When cancelHandler(gh) returns, the goal is in neither slot. If it was active it has its result,
  whatever the cancel hook and other threads did meanwhile, and if it was CANCELING on entry this
  result is CANCELED unless somebody succeeded it.
  */
  lemma CancelHandlerOfActiveGoal(s: System, es: seq<Event>, sc: Schedule, sc': Schedule)
    requires Inv(s) && s.owner.Idle? && s.queue != [] && s.queue[0].CancelHandler?
    requires s.active == Some(s.queue[0].goal)
    requires forall i :: 0 <= i < |es| ==> DuringHook(es[i])
    ensures var g := s.queue[0].goal;
            var s' := Run(s, [OwnerStep(sc)] + es + [HookReturn(sc')]);
            && g < |s.lib.state| && g < |s'.lib.state|
            && s'.owner.Idle? && !InSlot(s', g) && s'.lib.state[g].IsTerminal()
            && s'.cancelHooks == s.cancelHooks + [g]
            && (s.lib.state[g].Canceling? ==>
                  s'.lib.state[g] == GoalState.Canceled || s'.lib.state[g] == Succeeded)
            && ((forall i :: 0 <= i < |es| ==> !es[i].CallSucceedActive?) ==> s'.lib.state[g] != Succeeded)
  {
    var g := s.queue[0].goal;
    var was := s.lib.state[g].Canceling?;
    var s1 := Apply(s, OwnerStep(sc));
    KeepsInv(s, OwnerStep(sc));
    HookRun(s1, es, g, was);
    HookKeepsHistory(s1, es);
    HookEnds(Run(s1, es), g, was, sc');
    RunHandler(s, es, sc, sc');
  }

  lemma HookEnds(s: System, g: nat, wasCanceling: bool, sc: Schedule)
    requires Inv(s) && BeingCanceled(s, g, wasCanceling)
    ensures var s' := Apply(s, HookReturn(sc));
            && g < |s'.lib.state| && s'.owner.Idle? && !InSlot(s', g) && s'.lib.state[g].IsTerminal()
            && s'.cancelHooks == s.cancelHooks
            && (wasCanceling ==> s'.lib.state[g] in {GoalState.Canceled, Succeeded})
            && (s.lib.state[g] != Succeeded ==> s'.lib.state[g] != Succeeded)
  {
    assert s.pending != Some(g);
    if s.active == Some(g) { FinishEffect(s, sc); }
  }

  lemma RunHandler(s: System, es: seq<Event>, sc: Schedule, sc': Schedule)
    ensures Run(s, [OwnerStep(sc)] + es + [HookReturn(sc')]) ==
            Apply(Run(Apply(s, OwnerStep(sc)), es), HookReturn(sc'))
  {
    var tail := [HookReturn(sc')];
    assert [OwnerStep(sc)] + es + tail == [OwnerStep(sc)] + (es + tail);
    RunCons(s, OwnerStep(sc), es + tail);
    RunConcat(Apply(s, OwnerStep(sc)), es, tail);
    assert tail == [HookReturn(sc')] + [];
    RunCons(Run(Apply(s, OwnerStep(sc)), es), HookReturn(sc'), []);
  }

  lemma RunCons(s: System, e: Event, rest: seq<Event>)
    ensures Run(s, [e] + rest) == Run(Apply(s, e), rest)
  {
    assert ([e] + rest)[0] == e && ([e] + rest)[1..] == rest;
  }

  lemma {:induction false} HookKeepsHistory(s: System, es: seq<Event>)
    requires forall i :: 0 <= i < |es| ==> DuringHook(es[i])
    ensures Run(s, es).cancelHooks == s.cancelHooks
    decreases |es|
  {
    if es == [] {
    } else {
      HookKeepsHistory(Apply(s, es[0]), es[1..]);
    }
  }

  /**
  The other cases of cancelHandler(): a pending goal is ended at once, unless its transition slips in just
  before execute(); any other goal is left alone.
  */
  lemma CancelHandlerOfOtherGoal(s: System, sc: Schedule)
    requires Inv(s) && s.owner.Idle? && s.queue != [] && s.queue[0].CancelHandler?
    requires s.active != Some(s.queue[0].goal)
    ensures var g := s.queue[0].goal; var s' := Apply(s, OwnerStep(sc));
            && s'.owner.Idle? && !InSlot(s', g) && s'.active == s.active && s'.cancelHooks == s.cancelHooks
            && (s.pending == Some(g) ==>
                  && g < |s.lib.state| == |s'.lib.state|
                  && s'.lib.results == s.lib.results + ResultIfDone(s'.lib, g)
                  && s'.lib.state[g] == TerminatedState(s.lib, sc, g))
            && (s.pending != Some(g) ==> s' == s.(queue := s.queue[1..]))
  {
    var g := s.queue[0].goal;
    if s.pending == Some(g) { TerminateEffect(s.lib, g, sc); }
  }

  /** The cancel hook runs at most once for each goal, and only for goals that were active. */
  lemma CancelHookOncePerGoal(es: seq<Event>)
    ensures Distinct(Run(INITIAL, es).cancelHooks)
    ensures forall g :: g in Run(INITIAL, es).cancelHooks ==> g in Run(INITIAL, es).activated
  {
    RunKeepsInv(INITIAL, es);
  }

  function Deliveries(es: seq<Event>): nat {
    if es == [] then 0 else Deliveries(es[..|es| - 1]) + if es[|es| - 1].Deliver? then 1 else 0
  }

  /** No goal is rejected: each delivered goal is accepted at once, and offered by the time the queue is drained. */
  lemma {:induction false} EveryGoalIsAccepted(es: seq<Event>)
    ensures var s := Run(INITIAL, es);
            && |s.lib.state| == Deliveries(es)
            && (s.queue == [] ==> s.offered == Deliveries(es))
    decreases |es|
  {
    RunKeepsInv(INITIAL, es);
    if es == [] {
    } else {
      var front, last := es[..|es| - 1], es[|es| - 1];
      EveryGoalIsAccepted(front);
      assert es == front + [last] && [last] == [last] + [];
      RunConcat(INITIAL, front, [last]);
      RunCons(Run(INITIAL, front), last, []);
      RunKeepsInv(INITIAL, front);
      StepAccepts(Run(INITIAL, front), last);
    }
  }

  lemma StepAccepts(s: System, e: Event)
    requires Inv(s)
    ensures |Apply(s, e).lib.state| == |s.lib.state| + if e.Deliver? then 1 else 0
  {
    match e
    case CancelTransition(g) => SlipOneFrame(s.lib, g);
    case CallAcceptPending(sc) => AcceptEffect(s, sc);
    case CallRejectPending(sc) => RejectEffect(s, sc);
    case CallAbortActive(sc) => if s.active.Some? { FinishEffect(s, sc); }
    case CallCancelActive(sc) => if s.active.Some? { FinishEffect(s, sc); }
    case CallSucceedActive(sc) => if s.active.Some? { SucceedEffect(s, sc); }
    case OwnerStep(sc) => if s.owner.Idle? && s.queue != [] { OwnerAccepts(s, sc); }
    case HookReturn(sc) => if s.active.Some? { FinishEffect(s, sc); }
    case HandleReleased(g, abort) => if Releasable(s, g) { ReleaseEffect(s.lib, g, abort); }
    case _ =>
  }

  lemma OwnerAccepts(s: System, sc: Schedule)
    requires Inv(s) && s.owner.Idle? && s.queue != []
    ensures |Apply(s, OwnerStep(sc)).lib.state| == |s.lib.state|
  {
    if s.queue[0].AcceptedCallback? {
      ReplacedEffect(s.(queue := s.queue[1..]), s.queue[0].goal, sc);
    } else if s.active != Some(s.queue[0].goal) && s.pending == Some(s.queue[0].goal) {
      TerminateEffect(s.lib, s.queue[0].goal, sc);
    }
  }

  /**
  The goal hook runs for each goal, in the order of delivery, right after the goal was put into the
  pending slot; its return changes nothing but the owner, which is free for the next message.
  */
  lemma GoalHookForEachGoal(s: System, sc: Schedule, sc': Schedule)
    requires Inv(s) && s.owner.Idle? && s.queue != [] && s.queue[0].AcceptedCallback?
    ensures var s' := Apply(s, OwnerStep(sc)); var g := s.offered;
            && s.queue[0].goal == g
            && s'.owner == InGoalHook(g) && s'.pending == Some(g) && s'.offered == g + 1
            && s' == s.(lib := s'.lib, queue := s.queue[1..], pending := s'.pending, offered := s'.offered,
                        owner := s'.owner)
            && Frame(s.lib, s'.lib, if s.pending.Some? then {s.pending.value} else {})
            && Apply(s', HookReturn(sc')) == s'.(owner := Idle)
  {
    NextOffer(s);
    ReplacedEffect(s.(queue := s.queue[1..]), s.queue[0].goal, sc);
  }

  // ---------------------------------------------------------------------------------------------
  // Operations taken atomically

  /** abortActive() and cancelActive() alike: CANCELED from CANCELING, ABORTED from EXECUTING. */
  lemma FinishActiveAtomically(s: System, e: Event)
    requires SlotsTyped(s) && s.active.Some? && e in {CallAbortActive([]), CallCancelActive([])}
    ensures var a := s.active.value; var s' := Apply(s, e);
            && s'.active.None? && s'.pending == s.pending
            && (s'.lib.state[a].Canceled? <==> s.lib.state[a].Canceling?)
            && (s'.lib.state[a].Aborted? <==> s.lib.state[a].Executing?)
            && (forall g | 0 <= g < |s.lib.state| && g != a :: s'.lib.state[g] == s.lib.state[g])
  {
    FinishAtomically(s);
  }

  lemma FinishAtomically(s: System)
    requires s.active.Some? && Live(s.lib, s.active.value)
    ensures var a := s.active.value;
            FinishActive(s, []).sys.lib.state ==
            s.lib.state[a := if s.lib.state[a].Canceling? then GoalState.Canceled else Aborted]
  {
  }

  // ---------------------------------------------------------------------------------------------
  // When a canceled goal ends CANCELED, and when a goal is left without a result

  /**
  The exact condition for a canceled goal to end CANCELED. Whatever happens while the hook runs: if
  the hook or another thread has ended the goal, it keeps that result. Otherwise it ends CANCELED if
  its CANCELING transition has happened by the return of the hook, or slips in before finishActive()
  looks at the goal; in all other cases it ends ABORTED.
  */
  lemma CanceledIffCancelingInTime(s: System, es: seq<Event>, sc: Schedule, sc': Schedule)
    requires Inv(s) && s.owner.Idle? && s.queue != [] && s.queue[0].CancelHandler?
    requires s.active == Some(s.queue[0].goal)
    requires forall i :: 0 <= i < |es| ==> DuringHook(es[i])
    ensures var g := s.queue[0].goal;
            var returning := Run(s, [OwnerStep(sc)] + es);
            var l := Run(s, [OwnerStep(sc)] + es + [HookReturn(sc')]).lib;
            && g < |s.lib.state| && g < |returning.lib.state| == |l.state|
            && (returning.active != Some(g) ==>
                  returning.lib.state[g].IsTerminal() && l.state[g] == returning.lib.state[g])
            && (returning.active == Some(g) ==>
                  && (l.state[g].Canceled? <==>
                        || returning.lib.state[g].Canceling?
                        || (g in returning.lib.due && (SlipsAt(sc', 3, g) || SlipsAt(sc', 5, g))))
                  && (l.state[g].Aborted? <==> !l.state[g].Canceled?))
            && (s.lib.state[g].Canceling? && returning.active == Some(g) ==> returning.lib.state[g].Canceling?)
  {
    var g := s.queue[0].goal;
    var s1 := Apply(s, OwnerStep(sc));
    KeepsInv(s, OwnerStep(sc));
    HookRun(s1, es, g, s.lib.state[g].Canceling?);
    RunCons(s, OwnerStep(sc), es);
    RunHandler(s, es, sc, sc');
    HookReturnsIff(Run(s1, es), g, sc');
  }

  lemma HookReturnsIff(s: System, g: nat, sc: Schedule)
    requires Inv(s) && s.owner == InCancelHook(g) && g < |s.lib.state|
    ensures var l := Apply(s, HookReturn(sc)).lib;
            && |l.state| == |s.lib.state|
            && (s.active != Some(g) ==> l == s.lib)
            && (s.active == Some(g) ==>
                  l.state[g] == FinishedState(s.lib, sc, g))
  {
    if s.active == Some(g) { FinishedAs(s, sc); }
  }

  /**
  The exact condition for a goal replaced in the pending slot to get a result from the server: no
  CANCELING transition comes before the server ends it. One that comes while the server looks at the
  goal makes it be left alone; one that comes after the last look and before execute() makes execute()
  throw. Without a result the goal is CANCELING in no slot, see LeftToTheLibrary.
  */
  lemma ReplacedGoalGetsResult(s: System, sc: Schedule)
    requires Inv(s) && s.pending.Some? && s.owner.Idle? && s.queue != [] && s.queue[0].AcceptedCallback?
    ensures var p := s.pending.value; var s' := Apply(s, OwnerStep(sc)); var l := s'.lib;
            && p < |l.state| && !InSlot(s', p)
            && (l.state[p].IsTerminal() <==> !CancelsBeforeEnd(s.lib, sc, p) && !SlipsBeforeExecute(s.lib, sc, p))
            && (ClientResult(p, l.state[p]) in l.results <==>
                  !CancelsBeforeEnd(s.lib, sc, p) && !SlipsBeforeExecute(s.lib, sc, p))
            && (!l.state[p].IsTerminal() ==> l.state[p].Canceling?)
            && (l.state[p].Canceled? <==> !CancelsBeforeEnd(s.lib, sc, p) && p in s.lib.due && SlipsAt(sc, 3, p))
  {
    ReplacedAs(s.(queue := s.queue[1..]), s.queue[0].goal, sc);
    NextOffer(s);
    KeepsInv(s, OwnerStep(sc));
    OneResultPerGoal(Apply(s, OwnerStep(sc)).lib);
  }

  /**
  The exact condition for acceptPending() to drop the pending goal without a result: its transition
  comes after the goal was seen pending and before execute(). The goal is CANCELING
  in no slot then, see LeftToTheLibrary.
  */
  lemma AcceptDropsGoalIff(s: System, sc: Schedule)
    requires Inv(s) && s.pending.Some?
    ensures var p := s.pending.value; var s' := AcceptPending(s, sc).sys;
            && p < |s'.lib.state|
            && (!InSlot(s', p) <==> !CancelsBeforeEnd(s.lib, sc, p) && SlipsBeforePromotion(s, sc))
            && (!InSlot(s', p) ==> s'.lib.state[p].Canceling? && forall r :: r in s'.lib.results ==> r.goal != p)
            && (AcceptPending(s, sc).ok <==> s'.active == Some(p))
  {
    AcceptedIff(s, sc);
    AcceptEffect(s, sc);
    KeepsInv(s, CallAcceptPending(sc));
    OneResultPerGoal(AcceptPending(s, sc).sys.lib);
    NoResultYet(AcceptPending(s, sc).sys.lib, s.pending.value);
  }

  // ---------------------------------------------------------------------------------------------
  // Deliveries alone

  predicate OnlyDelivers(e: Event) { e.Deliver? || e.OwnerStep? || e.HookReturn? }

  /** All offered goals but the last are ABORTED, the last is pending. */
  predicate NewestOnly(s: System) {
    && s.lib.due == {} && s.active.None?
    && s.offered <= |s.lib.state|
    && s.pending == (if s.offered == 0 then None else Some(s.offered - 1))
    && (forall g | 0 <= g < s.offered - 1 :: s.lib.state[g].Aborted?)
    && (s.offered > 0 ==> s.lib.state[s.offered - 1].Accepted?)
    && (forall m :: m in s.queue ==> m.AcceptedCallback?)
    && (s.owner.Idle? || s.owner.InGoalHook?)
    && |s.lib.results| == (if s.offered == 0 then 0 else s.offered - 1)
  }

  lemma OfferStep(s: System, g: nat, sc: Schedule)
    requires NewestOnly(s) && g == s.offered < |s.lib.state| && s.lib.state[g].Accepted?
    ensures NewestOnly(RunAcceptedCallback(s, g, sc))
  {
    var l := RunAcceptedCallback(s, g, sc).lib;
    ReplacedEffect(s, g, sc);
    FrameStates(s.lib, l, if s.pending.Some? then {s.pending.value} else {});
  }

  lemma DeliverStep(s: System, e: Event)
    requires Inv(s) && NewestOnly(s) && OnlyDelivers(e)
    ensures NewestOnly(Apply(s, e))
  {
    if e.OwnerStep? && s.owner.Idle? && s.queue != [] {
      assert s.queue == [s.queue[0]] + s.queue[1..];
      NextOffer(s);
      OfferStep(s.(queue := s.queue[1..]), s.queue[0].goal, e.sc);
    }
  }

  lemma {:induction false} DeliverRun(s: System, es: seq<Event>)
    requires Inv(s) && NewestOnly(s) && forall i :: 0 <= i < |es| ==> OnlyDelivers(es[i])
    ensures NewestOnly(Run(s, es))
    decreases |es|
  {
    if es == [] {
    } else {
      DeliverStep(s, es[0]);
      KeepsInv(s, es[0]);
      DeliverRun(Apply(s, es[0]), es[1..]);
    }
  }

  /** With no call and no cancel, n offered goals leave the first n - 1 ABORTED and the last one pending. */
  lemma DeliveriesAlone(es: seq<Event>)
    requires forall i :: 0 <= i < |es| ==> OnlyDelivers(es[i])
    ensures var s := Run(INITIAL, es); var n := s.offered;
            && n <= |s.lib.state|
            && (forall g | 0 <= g < n - 1 :: s.lib.state[g].Aborted?)
            && (n > 0 ==> s.pending == Some(n - 1) && s.lib.state[n - 1].Accepted?)
            && |s.lib.results| == (if n == 0 then 0 else n - 1)
  {
    DeliverRun(INITIAL, es);
    RunKeepsInv(INITIAL, es);
  }
}
