/**
The slot pair of SimpleActionServer refines the simple action server of ROS 1: with any late
transitions slipping in, each event is a path of ROS 1 moves in which the server does what is
documented for the event and the client cancels the goals whose transitions slipped in.
*/
module Ros1Refinement {
  import opened Wrappers
  import opened GoalStates
  import opened ActionProtocol
  import opened ActionRaces
  import opened ActionEffects
  import opened ActionInvariants
  import opened Ros1Server

  /** The server makes the moves v on the way from r to r', and the client cancels goals in d only. */
  ghost predicate Reaches(r: Ros1, v: seq<Move>, r': Ros1, d: set<nat>) {
    exists ms: seq<Move> :: Path(r, ms) == Some(r') && ServerMoves(ms) == v && CancelsOnly(ms, d)
  }

  lemma ReachesSelf(r: Ros1, d: set<nat>)
    ensures Reaches(r, [], r, d)
  {
    assert Path(r, []) == Some(r) && ServerMoves([]) == [];
  }

  lemma ReachesStep(r: Ros1, m: Move, d: set<nat>)
    requires Step(r, m).Some? && (IsCancel(m) ==> m.goal in d)
    ensures Reaches(r, if IsCancel(m) then [] else [m], Step(r, m).value, d)
  {
    PathOne(r, m);
    assert [m][1..] == [];
    assert ServerMoves([m]) == if IsCancel(m) then [] else [m];
    assert CancelsOnly([m], d);
  }

  lemma ReachesTrans(r0: Ros1, v: seq<Move>, r1: Ros1, w: seq<Move>, r2: Ros1, d: set<nat>)
    requires Reaches(r0, v, r1, d) && Reaches(r1, w, r2, d)
    ensures Reaches(r0, v + w, r2, d)
  {
    var ms: seq<Move> :| Path(r0, ms) == Some(r1) && ServerMoves(ms) == v && CancelsOnly(ms, d);
    var more: seq<Move> :| Path(r1, more) == Some(r2) && ServerMoves(more) == w && CancelsOnly(more, d);
    PathConcat(r0, ms, more);
    ServerMovesConcat(ms, more);
    assert CancelsOnly(ms + more, d);
  }

  /** Cancels before and after the moves v. */
  lemma ReachesAround(r0: Ros1, r1: Ros1, v: seq<Move>, r2: Ros1, r3: Ros1, d: set<nat>)
    requires Reaches(r0, [], r1, d) && Reaches(r1, v, r2, d) && Reaches(r2, [], r3, d)
    ensures Reaches(r0, v, r3, d)
  {
    ReachesTrans(r0, [], r1, v, r2, d);
    assert [] + v == v;
    ReachesTrans(r0, v, r2, [], r3, d);
    assert v + [] == v;
  }

  // ---------------------------------------------------------------------------------------------
  // Slips of the goals in the slots

  lemma WaitingSlips(r: Ros1, w: Waiting, d: set<nat>)
    requires w == r.waiting || (r.waiting.PendingGoal? && r.waiting.goal in d && w == RecallingGoal(r.waiting.goal))
    ensures Reaches(r, [], r.(waiting := w), d)
  {
    ReachesSelf(r, d);
    if w != r.waiting { ReachesStep(r, Recall(r.waiting.goal), d); }
  }

  lemma CurrentSlips(r: Ros1, c: Current, d: set<nat>)
    requires c == r.current || (r.current.ActiveGoal? && r.current.goal in d && c == PreemptingGoal(r.current.goal))
    ensures Reaches(r, [], r.(current := c), d)
  {
    ReachesSelf(r, d);
    if c != r.current { ReachesStep(r, Preempt(r.current.goal), d); }
  }

  /** The frame in terms of the goals that slipped. */
  lemma FrameSlips(l: Goals, l': Goals, touched: set<nat>)
    requires Frame(l, l', touched)
    ensures forall g | 0 <= g < |l.state| && g !in touched ::
              || l'.state[g] == l.state[g]
              || (g in l.due - l'.due && l'.state[g].Canceling? && (l.state[g].Accepted? || l.state[g].Executing?))
  {
    forall g | 0 <= g < |l.state| && g !in touched
      ensures || l'.state[g] == l.state[g]
              || (g in l.due - l'.due && l'.state[g].Canceling? && (l.state[g].Accepted? || l.state[g].Executing?))
    {
      assert SameOrSlipped(l, l', g);
    }
  }

  lemma SlipsReach(s: System, l: Goals, d: set<nat>)
    requires SlotsTyped(s) && Frame(s.lib, l, {}) && l.results == s.lib.results && s.lib.due - l.due <= d
    ensures SlotsTyped(s.(lib := l))
    ensures Reaches(Abs(s), [], Abs(s.(lib := l)), d)
  {
    FrameSlips(s.lib, l, {});
    var r' := Abs(s.(lib := l));
    CurrentSlips(Abs(s), r'.current, d);
    WaitingSlips(Abs(s).(current := r'.current), r'.waiting, d);
    ReachesTrans(Abs(s), [], Abs(s).(current := r'.current), [], r', d);
    var none: seq<Move> := [];
    assert none + none == none;
  }

  // ---------------------------------------------------------------------------------------------
  // The active goal

  lemma FinishReaches(s: System, sc: Schedule, d: set<nat>)
    requires SlotsTyped(s) && s.lib.due - FinishActive(s, sc).sys.lib.due <= d
    ensures SlotsTyped(FinishActive(s, sc).sys)
    ensures Reaches(Abs(s), Finishing(s), Abs(FinishActive(s, sc).sys), d)
    ensures FinishActive(s, sc).ok <==> s.active.Some?
  {
    ReachesSelf(Abs(s), d);
    if s.active.Some? {
      FinishEffect(s, sc);
      FinishedAs(s, sc);
      var a := s.active.value;
      var s' := FinishActive(s, sc).sys;
      FrameSlips(s.lib, s'.lib, {a});
      var r1 := Abs(s).(current := if s'.lib.state[a].Canceled? then PreemptingGoal(a) else ActiveGoal(a));
      CurrentSlips(Abs(s), r1.current, d);
      ReachesStep(r1, FinishCurrent, d);
      var r2 := Step(r1, FinishCurrent).value;
      WaitingSlips(r2, Abs(s').waiting, d);
      ReachesAround(Abs(s), r1, [FinishCurrent], r2, Abs(s'), d);
    }
  }

  lemma SucceedReaches(s: System, sc: Schedule, d: set<nat>)
    requires SlotsTyped(s) && s.active.Some? && s.lib.due - SucceedActive(s, sc).sys.lib.due <= d
    ensures SlotsTyped(SucceedActive(s, sc).sys)
    ensures Reaches(Abs(s), [SucceedCurrent], Abs(SucceedActive(s, sc).sys), d)
  {
    SucceedEffect(s, sc);
    var s' := SucceedActive(s, sc).sys;
    FrameSlips(s.lib, s'.lib, {s.active.value});
    ReachesSelf(Abs(s), d);
    ReachesStep(Abs(s), SucceedCurrent, d);
    var r2 := Step(Abs(s), SucceedCurrent).value;
    WaitingSlips(r2, Abs(s').waiting, d);
    ReachesAround(Abs(s), Abs(s), [SucceedCurrent], r2, Abs(s'), d);
  }

  /** A call that needs an active goal finds none. */
  lemma NoActiveReaches(s: System, d: set<nat>)
    requires SlotsTyped(s) && s.active.None?
    ensures Reaches(Abs(s), [NothingActive], Abs(s), d)
  {
    ReachesStep(Abs(s), NothingActive, d);
  }

  // ---------------------------------------------------------------------------------------------
  // The pending goal

  /** The pending goal leaves its slot with a result, or CANCELING without one. */
  function Disposal(l: Goals, p: nat): Move
    requires p < |l.state|
  {
    if l.state[p].Canceling? then ForgetWaiting else EndWaiting
  }

  lemma DisposedReaches(s: System, l: Goals, d: set<nat>)
    requires SlotsTyped(s) && s.pending.Some? && Frame(s.lib, l, {s.pending.value}) && s.lib.due - l.due <= d
    requires l.results == s.lib.results + ResultIfDone(l, s.pending.value)
    requires l.state[s.pending.value] in {Aborted, Canceled, Canceling}
    requires if s.lib.state[s.pending.value].Canceling? then !l.state[s.pending.value].Aborted?
             else !l.state[s.pending.value].Aborted? ==> s.pending.value in d
    ensures SlotsTyped(s.(lib := l, pending := None))
    ensures Reaches(Abs(s), [Disposal(l, s.pending.value)], Abs(s.(lib := l, pending := None)), d)
  {
    var p := s.pending.value;
    FrameSlips(s.lib, l, {p});
    var r1 := Abs(s).(waiting := if l.state[p].Aborted? then PendingGoal(p) else RecallingGoal(p));
    WaitingSlips(Abs(s), r1.waiting, d);
    ReachesStep(r1, Disposal(l, p), d);
    var r2 := Step(r1, Disposal(l, p)).value;
    var r3 := Abs(s.(lib := l, pending := None));
    assert r3 == r2.(current := r3.current);
    CurrentSlips(r2, r3.current, d);
    ReachesAround(Abs(s), r1, [Disposal(l, p)], r2, r3, d);
  }

  /** pendingGoalHandle() finds no pending goal. */
  lemma NothingPendingReaches(s: System, sc: Schedule, d: set<nat>)
    requires SlotsTyped(s)
    requires var h := PendingHandle(s.lib, s.pending, sc); h.goal.None? && s.lib.due - h.lib.due <= d
    ensures var s' := s.(lib := PendingHandle(s.lib, s.pending, sc).lib);
            SlotsTyped(s') && Reaches(Abs(s), [NothingPending], Abs(s'), d)
  {
    var h := PendingHandle(s.lib, s.pending, sc);
    PendingHandleEffect(s.lib, s.pending, sc);
    SlipsReach(s, h.lib, d);
    var r := Abs(s.(lib := h.lib));
    ReachesStep(r, NothingPending, d);
    ReachesSelf(r, d);
    ReachesAround(Abs(s), r, [NothingPending], r, r, d);
  }

  lemma RejectReaches(s: System, sc: Schedule, d: set<nat>)
    requires SlotsTyped(s) && s.lib.due - RejectPending(s, sc).sys.lib.due <= d
    ensures var out := RejectPending(s, sc);
            && SlotsTyped(out.sys)
            && if out.ok then || Reaches(Abs(s), [EndWaiting], Abs(out.sys), d)
                              || Reaches(Abs(s), [ForgetWaiting], Abs(out.sys), d)
               else Reaches(Abs(s), [NothingPending], Abs(out.sys), d)
  {
    var out := RejectPending(s, sc);
    if out.ok {
      RejectEffect(s, sc);
      RejectedResults(s, sc);
      DisposedReaches(s, out.sys.lib, d);
    } else {
      NothingPendingReaches(s, sc, d);
    }
  }

  lemma RejectedResults(s: System, sc: Schedule)
    requires s.pending.Some? && Deferred(s.lib, s.pending.value) && RejectPending(s, sc).ok
    ensures var p, l := s.pending.value, RejectPending(s, sc).sys.lib;
            && p < |l.state| && l.results == s.lib.results + ResultIfDone(l, p)
            && (s.lib.state[p].Accepted? && !l.state[p].Aborted? ==> p in s.lib.due && p !in l.due)
  {
    ReplacedEffect(s, 0, sc);
    ReplacedAs(s, 0, sc);
  }

  lemma AcceptReaches(s: System, sc: Schedule, d: set<nat>)
    requires SlotsTyped(s) && s.lib.due - AcceptPending(s, sc).sys.lib.due <= d
    ensures var out := AcceptPending(s, sc);
            && SlotsTyped(out.sys)
            && if out.ok then Reaches(Abs(s), Finishing(s) + [Promote], Abs(out.sys), d)
               else || Reaches(Abs(s), [NothingPending], Abs(out.sys), d)
                    || Reaches(Abs(s), Finishing(s) + [ForgetWaiting], Abs(out.sys), d)
  {
    var h := PendingHandle(s.lib, s.pending, sc);
    if h.goal.None? {
      NothingPendingReaches(s, sc, d);
    } else {
      PendingHandleEffect(s.lib, s.pending, sc);
      var s1 := s.(lib := h.lib);
      var s2 := FinishActive(s1, sc).sys;
      FrameSlips(s.lib, h.lib, {});
      if s1.active.Some? { FinishEffect(s1, sc); }
      AtFrame(s2.lib, sc, 7);
      FireFrame(At(s2.lib, sc, 7), h.goal.value, Execute);
      SlipsReach(s, h.lib, d);
      FinishReaches(s1, sc, d);
      ExecuteReaches(s2, sc, d);
      var last := if AcceptPending(s, sc).ok then Promote else ForgetWaiting;
      ReachesTrans(Abs(s), [], Abs(s1), Finishing(s), Abs(s2), d);
      assert [] + Finishing(s) == Finishing(s);
      ReachesTrans(Abs(s), Finishing(s), Abs(s2), [last], Abs(AcceptPending(s, sc).sys), d);
    }
  }

  lemma ExecuteReaches(s: System, sc: Schedule, d: set<nat>)
    requires SlotsTyped(s) && s.active.None? && s.pending.Some? && s.lib.due - At(s.lib, sc, 7).due <= d
    ensures var out := ExecutePending(s, s.pending.value, sc);
            && SlotsTyped(out.sys)
            && Reaches(Abs(s), [if out.ok then Promote else ForgetWaiting], Abs(out.sys), d)
  {
    var p := s.pending.value;
    var l := At(s.lib, sc, 7);
    AtFrame(s.lib, sc, 7);
    SlipsReach(s, l, d);
    var r1 := Abs(s.(lib := l));
    var m := if Enabled(l, p, Execute) then Promote else ForgetWaiting;
    ReachesStep(r1, m, d);
    assert Fire(l, p, Execute).results == l.results;
    var r2 := Step(r1, m).value;
    ReachesSelf(r2, d);
    ReachesAround(Abs(s), r1, [m], r2, r2, d);
  }

  // ---------------------------------------------------------------------------------------------
  // The messages of the owner thread

  lemma AcceptedCallbackReaches(s: System, g: nat, sc: Schedule, d: set<nat>)
    requires SlotsTyped(s) && g < |s.lib.state| && s.lib.state[g].Accepted? && !InSlot(s, g)
    requires SlotsTyped(RunAcceptedCallback(s, g, sc)) && s.lib.due - RunAcceptedCallback(s, g, sc).lib.due <= d
    ensures var s' := RunAcceptedCallback(s, g, sc);
            if s.pending.None? then Reaches(Abs(s), [NewGoal(g)], Abs(s'), d)
            else || Reaches(Abs(s), [EndWaiting, NewGoal(g)], Abs(s'), d)
                 || Reaches(Abs(s), [ForgetWaiting, NewGoal(g)], Abs(s'), d)
  {
    var s' := RunAcceptedCallback(s, g, sc);
    var s1 := s.(lib := s'.lib, pending := None);
    ReplacedEffect(s, g, sc);
    if s.pending.Some? {
      var p := s.pending.value;
      ReplacedAs(s, g, sc);
      DisposedReaches(s, s'.lib, d);
      OfferedReaches(s, s', g, d);
      ReachesTrans(Abs(s), [Disposal(s'.lib, p)], Abs(s1), [NewGoal(g)], Abs(s'), d);
      assert [Disposal(s'.lib, p)] + [NewGoal(g)] == [Disposal(s'.lib, p), NewGoal(g)];
    } else {
      SlipsReach(s, s'.lib, d);
      OfferedReaches(s, s', g, d);
      ReachesTrans(Abs(s), [], Abs(s1), [NewGoal(g)], Abs(s'), d);
      assert [] + [NewGoal(g)] == [NewGoal(g)];
    }
  }

  /** The new goal starts to wait, and may have slipped already. */
  lemma OfferedReaches(s: System, s': System, g: nat, d: set<nat>)
    requires SlotsTyped(s') && s'.pending == Some(g)
    requires g < |s.lib.state| == |s'.lib.state| && s.lib.state[g].Accepted?
    requires SameOrSlipped(s.lib, s'.lib, g) && s.lib.due - s'.lib.due <= d
    ensures SlotsTyped(s'.(pending := None)) && Reaches(Abs(s'.(pending := None)), [NewGoal(g)], Abs(s'), d)
  {
    var r1 := Abs(s'.(pending := None));
    ReachesSelf(r1, d);
    ReachesStep(r1, NewGoal(g), d);
    var r2 := Step(r1, NewGoal(g)).value;
    WaitingSlips(r2, Abs(s').waiting, d);
    ReachesAround(r1, r1, [NewGoal(g)], r2, Abs(s'), d);
  }

  lemma HandlerReaches(s: System, g: nat, sc: Schedule, d: set<nat>)
    requires SlotsTyped(s) && SlotsTyped(BeginCancelHandler(s, g, sc))
    requires s.lib.due - BeginCancelHandler(s, g, sc).lib.due <= d
    ensures var s' := BeginCancelHandler(s, g, sc);
            if s.active != Some(g) && s.pending == Some(g)
            then Reaches(Abs(s), [EndWaiting], Abs(s'), d) || Reaches(Abs(s), [ForgetWaiting], Abs(s'), d)
            else Reaches(Abs(s), [], Abs(s'), d)
  {
    ReachesSelf(Abs(s), d);
    if s.active != Some(g) && s.pending == Some(g) {
      TerminateEffect(s.lib, g, sc);
      TerminatedAs(s.lib, g, sc);
      DisposedReaches(s, Terminate(s.lib, g, sc), d);
    }
  }

  // ---------------------------------------------------------------------------------------------
  // Events, queries and runs

  ghost predicate HasEventPath(s: System, e: Event) {
    exists ms: seq<Move> :: IsEventPath(s, e, ms)
  }

  lemma PathFound(s: System, e: Event, v: seq<Move>)
    requires SlotsTyped(s) && SlotsTyped(Apply(s, e))
    requires v in Documented(s, e) && Reaches(Abs(s), v, Abs(Apply(s, e)), s.lib.due - Apply(s, e).lib.due)
    ensures HasEventPath(s, e)
  {
    var ms: seq<Move> :| && Path(Abs(s), ms) == Some(Abs(Apply(s, e))) && ServerMoves(ms) == v
                         && CancelsOnly(ms, s.lib.due - Apply(s, e).lib.due);
    assert IsEventPath(s, e, ms);
  }

  lemma AcceptPath(s: System, e: Event)
    requires Inv(s) && e.CallAcceptPending?
    ensures HasEventPath(s, e)
  {
    var d := s.lib.due - Apply(s, e).lib.due;
    AcceptReaches(s, e.sc, d);
    if Returned(s, e) {
      PathFound(s, e, Finishing(s) + [Promote]);
    } else if Reaches(Abs(s), [NothingPending], Abs(Apply(s, e)), d) {
      PathFound(s, e, [NothingPending]);
    } else {
      PathFound(s, e, Finishing(s) + [ForgetWaiting]);
    }
  }

  lemma RejectPath(s: System, e: Event)
    requires Inv(s) && e.CallRejectPending?
    ensures HasEventPath(s, e)
  {
    var d := s.lib.due - Apply(s, e).lib.due;
    RejectReaches(s, e.sc, d);
    if !Returned(s, e) {
      PathFound(s, e, [NothingPending]);
    } else if Reaches(Abs(s), [EndWaiting], Abs(Apply(s, e)), d) {
      PathFound(s, e, [EndWaiting]);
    } else {
      PathFound(s, e, [ForgetWaiting]);
    }
  }

  lemma ActivePath(s: System, e: Event)
    requires Inv(s) && (e.CallAbortActive? || e.CallCancelActive? || e.CallSucceedActive?)
    ensures HasEventPath(s, e)
  {
    var d := s.lib.due - Apply(s, e).lib.due;
    if s.active.None? {
      NoActiveReaches(s, d);
      PathFound(s, e, [NothingActive]);
    } else if e.CallSucceedActive? {
      SucceedEffect(s, e.sc);
      SucceedReaches(s, e.sc, d);
      PathFound(s, e, [SucceedCurrent]);
    } else {
      FinishReaches(s, e.sc, d);
      PathFound(s, e, [FinishCurrent]);
    }
  }

  lemma AcceptedCallbackPath(s: System, e: Event)
    requires Inv(s) && e.OwnerStep? && s.owner.Idle? && s.queue != [] && s.queue[0].AcceptedCallback?
    ensures HasEventPath(s, e)
  {
    var g, s' := s.queue[0].goal, Apply(s, e);
    var d := s.lib.due - s'.lib.due;
    NextOffer(s);
    KeepsInv(s, e);
    var s1 := s.(queue := s.queue[1..]);
    assert Abs(s1) == Abs(s);
    AcceptedCallbackReaches(s1, g, e.sc, d);
    if s.pending.None? {
      PathFound(s, e, [NewGoal(g)]);
    } else if Reaches(Abs(s), [EndWaiting, NewGoal(g)], Abs(s'), d) {
      PathFound(s, e, [EndWaiting, NewGoal(g)]);
    } else {
      PathFound(s, e, [ForgetWaiting, NewGoal(g)]);
    }
  }

  lemma CancelHandlerPath(s: System, e: Event)
    requires Inv(s) && e.OwnerStep? && s.owner.Idle? && s.queue != [] && s.queue[0].CancelHandler?
    ensures HasEventPath(s, e)
  {
    var g, s' := s.queue[0].goal, Apply(s, e);
    var d := s.lib.due - s'.lib.due;
    KeepsInv(s, e);
    var s1 := s.(queue := s.queue[1..]);
    assert Abs(s1) == Abs(s);
    HandlerReaches(s1, g, e.sc, d);
    if s.active == Some(g) || s.pending != Some(g) {
      PathFound(s, e, []);
    } else if Reaches(Abs(s), [EndWaiting], Abs(s'), d) {
      PathFound(s, e, [EndWaiting]);
    } else {
      PathFound(s, e, [ForgetWaiting]);
    }
  }

  lemma HookReturnPath(s: System, e: Event)
    requires Inv(s) && e.HookReturn?
    ensures HasEventPath(s, e)
  {
    var d := s.lib.due - Apply(s, e).lib.due;
    if s.owner.InCancelHook? && s.active == Some(s.owner.goal) {
      FinishReaches(s, e.sc, d);
      assert Abs(FinishActive(s, e.sc).sys) == Abs(Apply(s, e));
      PathFound(s, e, [FinishCurrent]);
    } else {
      ReachesSelf(Abs(s), d);
      PathFound(s, e, []);
    }
  }

  /** The library ends a goal that has no result and is in no slot. */
  lemma ReleaseReaches(s: System, g: nat, abort: bool, d: set<nat>)
    requires Inv(s) && Releasable(s, g)
    ensures var s' := s.(lib := ReleaseHandle(s.lib, g, abort));
            SlotsTyped(s') && Reaches(Abs(s), [EndReleased(g, abort)], Abs(s'), d)
  {
    ReleaseStep(s, g, abort);
    ReachesStep(Abs(s), EndReleased(g, abort), d);
  }

  lemma LibraryEventPath(s: System, e: Event)
    requires Inv(s) && (e.Deliver? || e.RequestCancel? || e.CancelTransition? || e.HandleReleased?)
    ensures HasEventPath(s, e)
  {
    KeepsInv(s, e);
    var d := s.lib.due - Apply(s, e).lib.due;
    ReachesSelf(Abs(s), d);
    match e
    case Deliver => PathFound(s, e, []);
    case RequestCancel(_) => PathFound(s, e, []);
    case CancelTransition(g) =>
      SlipOneFrame(s.lib, g);
      SlipsReach(s, Slip(s.lib, g), d);
      PathFound(s, e, []);
    case HandleReleased(g, abort) =>
      if Releasable(s, g) {
        ReleaseReaches(s, g, abort, d);
        PathFound(s, e, [EndReleased(g, abort)]);
      } else {
        PathFound(s, e, []);
      }
  }

  lemma OwnerPath(s: System, e: Event)
    requires Inv(s) && e.OwnerStep?
    ensures HasEventPath(s, e)
  {
    if !s.owner.Idle? || s.queue == [] {
      ReachesSelf(Abs(s), {});
      PathFound(s, e, []);
    } else if s.queue[0].AcceptedCallback? {
      AcceptedCallbackPath(s, e);
    } else {
      CancelHandlerPath(s, e);
    }
  }

  lemma ShutdownPath(s: System)
    requires Inv(s)
    ensures HasEventPath(s, Shutdown)
  {
    ReachesStep(Abs(s), Clear, {});
    PathFound(s, Shutdown, [Clear]);
  }

  /** Every event, whatever slips in, is a path of the ROS 1 server with the moves documented for it. */
  lemma EventsAreRos1Paths(s: System, e: Event)
    requires Inv(s)
    ensures exists ms: seq<Move> :: IsEventPath(s, e, ms)
  {
    match e
    case CallAcceptPending(_) => AcceptPath(s, e);
    case CallRejectPending(_) => RejectPath(s, e);
    case CallAbortActive(_) => ActivePath(s, e);
    case CallCancelActive(_) => ActivePath(s, e);
    case CallSucceedActive(_) => ActivePath(s, e);
    case OwnerStep(_) => OwnerPath(s, e);
    case HookReturn(_) => HookReturnPath(s, e);
    case Shutdown => ShutdownPath(s);
    case _ => LibraryEventPath(s, e);
    assert HasEventPath(s, e);
  }

  /**
  The queries of the server read off the ROS 1 state exactly: the state at their return, when
  CANCELING transitions slip in between their accesses to a handle.
  */
  lemma QueriesReadRos1State(s: System, sc: Schedule)
    requires Inv(s)
    ensures IsActive(s) <==> Abs(s).current.ActiveGoal?
    ensures IsPreempting(s) <==> Abs(s).current.PreemptingGoal?
    ensures IsPending(s) <==> Abs(s).waiting.PendingGoal?
    ensures var h := GetActiveGoal(s, sc); var s' := s.(lib := h.lib);
            && SlotsTyped(s') && Reaches(Abs(s), [], Abs(s'), s.lib.due - h.lib.due)
            && h.goal == if Abs(s').current.NoGoal? then None else Some(Abs(s').current.goal)
    ensures var h := GetPendingGoal(s, sc); var s' := s.(lib := h.lib);
            && SlotsTyped(s') && Reaches(Abs(s), [], Abs(s'), s.lib.due - h.lib.due)
            && h.goal == if Abs(s').waiting.PendingGoal? then Some(Abs(s').waiting.goal) else None
  {
    PendingHandleEffect(s.lib, s.pending, []);
    PendingHandleEffect(s.lib, s.pending, sc);
    SlipsReach(s, GetPendingGoal(s, sc).lib, s.lib.due - GetPendingGoal(s, sc).lib.due);
    ReachesSelf(Abs(s), {});
    if s.active.Some? {
      SeesLiveEffect(s.lib, s.active.value, sc, 0);
      SlipsReach(s, GetActiveGoal(s, sc).lib, s.lib.due - GetActiveGoal(s, sc).lib.due);
    }
  }

  /**
  Every run of the server is a run of the ROS 1 server in which each event makes the moves documented
  for it: the same goals in the slots and the same results in the same order.
  */
  lemma {:induction false} RunsAreRos1Runs(s: System, es: seq<Event>)
    requires Inv(s)
    ensures Inv(Run(s, es))
    ensures exists paths: seq<seq<Move>> ::
              IsRunPath(s, es, paths) && Path(Abs(s), Concat(paths)) == Some(Abs(Run(s, es)))
    decreases |es|
  {
    if es == [] {
      assert IsRunPath(s, es, []) && Path(Abs(s), Concat([])) == Some(Abs(Run(s, es)));
    } else {
      var s' := Apply(s, es[0]);
      KeepsInv(s, es[0]);
      EventsAreRos1Paths(s, es[0]);
      RunsAreRos1Runs(s', es[1..]);
      var ms: seq<Move> :| IsEventPath(s, es[0], ms);
      var rest: seq<seq<Move>> :|
        IsRunPath(s', es[1..], rest) && Path(Abs(s'), Concat(rest)) == Some(Abs(Run(s', es[1..])));
      var paths := [ms] + rest;
      assert paths[1..] == rest;
      PathConcat(Abs(s), ms, Concat(rest));
      assert IsRunPath(s, es, paths) && Path(Abs(s), Concat(paths)) == Some(Abs(Run(s, es)));
    }
  }
}
