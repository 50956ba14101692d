/**
Events that meet no late transition: their ROS 1 moves are a function of the ROS 1 state.
*/
module Ros1Atomic {
  import opened Wrappers
  import opened GoalStates
  import opened ActionProtocol
  import opened ActionRaces
  import opened ActionEffects
  import opened ActionInvariants
  import opened Ros1Server

  predicate Atomic(e: Event) {
    match e
    case CallAcceptPending(sc) => sc == []
    case CallRejectPending(sc) => sc == []
    case CallAbortActive(sc) => sc == []
    case CallCancelActive(sc) => sc == []
    case CallSucceedActive(sc) => sc == []
    case OwnerStep(sc) => sc == []
    case HookReturn(sc) => sc == []
    case _ => true
  }

  /** The ROS 1 meaning of a message handled in the owner thread. */
  function MessageMoves(r: Ros1, m: Message): seq<Move> {
    match m
    case AcceptedCallback(g) =>
      (match r.waiting
       case NothingWaiting => []
       case PendingGoal(_) => [EndWaiting]
       case RecallingGoal(_) => [ForgetWaiting]) + [NewGoal(g)]
    case CancelHandler(g) =>
      if !r.waiting.NothingWaiting? && r.waiting.goal == g then [EndWaiting] else []
  }

  /** The ROS 1 meaning of an event that meets no late transition. */
  function Moves(s: System, r: Ros1, e: Event): seq<Move> {
    match e
    case Deliver => []
    case RequestCancel(_) => []
    case CancelTransition(g) =>
      if g !in s.lib.due then []
      else if r.current == ActiveGoal(g) then [Preempt(g)]
      else if r.waiting == PendingGoal(g) then [Recall(g)]
      else []
    case CallAcceptPending(_) =>
      if !r.waiting.PendingGoal? then [NothingPending]
      else (if r.current.NoGoal? then [] else [FinishCurrent]) + [Promote]
    case CallRejectPending(_) => if r.waiting.PendingGoal? then [EndWaiting] else [NothingPending]
    case CallAbortActive(_) => if r.current.NoGoal? then [NothingActive] else [FinishCurrent]
    case CallCancelActive(_) => if r.current.NoGoal? then [NothingActive] else [FinishCurrent]
    case CallSucceedActive(_) => if r.current.NoGoal? then [NothingActive] else [SucceedCurrent]
    case OwnerStep(_) => if s.owner.Idle? && s.queue != [] then MessageMoves(r, s.queue[0]) else []
    case HookReturn(_) =>
      if s.owner.InCancelHook? && !r.current.NoGoal? && r.current.goal == s.owner.goal then [FinishCurrent] else []
    case Shutdown => [Clear]
    case HandleReleased(g, abort) => if Releasable(s, g) then [EndReleased(g, abort)] else []
  }

  lemma AtomicAccept(s: System)
    requires SlotsTyped(s) && SlotsTyped(AcceptPending(s, []).sys)
    ensures Path(Abs(s), Moves(s, Abs(s), CallAcceptPending([]))) == Some(Abs(AcceptPending(s, []).sys))
    ensures AcceptPending(s, []).ok <==> IsPending(s)
  {
    PathOne(Abs(s), NothingPending);
    if Abs(s).waiting.PendingGoal? {
      var l := FinishActive(s, []).sys.lib;
      if Abs(s).current.NoGoal? {
        PathOne(Abs(s), Promote);
        assert [] + [Promote] == [Promote];
      } else {
        PathTwo(Abs(s), FinishCurrent, Promote);
        assert [FinishCurrent] + [Promote] == [FinishCurrent, Promote];
        FinishEffect(s, []);
      }
      assert Fire(l, s.pending.value, Execute).results == l.results;
    }
  }

  lemma TerminateAtomically(l: Goals, g: nat)
    requires Deferred(l, g)
    ensures var code := if l.state[g].Canceling? then Canceled else Aborted; var l' := Terminate(l, g, []);
            l'.state == l.state[g := code] && l'.due == l.due && l'.results == l.results + [ClientResult(g, code)]
  {
    assert Fire(l, g, Execute).results == l.results;
  }

  /** acceptedCallback() replaces the pending goal, if any, by goal g. */
  lemma ReplaceAtomically(s: System, g: nat)
    requires SlotsTyped(s)
    ensures var l := RunAcceptedCallback(s, g, []).lib;
            l == if AbsWaiting(s).PendingGoal? then Terminate(s.lib, s.pending.value, []) else s.lib
  {
  }

  lemma AtomicOffer(s: System, g: nat)
    requires SlotsTyped(s) && g < |s.lib.state| && s.lib.state[g].Accepted? && !InSlot(s, g)
    requires SlotsTyped(RunAcceptedCallback(s, g, []))
    ensures Path(Abs(s), MessageMoves(Abs(s), AcceptedCallback(g))) == Some(Abs(RunAcceptedCallback(s, g, [])))
  {
    var r := Abs(s);
    ReplaceAtomically(s, g);
    if r.waiting.NothingWaiting? {
      PathOne(r, NewGoal(g));
      assert [] + [NewGoal(g)] == [NewGoal(g)];
    } else {
      TerminateAtomically(s.lib, s.pending.value);
      var first := if r.waiting.PendingGoal? then EndWaiting else ForgetWaiting;
      PathTwo(r, first, NewGoal(g));
      assert [first] + [NewGoal(g)] == [first, NewGoal(g)];
    }
  }

  lemma AtomicHandler(s: System, g: nat)
    requires SlotsTyped(s) && SlotsTyped(BeginCancelHandler(s, g, []))
    ensures Path(Abs(s), MessageMoves(Abs(s), CancelHandler(g))) == Some(Abs(BeginCancelHandler(s, g, [])))
  {
    if s.pending == Some(g) {
      PathOne(Abs(s), EndWaiting);
      TerminateAtomically(s.lib, g);
    }
  }

  lemma AtomicMessage(s: System)
    requires Inv(s) && SlotsTyped(Apply(s, OwnerStep([]))) && s.owner.Idle? && s.queue != []
    ensures Path(Abs(s), MessageMoves(Abs(s), s.queue[0])) == Some(Abs(Apply(s, OwnerStep([]))))
  {
    var s1 := s.(queue := s.queue[1..]);
    assert Abs(s1) == Abs(s);
    if s.queue[0].AcceptedCallback? {
      NextOffer(s);
      AtomicOffer(s1, s.queue[0].goal);
    } else {
      AtomicHandler(s1, s.queue[0].goal);
    }
  }

  lemma AtomicReject(s: System)
    requires SlotsTyped(s) && SlotsTyped(RejectPending(s, []).sys)
    ensures Path(Abs(s), Moves(s, Abs(s), CallRejectPending([]))) == Some(Abs(RejectPending(s, []).sys))
  {
    PathOne(Abs(s), EndWaiting);
    PathOne(Abs(s), NothingPending);
    if s.pending.Some? { TerminateAtomically(s.lib, s.pending.value); }
  }

  lemma AtomicFinish(s: System)
    requires SlotsTyped(s) && SlotsTyped(FinishActive(s, []).sys)
    ensures Path(Abs(s), Moves(s, Abs(s), CallAbortActive([]))) == Some(Abs(FinishActive(s, []).sys))
  {
    PathOne(Abs(s), FinishCurrent);
    PathOne(Abs(s), NothingActive);
  }

  lemma AtomicHookReturn(s: System)
    requires SlotsTyped(s) && SlotsTyped(Apply(s, HookReturn([]))) && SlotsTyped(FinishActive(s, []).sys)
    ensures Path(Abs(s), Moves(s, Abs(s), HookReturn([]))) == Some(Abs(Apply(s, HookReturn([]))))
  {
    AtomicFinish(s);
  }

  lemma AtomicCancel(s: System, g: nat)
    requires Inv(s) && SlotsTyped(Apply(s, CancelTransition(g)))
    ensures Path(Abs(s), Moves(s, Abs(s), CancelTransition(g))) == Some(Abs(Apply(s, CancelTransition(g))))
  {
    var s' := Apply(s, CancelTransition(g));
    PathOne(Abs(s), Preempt(g));
    PathOne(Abs(s), Recall(g));
    assert s'.lib.results == s.lib.results;
    assert forall h | 0 <= h < |s.lib.state| && h != g :: s'.lib.state[h] == s.lib.state[h];
  }

  /** Events that involve at most one slot, and the arrival of goals and cancel requests. */
  lemma AtomicOther(s: System, e: Event)
    requires SlotsTyped(s) && SlotsTyped(Apply(s, e))
    requires e.Deliver? || e.RequestCancel? || e.Shutdown? || (e.CallSucceedActive? && e.sc == [])
    ensures Path(Abs(s), Moves(s, Abs(s), e)) == Some(Abs(Apply(s, e)))
  {
    PathOne(Abs(s), SucceedCurrent);
    PathOne(Abs(s), NothingActive);
    PathOne(Abs(s), Clear);
  }

  lemma AtomicRelease(s: System, e: Event)
    requires Inv(s) && e.HandleReleased?
    ensures SlotsTyped(Apply(s, e)) && Path(Abs(s), Moves(s, Abs(s), e)) == Some(Abs(Apply(s, e)))
  {
    if Releasable(s, e.goal) {
      ReleaseStep(s, e.goal, e.abort);
      PathOne(Abs(s), EndReleased(e.goal, e.abort));
    }
  }

  lemma AtomicOwner(s: System)
    requires Inv(s) && SlotsTyped(Apply(s, OwnerStep([])))
    ensures Path(Abs(s), Moves(s, Abs(s), OwnerStep([]))) == Some(Abs(Apply(s, OwnerStep([]))))
  {
    if s.owner.Idle? && s.queue != [] { AtomicMessage(s); }
  }

  lemma SlotsKept(s: System, e: Event)
    requires Inv(s)
    ensures SlotsTyped(Apply(s, e))
  {
    KeepsInv(s, e);
  }

  lemma {:induction false} NoCancels(ms: seq<Move>)
    requires forall m :: m in ms ==> !IsCancel(m)
    ensures ServerMoves(ms) == ms
  {
    if ms == [] {
    } else {
      NoCancels(ms[1..]);
    }
  }

  lemma {:induction false} OnlyCancels(ms: seq<Move>)
    requires forall m :: m in ms ==> IsCancel(m)
    ensures ServerMoves(ms) == []
  {
    if ms == [] {
    } else {
      OnlyCancels(ms[1..]);
    }
  }

  lemma MessageMovesDocumented(s: System)
    requires Inv(s) && s.owner.Idle? && s.queue != []
    ensures MessageMoves(Abs(s), s.queue[0]) in DocumentedMessage(s, s.queue[0])
  {
    if s.queue[0].AcceptedCallback? {
      NextOffer(s);
      var offer := NewGoal(s.offered);
      assert [] + [offer] == [offer];
      assert [EndWaiting] + [offer] == [EndWaiting, offer];
      assert [ForgetWaiting] + [offer] == [ForgetWaiting, offer];
    }
  }

  lemma AcceptMovesDocumented(s: System, e: Event)
    requires Inv(s) && e == CallAcceptPending([])
    ensures Moves(s, Abs(s), e) in Documented(s, e)
  {
    SlotsKept(s, e);
    AtomicAccept(s);
    PendingHandleEffect(s.lib, s.pending, []);
  }

  lemma RejectMovesDocumented(s: System, e: Event)
    requires Inv(s) && e == CallRejectPending([])
    ensures Moves(s, Abs(s), e) in Documented(s, e)
  {
    if s.pending.Some? { RejectEffect(s, []); }
  }

  lemma FinishMovesDocumented(s: System, e: Event)
    requires Inv(s) && e in {CallAbortActive([]), CallCancelActive([])}
    ensures Moves(s, Abs(s), e) in Documented(s, e)
  {
    if s.active.Some? { FinishEffect(s, []); }
  }

  lemma SucceedMovesDocumented(s: System, e: Event)
    requires Inv(s) && e == CallSucceedActive([])
    ensures Moves(s, Abs(s), e) in Documented(s, e)
  {
    if s.active.Some? { SucceedEffect(s, []); }
  }

  /** The moves are documented for the event. */
  lemma MovesDocumented(s: System, e: Event)
    requires Inv(s) && Atomic(e) && !e.CancelTransition?
    ensures Moves(s, Abs(s), e) in Documented(s, e)
  {
    match e
    case CallAcceptPending(_) => AcceptMovesDocumented(s, e);
    case CallRejectPending(_) => RejectMovesDocumented(s, e);
    case CallAbortActive(_) => FinishMovesDocumented(s, e);
    case CallCancelActive(_) => FinishMovesDocumented(s, e);
    case CallSucceedActive(_) => SucceedMovesDocumented(s, e);
    case OwnerStep(_) => if s.owner.Idle? && s.queue != [] { MessageMovesDocumented(s); }
    case _ =>
  }

  /** The client's cancels are the moves of CANCELING transitions, and only those. */
  lemma CancelsAreTransitions(s: System, e: Event)
    requires Inv(s) && Atomic(e)
    ensures !e.CancelTransition? ==> forall m :: m in Moves(s, Abs(s), e) ==> !IsCancel(m)
    ensures e.CancelTransition? ==>
              forall m :: m in Moves(s, Abs(s), e) ==> IsCancel(m) && m.goal == e.goal && e.goal in s.lib.due
  {
  }

  /** Each event that meets no late transition makes exactly the ROS 1 moves it stands for. */
  lemma AtomicEventsAreRos1Moves(s: System, e: Event)
    requires Inv(s) && Atomic(e)
    ensures IsEventPath(s, e, Moves(s, Abs(s), e))
  {
    var ms := Moves(s, Abs(s), e);
    AtomicMoves(s, e);
    CancelsAreTransitions(s, e);
    if e.CancelTransition? {
      OnlyCancels(ms);
    } else {
      MovesDocumented(s, e);
      NoCancels(ms);
    }
  }

  lemma AtomicMoves(s: System, e: Event)
    requires Inv(s) && Atomic(e)
    ensures SlotsTyped(Apply(s, e))
    ensures Path(Abs(s), Moves(s, Abs(s), e)) == Some(Abs(Apply(s, e)))
  {
    SlotsKept(s, e);
    match e
    case CancelTransition(g) => AtomicCancel(s, g);
    case CallAcceptPending(_) => AtomicAccept(s);
    case CallRejectPending(_) => AtomicReject(s);
    case CallAbortActive(_) => AtomicFinish(s);
    case CallCancelActive(_) => AtomicFinish(s);
    case OwnerStep(_) => AtomicOwner(s);
    case HookReturn(_) => SlotsKept(s, CallAbortActive([])); AtomicHookReturn(s);
    case HandleReleased(_, _) => AtomicRelease(s, e);
    case _ => AtomicOther(s, e);
  }
}
