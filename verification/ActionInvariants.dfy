/**
Invariants of the action server over every run, with every interleaving of deliveries, cancel
requests, late CANCELING transitions, public calls and hooks.
*/
module ActionInvariants {
  import opened Wrappers
  import opened Sequences
  import opened GoalStates
  import opened ActionProtocol
  import opened ActionRaces
  import opened ActionEffects

  predicate InSlot(s: System, g: nat) { s.active == Some(g) || s.pending == Some(g) }

  /** The accepted callbacks in the queue are those of goals lo, lo + 1, ..., hi - 1 in this order. */
  predicate OffersInOrder(q: seq<Message>, lo: nat, hi: nat)
    decreases |q|
  {
    if q == [] then lo == hi
    else if q[0].AcceptedCallback? then q[0].goal == lo && OffersInOrder(q[1..], lo + 1, hi)
    else OffersInOrder(q[1..], lo, hi)
  }

  predicate StrictlyIncreasing(a: seq<nat>) {
    forall i, j :: 0 <= i < j < |a| ==> a[i] < a[j]
  }

  /** The active slot holds a live goal, the pending slot a deferred one that was delivered later. */
  predicate SlotsTyped(s: System) {
    && (s.active.Some? ==> Live(s.lib, s.active.value))
    && (s.pending.Some? ==> Deferred(s.lib, s.pending.value))
    && (s.active.Some? && s.pending.Some? ==> s.active.value < s.pending.value)
  }

  predicate OrderKept(s: System) {
    && OffersInOrder(s.queue, s.offered, |s.lib.state|)
    && s.offered <= |s.lib.state|
    && (s.pending.Some? ==> s.pending.value + 1 == s.offered)
    && StrictlyIncreasing(s.activated)
    && (forall a :: a in s.activated ==> a < s.offered && s.pending != Some(a))
    && (s.active.Some? ==> s.activated != [] && s.activated[|s.activated| - 1] == s.active.value)
  }

  ghost predicate CancelsTracked(s: System) {
    && s.lib.due <= s.sent
    && (forall g :: g in s.sent ==> g < s.offered)
    && (forall g | 0 <= g < |s.lib.state| :: s.lib.state[g].Canceling? ==> g in s.sent)
    && (forall g | s.offered <= g < |s.lib.state| :: s.lib.state[g].Accepted?)
    && (forall g :: InSlot(s, g) && g in s.sent ==> CancelHandler(g) in s.queue || s.owner == InCancelHook(g))
  }

  ghost predicate HooksTracked(s: System) {
    && Distinct(s.cancelHooks)
    && (forall g :: g in s.cancelHooks ==> g in s.activated)
    && (forall g :: g in s.cancelHooks && InSlot(s, g) ==> s.owner == InCancelHook(g))
    && (s.owner.InCancelHook? ==> s.owner.goal in s.cancelHooks)
  }

  ghost predicate Inv(s: System) {
    WellFormed(s.lib) && SlotsTyped(s) && OrderKept(s) && CancelsTracked(s) && HooksTracked(s)
  }

  /** Every offered goal is in a slot or done, or is left CANCELING without ever having been active. */
  ghost predicate NoneStranded(s: System) {
    forall g | 0 <= g < s.offered && g < |s.lib.state| && !InSlot(s, g) ::
      s.lib.state[g].IsTerminal() || (s.lib.state[g].Canceling? && g !in s.activated)
  }

  // ---------------------------------------------------------------------------------------------
  // Every event keeps the invariants

  lemma {:induction false} OffersAppend(q: seq<Message>, m: Message, lo: nat, hi: nat)
    requires OffersInOrder(q, lo, hi) && lo <= hi
    ensures m.CancelHandler? ==> OffersInOrder(q + [m], lo, hi)
    ensures m == AcceptedCallback(hi) ==> OffersInOrder(q + [m], lo, hi + 1)
    decreases |q|
  {
    if q == [] {
      assert (q + [m])[1..] == [];
    } else {
      OffersBound(q[1..], if q[0].AcceptedCallback? then lo + 1 else lo, hi);
      OffersAppend(q[1..], m, if q[0].AcceptedCallback? then lo + 1 else lo, hi);
      assert (q + [m])[1..] == q[1..] + [m];
    }
  }

  lemma {:induction false} OffersBound(q: seq<Message>, lo: nat, hi: nat)
    requires OffersInOrder(q, lo, hi)
    ensures lo <= hi
    decreases |q|
  {
    if q == [] {
    } else {
      OffersBound(q[1..], if q[0].AcceptedCallback? then lo + 1 else lo, hi);
    }
  }

  /** A goal that has not been offered yet has its accepted callback in the queue. */
  lemma {:induction false} OffersCover(q: seq<Message>, lo: nat, hi: nat, g: nat)
    requires OffersInOrder(q, lo, hi) && lo <= g < hi
    ensures AcceptedCallback(g) in q
    decreases |q|
  {
    if q == [] {
    } else if q[0] != AcceptedCallback(g) {
      OffersCover(q[1..], if q[0].AcceptedCallback? then lo + 1 else lo, hi, g);
    }
  }

  lemma ReleasedWasOffered(s: System, g: nat)
    requires OrderKept(s) && Releasable(s, g)
    ensures g < s.offered
  {
    if g >= s.offered { OffersCover(s.queue, s.offered, |s.lib.state|, g); }
  }

  lemma KeepsReleased(s: System, g: nat, abort: bool)
    requires Inv(s) && Releasable(s, g)
    ensures var s' := s.(lib := ReleaseHandle(s.lib, g, abort));
            Inv(s') && (NoneStranded(s) ==> NoneStranded(s'))
  {
    ReleaseEffect(s.lib, g, abort);
    ReleasedWasOffered(s, g);
    ReleaseKeepsTracking(s, g, abort);
  }

  lemma ReleaseKeepsTracking(s: System, g: nat, abort: bool)
    requires CancelsTracked(s) && HooksTracked(s) && g < s.offered && g < |s.lib.state| && s.lib.state[g].IsActive()
    ensures var s' := s.(lib := ReleaseHandle(s.lib, g, abort)); CancelsTracked(s') && HooksTracked(s')
  {
    ReleaseEffect(s.lib, g, abort);
  }

  lemma KeepsDeliver(s: System)
    requires Inv(s)
    ensures Inv(Apply(s, Deliver))
    ensures NoneStranded(s) ==> NoneStranded(Apply(s, Deliver))
  {
    NewGoalKeepsWellFormed(s.lib);
    OffersAppend(s.queue, AcceptedCallback(|s.lib.state|), s.offered, |s.lib.state|);
  }

  lemma KeepsRequestCancel(s: System, g: nat)
    requires Inv(s)
    ensures Inv(Apply(s, RequestCancel(g)))
    ensures NoneStranded(s) ==> NoneStranded(Apply(s, RequestCancel(g)))
  {
    OffersAppend(s.queue, CancelHandler(g), s.offered, |s.lib.state|);
    if InSlot(s, g) {
      assert g < s.offered by {
        if s.active == Some(g) { assert s.activated[|s.activated| - 1] in s.activated; }
      }
      assert s.queue + [CancelHandler(g)] == Apply(s, RequestCancel(g)).queue;
    }
  }

  lemma KeepsCancelTransition(s: System, g: nat)
    requires Inv(s)
    ensures Inv(Apply(s, CancelTransition(g)))
    ensures NoneStranded(s) ==> NoneStranded(Apply(s, CancelTransition(g)))
  {
    SlipOneFrame(s.lib, g);
    KeepsFrame(s, Slip(s.lib, g));
  }

  /** Late transitions alone keep the invariants. */
  lemma KeepsFrame(s: System, l: Goals)
    requires Inv(s) && Frame(s.lib, l, {}) && WellFormed(l)
    ensures Inv(s.(lib := l))
    ensures NoneStranded(s) ==> NoneStranded(s.(lib := l))
  {
    FrameStates(s.lib, l, {});
    ActivatedSlots(s);
  }

  /** The goals in the slots have been offered. */
  lemma ActivatedSlots(s: System)
    requires OrderKept(s)
    ensures forall g: nat :: InSlot(s, g) ==> g < s.offered
    ensures s.active.Some? ==> s.active.value in s.activated
  {
    if s.active.Some? { assert s.activated[|s.activated| - 1] in s.activated; }
  }

  /** A finished active goal leaves its slot. */
  lemma KeepsFinished(s: System, l: Goals)
    requires Inv(s) && s.active.Some? && Frame(s.lib, l, {s.active.value}) && WellFormed(l)
    requires l.state[s.active.value].IsTerminal()
    ensures Inv(s.(lib := l, active := None))
    ensures NoneStranded(s) ==> NoneStranded(s.(lib := l, active := None))
  {
    var a := s.active.value;
    FrameStates(s.lib, l, {a});
    ActivatedSlots(s);
  }

  /** A terminated pending goal leaves its slot, perhaps still CANCELING. */
  lemma KeepsTerminated(s: System, l: Goals)
    requires Inv(s) && s.pending.Some? && Frame(s.lib, l, {s.pending.value}) && WellFormed(l)
    requires var st := l.state[s.pending.value]; st.IsTerminal() || (st.Canceling? && s.pending.value in s.sent)
    ensures Inv(s.(lib := l, pending := None))
    ensures NoneStranded(s) ==> NoneStranded(s.(lib := l, pending := None))
  {
    var p := s.pending.value;
    FrameStates(s.lib, l, {p});
    ActivatedSlots(s);
  }

  lemma KeepsFinishActive(s: System, sc: Schedule)
    requires Inv(s)
    ensures Inv(FinishActive(s, sc).sys)
    ensures NoneStranded(s) ==> NoneStranded(FinishActive(s, sc).sys)
  {
    if s.active.Some? {
      FinishEffect(s, sc);
      KeepsFinished(s, FinishActive(s, sc).sys.lib);
    }
  }

  lemma KeepsSucceedActive(s: System, sc: Schedule)
    requires Inv(s)
    ensures Inv(SucceedActive(s, sc).sys)
    ensures NoneStranded(s) ==> NoneStranded(SucceedActive(s, sc).sys)
  {
    if s.active.Some? {
      SucceedEffect(s, sc);
      KeepsFinished(s, SucceedActive(s, sc).sys.lib);
    }
  }

  lemma KeepsRejectPending(s: System, sc: Schedule)
    requires Inv(s)
    ensures Inv(RejectPending(s, sc).sys)
    ensures NoneStranded(s) ==> NoneStranded(RejectPending(s, sc).sys)
  {
    RejectEffect(s, sc);
    PendingHandleEffect(s.lib, s.pending, sc);
    var out := RejectPending(s, sc);
    if out.ok {
      KeepsTerminated(s, out.sys.lib);
    } else {
      KeepsFrame(s, out.sys.lib);
    }
  }

  /** The pending goal becomes active. */
  lemma KeepsActivated(s: System, l: Goals)
    requires Inv(s) && s.active.None? && s.pending.Some? && Frame(s.lib, l, {s.pending.value}) && WellFormed(l)
    requires l.state[s.pending.value].Executing?
    ensures var activated := s.activated + [s.pending.value];
            var s' := s.(lib := l, active := s.pending, pending := None, activated := activated);
            Inv(s') && (NoneStranded(s) ==> NoneStranded(s'))
  {
    var p := s.pending.value;
    FrameStates(s.lib, l, {p});
    var s' := s.(lib := l, active := s.pending, pending := None, activated := s.activated + [p]);
    forall i | 0 <= i < |s.activated| ensures s.activated[i] < p { assert s.activated[i] in s.activated; }
    assert forall g :: g in s'.activated <==> g in s.activated || g == p;
    assert s'.activated[|s'.activated| - 1] == p;
  }

  lemma KeepsExecuted(s: System, sc: Schedule)
    requires Inv(s) && s.active.None? && s.pending.Some?
    ensures var s' := ExecutePending(s, s.pending.value, sc).sys;
            Inv(s') && (NoneStranded(s) ==> NoneStranded(s'))
  {
    var l := At(s.lib, sc, 7);
    AtFrame(s.lib, sc, 7);
    KeepsFrame(s, l);
    FireFrame(l, s.pending.value, Execute);
    if Enabled(l, s.pending.value, Execute) {
      KeepsActivated(s.(lib := l), Fire(l, s.pending.value, Execute));
    } else {
      KeepsTerminated(s.(lib := l), l);
    }
  }

  lemma KeepsAcceptPending(s: System, sc: Schedule)
    requires Inv(s)
    ensures Inv(AcceptPending(s, sc).sys)
    ensures NoneStranded(s) ==> NoneStranded(AcceptPending(s, sc).sys)
  {
    var h := PendingHandle(s.lib, s.pending, sc);
    PendingHandleEffect(s.lib, s.pending, sc);
    var s0 := s.(lib := h.lib);
    KeepsFrame(s, h.lib);
    if h.goal.Some? {
      KeepsFinishActive(s0, sc);
      if s0.active.Some? { FinishEffect(s0, sc); }
      KeepsExecuted(FinishActive(s0, sc).sys, sc);
    }
  }

  /** A cancel handler is taken for a goal that is in no slot any more. */
  lemma KeepsHandlerTaken(s: System)
    requires Inv(s) && s.owner.Idle? && s.queue != []
    requires s.queue[0].CancelHandler? && !InSlot(s, s.queue[0].goal)
    ensures Inv(s.(queue := s.queue[1..]))
  {
    assert s.queue == [s.queue[0]] + s.queue[1..];
  }

  /** A cancel handler is taken for the active goal: the cancel hook starts. */
  lemma KeepsHookStarted(s: System)
    requires Inv(s) && s.owner.Idle? && s.queue != []
    requires s.queue[0].CancelHandler? && s.active == Some(s.queue[0].goal)
    ensures var g := s.queue[0].goal;
            Inv(s.(queue := s.queue[1..], owner := InCancelHook(g), cancelHooks := s.cancelHooks + [g]))
  {
    var g := s.queue[0].goal;
    assert s.queue == [s.queue[0]] + s.queue[1..];
    ActivatedSlots(s);
    assert g !in s.cancelHooks;
    assert forall h :: h in s.cancelHooks + [g] <==> h in s.cancelHooks || h == g;
  }

  /** The goal of the next accepted callback is new: ACCEPTED and in no slot. */
  lemma NextOffer(s: System)
    requires Inv(s) && s.queue != [] && s.queue[0].AcceptedCallback?
    ensures var g := s.queue[0].goal;
            && g == s.offered < |s.lib.state| && s.lib.state[g].Accepted?
            && !InSlot(s, g) && g !in s.sent && g !in s.activated
  {
    OffersBound(s.queue[1..], s.offered + 1, |s.lib.state|);
    ActivatedSlots(s);
  }

  /** The next goal takes the empty pending slot. */
  lemma KeepsOffered(s: System)
    requires Inv(s) && s.owner.Idle? && s.pending.None? && s.queue != [] && s.queue[0].AcceptedCallback?
    ensures var g := s.queue[0].goal;
            var s' := s.(queue := s.queue[1..], pending := Some(g), offered := s.offered + 1, owner := InGoalHook(g));
            Inv(s') && (NoneStranded(s) ==> NoneStranded(s'))
  {
    assert s.queue == [s.queue[0]] + s.queue[1..];
    NextOffer(s);
    OffersBound(s.queue[1..], s.offered + 1, |s.lib.state|);
    ActivatedSlots(s);
  }

  /** acceptedCallback() first disposes of the goal in the pending slot. */
  function Disposed(s: System, sc: Schedule): System {
    s.(lib := RunAcceptedCallback(s, 0, sc).lib, pending := None)
  }

  lemma KeepsReplaced(s: System, sc: Schedule)
    requires Inv(s)
    ensures Inv(Disposed(s, sc)) && (NoneStranded(s) ==> NoneStranded(Disposed(s, sc)))
  {
    var h := PendingHandle(s.lib, s.pending, sc);
    PendingHandleEffect(s.lib, s.pending, sc);
    KeepsFrame(s, h.lib);
    var s1 := s.(lib := h.lib);
    if h.goal.Some? {
      TerminateEffect(h.lib, h.goal.value, sc);
      KeepsTerminated(s1, Terminate(h.lib, h.goal.value, sc));
    } else if s.pending.Some? {
      KeepsTerminated(s1, h.lib);
    }
  }

  lemma KeepsAcceptedCallback(s: System, sc: Schedule)
    requires Inv(s) && s.owner.Idle? && s.queue != [] && s.queue[0].AcceptedCallback?
    ensures Inv(Apply(s, OwnerStep(sc)))
    ensures NoneStranded(s) ==> NoneStranded(Apply(s, OwnerStep(sc)))
  {
    KeepsReplaced(s, sc);
    KeepsOffered(Disposed(s, sc));
    OfferedAfterDisposal(s, sc);
  }

  lemma OfferedAfterDisposal(s: System, sc: Schedule)
    requires s.owner.Idle? && s.queue != [] && s.queue[0].AcceptedCallback?
    ensures var g := s.queue[0].goal;
            Apply(s, OwnerStep(sc)) ==
            Disposed(s, sc).(queue := s.queue[1..], pending := Some(g), offered := s.offered + 1,
                             owner := InGoalHook(g))
  {
  }

  lemma KeepsOwnerStep(s: System, sc: Schedule)
    requires Inv(s) && s.owner.Idle? && s.queue != []
    ensures Inv(Apply(s, OwnerStep(sc)))
    ensures NoneStranded(s) ==> NoneStranded(Apply(s, OwnerStep(sc)))
  {
    var m := s.queue[0];
    if m.AcceptedCallback? {
      KeepsAcceptedCallback(s, sc);
    } else if s.active == Some(m.goal) {
      KeepsHookStarted(s);
    } else if s.pending == Some(m.goal) {
      var l := Terminate(s.lib, m.goal, sc);
      TerminateEffect(s.lib, m.goal, sc);
      KeepsTerminated(s, l);
      KeepsHandlerTaken(s.(lib := l, pending := None));
    } else {
      KeepsHandlerTaken(s);
    }
  }

  /** The cancel hook returns when its goal has left the slots. */
  lemma KeepsHookEnded(s: System)
    requires Inv(s) && (s.owner.InCancelHook? ==> s.active != Some(s.owner.goal))
    ensures Inv(s.(owner := Idle))
    ensures NoneStranded(s) ==> NoneStranded(s.(owner := Idle))
  {
    if s.owner.InCancelHook? { assert !InSlot(s, s.owner.goal); }
  }

  lemma KeepsHookReturn(s: System, sc: Schedule)
    requires Inv(s)
    ensures Inv(Apply(s, HookReturn(sc)))
    ensures NoneStranded(s) ==> NoneStranded(Apply(s, HookReturn(sc)))
  {
    if s.owner.InCancelHook? && s.active == Some(s.owner.goal) {
      KeepsFinishActive(s, sc);
      FinishEffect(s, sc);
      KeepsHookEnded(FinishActive(s, sc).sys);
    } else {
      KeepsHookEnded(s);
    }
  }

  predicate IsCall(e: Event) {
    || e.CallAcceptPending? || e.CallRejectPending?
    || e.CallAbortActive? || e.CallCancelActive? || e.CallSucceedActive?
  }

  lemma KeepsCall(s: System, e: Event)
    requires Inv(s) && IsCall(e)
    ensures Inv(Apply(s, e))
    ensures NoneStranded(s) ==> NoneStranded(Apply(s, e))
  {
    match e
    case CallAcceptPending(sc) => KeepsAcceptPending(s, sc);
    case CallRejectPending(sc) => KeepsRejectPending(s, sc);
    case CallAbortActive(sc) => KeepsFinishActive(s, sc);
    case CallCancelActive(sc) => KeepsFinishActive(s, sc);
    case CallSucceedActive(sc) => KeepsSucceedActive(s, sc);
  }

  /** Events of the library alone. */
  lemma KeepsLibraryEvent(s: System, e: Event)
    requires Inv(s) && (e.Deliver? || e.RequestCancel? || e.CancelTransition? || e.HandleReleased?)
    ensures Inv(Apply(s, e))
    ensures NoneStranded(s) ==> NoneStranded(Apply(s, e))
  {
    match e
    case Deliver => KeepsDeliver(s);
    case RequestCancel(g) => KeepsRequestCancel(s, g);
    case CancelTransition(g) => KeepsCancelTransition(s, g);
    case HandleReleased(g, abort) => if Releasable(s, g) { KeepsReleased(s, g, abort); }
  }

  lemma KeepsInv(s: System, e: Event)
    requires Inv(s)
    ensures Inv(Apply(s, e))
    ensures NoneStranded(s) && !e.Shutdown? ==> NoneStranded(Apply(s, e))
  {
    match e
    case OwnerStep(sc) => if s.owner.Idle? && s.queue != [] { KeepsOwnerStep(s, sc); }
    case HookReturn(sc) => KeepsHookReturn(s, sc);
    case Shutdown =>
    case _ => if IsCall(e) { KeepsCall(s, e); } else { KeepsLibraryEvent(s, e); }
  }
}
