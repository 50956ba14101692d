/**
What each locked section of the action server does to the goals, whatever transitions slip in.
*/
module ActionEffects {
  import opened Wrappers
  import opened GoalStates
  import opened ActionProtocol
  import opened ActionRaces

  lemma AtFrame(l: Goals, sc: Schedule, k: nat)
    ensures Frame(l, At(l, sc, k), {})
    ensures At(l, sc, k).results == l.results
    ensures WellFormed(l) ==> WellFormed(At(l, sc, k))
  {
    if k < |sc| {
      SlipFrame(l, sc[k]);
    }
  }

  lemma SlipOneFrame(l: Goals, g: nat)
    ensures Frame(l, Slip(l, g), {}) && Slip(l, g).results == l.results
    ensures WellFormed(l) ==> WellFormed(Slip(l, g))
  {
    SlipFrame(l, [g]);
    assert SlipAll(l, [g]) == Slip(l, g);
  }

  lemma FireFrame(l: Goals, g: nat, e: GoalEvent)
    ensures Frame(l, Fire(l, g, e), {g})
    ensures Fire(l, g, e).results ==
            l.results + if Enabled(l, g, e) && e.IsResult() then [ClientResult(g, Code(e))] else []
    ensures WellFormed(l) ==> WellFormed(Fire(l, g, e))
  {
    if WellFormed(l) { FireKeepsWellFormed(l, g, e); }
  }

  /** A deferred goal can only become CANCELING while it is being looked at. */
  lemma PendingHandleEffect(l: Goals, pending: Option<nat>, sc: Schedule)
    requires pending.Some? ==> Deferred(l, pending.value)
    ensures var h := PendingHandle(l, pending, sc);
            && Frame(l, h.lib, {})
            && (WellFormed(l) ==> WellFormed(h.lib))
            && h.lib.results == l.results
            && (h.goal.Some? ==>
                  h.goal == pending && h.lib.state[pending.value].Accepted? && l.state[pending.value].Accepted?)
            && (h.goal.None? && pending.Some? ==> h.lib.state[pending.value].Canceling?)
  {
    if pending.Some? {
      var l1 := At(l, sc, 0);
      var l2 := At(l1, sc, 1);
      AtFrame(l, sc, 0);
      AtFrame(l1, sc, 1);
      AtFrame(l2, sc, 2);
      FrameTrans(l, l1, l2, {});
      FrameTrans(l, l2, At(l2, sc, 2), {});
      assert SameOrSlipped(l, l1, pending.value);
      assert SameOrSlipped(l1, l2, pending.value);
      assert SameOrSlipped(l2, At(l2, sc, 2), pending.value);
    }
  }

  /** The result goal g has got by now, if any. */
  function ResultIfDone(l: Goals, g: nat): seq<ClientResult>
    requires g < |l.state|
  {
    if l.state[g].IsTerminal() then [ClientResult(g, l.state[g])] else []
  }

  /** A terminated goal has its result, unless CANCELING slips in before execute(). */
  lemma TerminateEffect(l: Goals, g: nat, sc: Schedule)
    requires Deferred(l, g)
    ensures var l' := Terminate(l, g, sc);
            && Frame(l, l', {g})
            && (WellFormed(l) ==> WellFormed(l'))
            && l'.results == l.results + ResultIfDone(l', g)
            && l'.state[g] == TerminatedState(l, sc, g)
  {
    TerminatedAs(l, g, sc);
    var l1 := At(l, sc, 3);
    AtFrame(l, sc, 3);
    assert SameOrSlipped(l, l1, g);
    if IsCancelingAt(l1, g) {
      var l2 := At(l1, sc, 4);
      AtFrame(l1, sc, 4);
      assert SameOrSlipped(l1, l2, g);
      FireFrame(l2, g, CancelDone);
      FrameTrans(l, l1, l2, {g});
      FrameTrans(l, l2, Fire(l2, g, CancelDone), {g});
    } else {
      ExecuteAndAbortEffect(l1, g, sc);
      FrameTrans(l, l1, ExecuteAndAbort(l1, g, sc), {g});
    }
  }

  lemma ExecuteAndAbortEffect(l: Goals, g: nat, sc: Schedule)
    requires g < |l.state| && l.state[g].Accepted?
    ensures var l' := ExecuteAndAbort(l, g, sc);
            && Frame(l, l', {g})
            && (WellFormed(l) ==> WellFormed(l'))
            && l'.results == l.results + ResultIfDone(l', g)
            && (l'.state[g].Aborted? || (l'.state[g].Canceling? && g in l.due))
  {
    var l1 := At(l, sc, 4);
    AtFrame(l, sc, 4);
    assert SameOrSlipped(l, l1, g);
    var l2 := At(l1, sc, 5);
    AtFrame(l1, sc, 5);
    assert SameOrSlipped(l1, l2, g);
    FrameTrans(l, l1, l2, {g});
    if Enabled(l2, g, Execute) {
      AbortExecutedEffect(l2, g, sc);
      FrameTrans(l, l2, ExecuteAndAbort(l, g, sc), {g});
    }
  }

  lemma AbortExecutedEffect(l: Goals, g: nat, sc: Schedule)
    requires g < |l.state| && l.state[g].Accepted?
    ensures var l' := Fire(At(Fire(l, g, Execute), sc, 6), g, Abort);
            && Frame(l, l', {g}) && (WellFormed(l) ==> WellFormed(l')) && l'.state[g].Aborted?
            && l'.results == l.results + [ClientResult(g, Aborted)]
  {
    var l1 := Fire(l, g, Execute);
    FireFrame(l, g, Execute);
    var l2 := At(l1, sc, 6);
    AtFrame(l1, sc, 6);
    assert SameOrSlipped(l1, l2, g);
    FireFrame(l2, g, Abort);
    FrameTrans(l, l1, l2, {g});
    FrameTrans(l, l2, Fire(l2, g, Abort), {g});
  }

  lemma SeesLiveEffect(l: Goals, a: nat, sc: Schedule, k: nat)
    requires Live(l, a)
    ensures var seen := SeesLive(l, a, sc, k);
            && seen.yes
            && Frame(l, seen.lib, {}) && seen.lib.results == l.results
            && (WellFormed(l) ==> WellFormed(seen.lib))
            && Live(seen.lib, a) && SameOrSlipped(l, seen.lib, a)
  {
    var l1 := At(l, sc, k);
    AtFrame(l, sc, k);
    assert SameOrSlipped(l, l1, a);
    AtFrame(l1, sc, k + 1);
    assert SameOrSlipped(l1, At(l1, sc, k + 1), a);
    FrameTrans(l, l1, At(l1, sc, k + 1), {});
  }

  lemma FinishLiveEffect(l: Goals, a: nat, sc: Schedule)
    requires Live(l, a)
    ensures var done := FinishLive(l, a, sc); var l' := done.lib;
            && done.yes
            && Frame(l, l', {a})
            && (WellFormed(l) ==> WellFormed(l'))
            && l'.results == l.results + [ClientResult(a, l'.state[a])]
            && (l'.state[a].Aborted? || l'.state[a].Canceled?)
            && (l.state[a].Canceling? ==> l'.state[a].Canceled?)
            && (l'.state[a].Canceled? ==> l.state[a].Canceling? || a in l.due)
  {
    var l1 := At(l, sc, 5);
    AtFrame(l, sc, 5);
    assert SameOrSlipped(l, l1, a);
    var l2 := At(l1, sc, 6);
    AtFrame(l1, sc, 6);
    FrameTrans(l, l1, l2, {a});
    assert SameOrSlipped(l1, l2, a);
    var event := if IsCancelingAt(l1, a) then CancelDone else Abort;
    FireFrame(l2, a, event);
    FrameTrans(l, l2, Fire(l2, a, event), {a});
  }

  /** finishActive() never fails on a live goal, and a goal that is CANCELING ends CANCELED. */
  lemma FinishEffect(s: System, sc: Schedule)
    requires s.active.Some? && Live(s.lib, s.active.value)
    ensures var a := s.active.value; var out := FinishActive(s, sc); var l := out.sys.lib;
            && out.ok
            && out.sys == s.(lib := l, active := None)
            && Frame(s.lib, l, {a})
            && (WellFormed(s.lib) ==> WellFormed(l))
            && l.results == s.lib.results + [ClientResult(a, l.state[a])]
            && l.state[a] == FinishedState(s.lib, sc, a)
  {
    FinishedAs(s, sc);
    var a := s.active.value;
    var seen := SeesLive(s.lib, a, sc, 3);
    SeesLiveEffect(s.lib, a, sc, 3);
    FinishLiveEffect(seen.lib, a, sc);
    FrameTrans(s.lib, seen.lib, FinishLive(seen.lib, a, sc).lib, {a});
  }

  lemma SucceedEffect(s: System, sc: Schedule)
    requires s.active.Some? && Live(s.lib, s.active.value)
    ensures var a := s.active.value; var out := SucceedActive(s, sc); var l := out.sys.lib;
            && out.ok
            && out.sys == s.(lib := l, active := None)
            && Frame(s.lib, l, {a})
            && (WellFormed(s.lib) ==> WellFormed(l))
            && l.results == s.lib.results + [ClientResult(a, Succeeded)]
            && l.state[a].Succeeded?
  {
    var a := s.active.value;
    var seen := SeesLive(s.lib, a, sc, 0);
    SeesLiveEffect(s.lib, a, sc, 0);
    var l := At(seen.lib, sc, 2);
    AtFrame(seen.lib, sc, 2);
    assert SameOrSlipped(seen.lib, l, a);
    FrameTrans(s.lib, seen.lib, l, {a});
    FireFrame(l, a, Succeed);
    FrameTrans(s.lib, l, Fire(l, a, Succeed), {a});
  }

  /** The pending goal becomes EXECUTING unless it slips just before. */
  lemma ExecuteEffect(l: Goals, p: nat, sc: Schedule)
    requires Deferred(l, p)
    ensures var before := At(l, sc, 7); var l' := Fire(before, p, Execute);
            && Frame(l, l', {p})
            && (WellFormed(l) ==> WellFormed(l'))
            && (if Enabled(before, p, Execute) then l'.state[p].Executing?
                else l' == before && l'.state[p].Canceling? && SameOrSlipped(l, l', p))
  {
    var before := At(l, sc, 7);
    AtFrame(l, sc, 7);
    assert SameOrSlipped(l, before, p);
    FireFrame(before, p, Execute);
    FrameTrans(l, before, Fire(before, p, Execute), {p});
  }

  /** What acceptPending() does to the slots; AcceptedIff and AcceptFinishesIff say when. */
  lemma AcceptEffect(s: System, sc: Schedule)
    requires s.active.Some? ==> Live(s.lib, s.active.value)
    requires s.pending.Some? ==> s.pending != s.active && Deferred(s.lib, s.pending.value)
    ensures var out := AcceptPending(s, sc); var s' := out.sys; var l := s'.lib;
            var touched := (if s.active.Some? then {s.active.value} else {}) +
                           (if s.pending.Some? then {s.pending.value} else {});
            && Frame(s.lib, l, touched)
            && (WellFormed(s.lib) ==> WellFormed(l))
            && s' == s.(lib := l, active := s'.active, pending := s'.pending, activated := s'.activated)
            && (s.active.Some? ==>
                  if s'.active == s.active
                  then !out.ok && SameOrSlipped(s.lib, l, s.active.value) && s'.pending == s.pending
                  else && (l.state[s.active.value].Aborted? || l.state[s.active.value].Canceled?)
                       && (s.lib.state[s.active.value].Canceling? ==> l.state[s.active.value].Canceled?))
            && (out.ok ==>
                  && s.pending.Some? && s'.pending.None? && s'.active == s.pending
                  && l.state[s.pending.value].Executing? && s'.activated == s.activated + [s.pending.value])
            && (!out.ok ==>
                  && s'.activated == s.activated && (s'.active == s.active || s'.active.None?)
                  && (s.pending.Some? ==>
                        l.state[s.pending.value].Canceling? && SameOrSlipped(s.lib, l, s.pending.value))
                  && (s'.pending == s.pending || s'.pending.None?))
            && (s.pending.Some? ==> (s'.pending == s.pending <==> CancelsBeforeEnd(s.lib, sc, s.pending.value)))
  {
    if s.pending.Some? { AcceptedIff(s, sc); }
    PendingHandleEffect(s.lib, s.pending, sc);
    var h := PendingHandle(s.lib, s.pending, sc);
    if h.goal.Some? {
      var p := h.goal.value;
      var s0 := s.(lib := h.lib);
      var s1 := FinishActive(s0, sc).sys;
      var touched := if s.active.Some? then {s.active.value} else {};
      if s.active.Some? {
        assert SameOrSlipped(s.lib, h.lib, s.active.value);
        FinishEffect(s0, sc);
      }
      FrameTrans(s.lib, h.lib, s1.lib, touched);
      assert SameOrSlipped(h.lib, s1.lib, p);
      ExecuteEffect(s1.lib, p, sc);
      var l := Fire(At(s1.lib, sc, 7), p, Execute);
      if s.active.Some? {
        assert SameOrSlipped(s1.lib, l, s.active.value);
      }
      FrameTrans(s.lib, s1.lib, l, touched + {p});
    }
  }

  /** rejectPending() empties the slot iff the goal is seen pending. */
  lemma RejectEffect(s: System, sc: Schedule)
    requires s.pending.Some? ==> Deferred(s.lib, s.pending.value)
    ensures var out := RejectPending(s, sc); var s' := out.sys;
            && Frame(s.lib, s'.lib, if s.pending.Some? then {s.pending.value} else {})
            && (WellFormed(s.lib) ==> WellFormed(s'.lib))
            && s' == s.(lib := s'.lib, pending := s'.pending)
            && (if out.ok then s'.pending.None? else s'.pending == s.pending)
            && (out.ok <==> s.pending.Some? && !CancelsBeforeEnd(s.lib, sc, s.pending.value))
            && (s.pending.Some? ==> var p, l := s.pending.value, s'.lib;
                  l.state[p] == EndedState(s.lib, sc, p))
  {
    if s.pending.Some? { RejectedAs(s, sc); }
    PendingHandleEffect(s.lib, s.pending, sc);
    var h := PendingHandle(s.lib, s.pending, sc);
    if s.pending.Some? { assert SameOrSlipped(s.lib, h.lib, s.pending.value); }
    if h.goal.Some? {
      TerminateEffect(h.lib, h.goal.value, sc);
      FrameTrans(s.lib, h.lib, Terminate(h.lib, h.goal.value, sc), {h.goal.value});
    }
  }

  /** acceptedCallback() ends the replaced goal unless it is CANCELING already or slips before execute(). */
  lemma ReplacedEffect(s: System, g: nat, sc: Schedule)
    requires s.pending.Some? ==> Deferred(s.lib, s.pending.value)
    ensures var l := RunAcceptedCallback(s, g, sc).lib;
            && Frame(s.lib, l, if s.pending.Some? then {s.pending.value} else {})
            && l.results == s.lib.results + (if s.pending.Some? then ResultIfDone(l, s.pending.value) else [])
            && (s.pending.Some? ==> var p := s.pending.value;
                  l.state[p] == EndedState(s.lib, sc, p))
  {
    if s.pending.Some? { ReplacedAs(s, g, sc); }
    PendingHandleEffect(s.lib, s.pending, sc);
    var h := PendingHandle(s.lib, s.pending, sc);
    if s.pending.Some? { assert SameOrSlipped(s.lib, h.lib, s.pending.value); }
    if h.goal.Some? {
      TerminateEffect(h.lib, h.goal.value, sc);
      FrameTrans(s.lib, h.lib, Terminate(h.lib, h.goal.value, sc), {h.goal.value});
    }
  }

  /** The library ends a released goal with one result. */
  lemma ReleaseEffect(l: Goals, g: nat, abort: bool)
    requires g < |l.state| && l.state[g].IsActive()
    ensures var l' := ReleaseHandle(l, g, abort);
            && Frame(l, l', {g})
            && l'.due == l.due
            && (WellFormed(l) ==> WellFormed(l'))
            && l'.state == l.state[g := if abort then Aborted else Canceled]
            && l'.results == l.results + [ClientResult(g, l'.state[g])]
  {
    var first := if abort then Execute else CancelGoal;
    var second := if abort then Abort else CancelDone;
    FireFrame(l, g, first);
    FireFrame(Fire(l, g, first), g, second);
  }
}
