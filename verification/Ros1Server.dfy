/**
The simple action server of ROS 1: one current goal (ACTIVE or PREEMPTING), one waiting goal (PENDING
or RECALLING) and the results sent so far. Also the ROS 1 state the slots of SimpleActionServer stand
for, and the ROS 1 moves each of its events may make.
*/
module Ros1Server {
  import opened Wrappers
  import opened GoalStates
  import opened ActionProtocol
  import opened ActionEffects
  import opened ActionInvariants

  datatype Current = NoGoal | ActiveGoal(goal: nat) | PreemptingGoal(goal: nat)
  datatype Waiting = NothingWaiting | PendingGoal(goal: nat) | RecallingGoal(goal: nat)
  datatype Ros1 = Ros1(current: Current, waiting: Waiting, results: seq<ClientResult>)

  datatype Move =
    | NewGoal(goal: nat)   // a goal starts to wait; nothing may be waiting
    | Promote              // the pending goal becomes current; there may be no current goal
    | Preempt(goal: nat)   // the client cancels the current goal
    | Recall(goal: nat)    // the client cancels the pending goal
    | SucceedCurrent
    | FinishCurrent        // ABORTED, or CANCELED if the client canceled
    | EndWaiting           // ABORTED, or CANCELED if the client canceled
    | ForgetWaiting        // a recalled goal is dropped without a result
    | NothingActive        // a call that needs a current goal returns false: there is none
    | NothingPending       // a call that needs a pending goal returns false: there is none
    | Clear                // shutdown
    | EndReleased(goal: nat, abort: bool)  // the library ends a goal the server has let go

  predicate IsCurrent(r: Ros1, g: nat) { !r.current.NoGoal? && r.current.goal == g }
  predicate IsWaiting(r: Ros1, g: nat) { !r.waiting.NothingWaiting? && r.waiting.goal == g }
  predicate HasResult(r: Ros1, g: nat) { exists i :: 0 <= i < |r.results| && r.results[i].goal == g }

  function Step(r: Ros1, m: Move): Option<Ros1> {
    match m
    case NewGoal(g) =>
      if r.waiting.NothingWaiting? then Some(r.(waiting := PendingGoal(g))) else None
    case Promote =>
      if r.current.NoGoal? && r.waiting.PendingGoal?
      then Some(r.(current := ActiveGoal(r.waiting.goal), waiting := NothingWaiting)) else None
    case Preempt(g) =>
      if r.current == ActiveGoal(g) then Some(r.(current := PreemptingGoal(g))) else None
    case Recall(g) =>
      if r.waiting == PendingGoal(g) then Some(r.(waiting := RecallingGoal(g))) else None
    case SucceedCurrent =>
      if r.current.NoGoal? then None
      else Some(r.(current := NoGoal, results := r.results + [ClientResult(r.current.goal, Succeeded)]))
    case FinishCurrent =>
      if r.current.NoGoal? then None
      else Some(r.(current := NoGoal,
                   results := r.results +
                              [ClientResult(r.current.goal, if r.current.PreemptingGoal? then Canceled else Aborted)]))
    case EndWaiting =>
      if r.waiting.NothingWaiting? then None
      else Some(r.(waiting := NothingWaiting,
                   results := r.results +
                              [ClientResult(r.waiting.goal, if r.waiting.RecallingGoal? then Canceled else Aborted)]))
    case ForgetWaiting =>
      if r.waiting.RecallingGoal? then Some(r.(waiting := NothingWaiting)) else None
    case NothingActive => if r.current.NoGoal? then Some(r) else None
    case NothingPending => if r.waiting.PendingGoal? then None else Some(r)
    case Clear => Some(r.(current := NoGoal, waiting := NothingWaiting))
    case EndReleased(g, abort) =>
      if IsCurrent(r, g) || IsWaiting(r, g) || HasResult(r, g) then None
      else Some(r.(results := r.results + [ClientResult(g, if abort then Aborted else Canceled)]))
  }

  /** A path of moves, or None if one of them is not possible. */
  function Path(r: Ros1, ms: seq<Move>): Option<Ros1>
    decreases |ms|
  {
    if ms == [] then Some(r) else
      var r' := Step(r, ms[0]);
      if r'.None? then None else Path(r'.value, ms[1..])
  }

  function Abs(s: System): Ros1
    requires SlotsTyped(s)
  {
    Ros1(
      if s.active.None? then NoGoal
      else if s.lib.state[s.active.value].Canceling? then PreemptingGoal(s.active.value)
      else ActiveGoal(s.active.value),
      AbsWaiting(s),
      s.lib.results)
  }

  function AbsWaiting(s: System): Waiting
    requires SlotsTyped(s)
  {
    if s.pending.None? then NothingWaiting
    else if s.lib.state[s.pending.value].Canceling? then RecallingGoal(s.pending.value)
    else PendingGoal(s.pending.value)
  }

  lemma PathOne(r: Ros1, m: Move)
    ensures Path(r, [m]) == Step(r, m)
  {
    assert [m][1..] == [];
  }

  lemma PathTwo(r: Ros1, m: Move, n: Move)
    ensures Path(r, [m, n]) == if Step(r, m).None? then None else Step(Step(r, m).value, n)
  {
    assert [m, n][1..] == [n];
    if Step(r, m).Some? { PathOne(Step(r, m).value, n); }
  }

  lemma {:induction false} PathConcat(r: Ros1, ms: seq<Move>, more: seq<Move>)
    requires Path(r, ms).Some?
    ensures Path(r, ms + more) == Path(Path(r, ms).value, more)
    decreases |ms|
  {
    if ms == [] {
      assert ms + more == more;
    } else {
      assert (ms + more)[1..] == ms[1..] + more;
      PathConcat(Step(r, ms[0]).value, ms[1..], more);
    }
  }

  /** The library ends a goal that is in no slot and has no result. */
  lemma ReleaseStep(s: System, g: nat, abort: bool)
    requires Inv(s) && Releasable(s, g)
    ensures var s' := s.(lib := ReleaseHandle(s.lib, g, abort));
            SlotsTyped(s') && Step(Abs(s), EndReleased(g, abort)) == Some(Abs(s'))
  {
    ReleaseKeepsSlots(s, g, abort);
    NoResultYet(s.lib, g);
  }

  lemma ReleaseKeepsSlots(s: System, g: nat, abort: bool)
    requires SlotsTyped(s) && Releasable(s, g)
    ensures var s' := s.(lib := ReleaseHandle(s.lib, g, abort));
            && SlotsTyped(s')
            && Abs(s') == Abs(s).(results := s.lib.results + [ClientResult(g, if abort then Aborted else Canceled)])
  {
    ReleaseEffect(s.lib, g, abort);
  }

  // ---------------------------------------------------------------------------------------------
  // The moves an event may make

  /** Moves of the client, which the server does not make. */
  predicate IsCancel(m: Move) { m.Preempt? || m.Recall? }

  /** The moves the server makes. */
  function ServerMoves(ms: seq<Move>): seq<Move> {
    if ms == [] then [] else (if IsCancel(ms[0]) then [] else [ms[0]]) + ServerMoves(ms[1..])
  }

  lemma {:induction false} ServerMovesConcat(ms: seq<Move>, more: seq<Move>)
    ensures ServerMoves(ms + more) == ServerMoves(ms) + ServerMoves(more)
    decreases |ms|
  {
    if ms == [] {
      assert ms + more == more;
    } else {
      assert (ms + more)[1..] == ms[1..] + more;
      ServerMovesConcat(ms[1..], more);
    }
  }

  /** Only goals in `slipped` are canceled. */
  predicate CancelsOnly(ms: seq<Move>, slipped: set<nat>) {
    forall m :: m in ms && IsCancel(m) ==> m.goal in slipped
  }

  /** The value a public call returns. */
  predicate Returned(s: System, e: Event) {
    match e
    case CallAcceptPending(sc) => AcceptPending(s, sc).ok
    case CallRejectPending(sc) => RejectPending(s, sc).ok
    case CallAbortActive(sc) => FinishActive(s, sc).ok
    case CallCancelActive(sc) => FinishActive(s, sc).ok
    case CallSucceedActive(sc) => SucceedActive(s, sc).ok
    case _ => true
  }

  /** The active goal is finished, if there is one. */
  function Finishing(s: System): seq<Move> { if s.active.None? then [] else [FinishCurrent] }

  /**
  What the server may do in an event, the cancels of the client left out. A call that returns true
  has its documented effect. acceptPending() and rejectPending() return false if nothing is pending any
  more; acceptPending() also if the goal is recalled at the last moment, and is forgotten then.
  */
  function Documented(s: System, e: Event): set<seq<Move>> {
    match e
    case Deliver => {[]}
    case RequestCancel(_) => {[]}
    case CancelTransition(_) => {[]}
    case CallAcceptPending(_) =>
      if Returned(s, e) then {Finishing(s) + [Promote]} else {[NothingPending], Finishing(s) + [ForgetWaiting]}
    case CallRejectPending(_) => if Returned(s, e) then {[EndWaiting], [ForgetWaiting]} else {[NothingPending]}
    case CallAbortActive(_) => if Returned(s, e) then {[FinishCurrent]} else {[NothingActive]}
    case CallCancelActive(_) => if Returned(s, e) then {[FinishCurrent]} else {[NothingActive]}
    case CallSucceedActive(_) => if Returned(s, e) then {[SucceedCurrent]} else {[NothingActive]}
    case OwnerStep(_) => if s.owner.Idle? && s.queue != [] then DocumentedMessage(s, s.queue[0]) else {[]}
    case HookReturn(_) =>
      if s.owner.InCancelHook? && s.active == Some(s.owner.goal) then {[FinishCurrent]} else {[]}
    case Shutdown => {[Clear]}
    case HandleReleased(g, abort) => if Releasable(s, g) then {[EndReleased(g, abort)]} else {[]}
  }

  /** An accepted goal starts to wait in place of the waiting one; a canceled goal that waits is
  ended, or forgotten if the client's cancel takes effect only at the last moment. */
  function DocumentedMessage(s: System, m: Message): set<seq<Move>> {
    match m
    case AcceptedCallback(_) =>
      if s.pending.None? then {[NewGoal(s.offered)]}
      else {[EndWaiting, NewGoal(s.offered)], [ForgetWaiting, NewGoal(s.offered)]}
    case CancelHandler(g) =>
      if s.active != Some(g) && s.pending == Some(g) then {[EndWaiting], [ForgetWaiting]} else {[]}
  }

  /**
  ms is a path of the ROS 1 server for event e: it leads to the new state, the server's moves are
  documented for e, and the client cancels only goals whose CANCELING transition happened meanwhile.
  */
  predicate IsEventPath(s: System, e: Event, ms: seq<Move>) {
    && SlotsTyped(s) && SlotsTyped(Apply(s, e))
    && Path(Abs(s), ms) == Some(Abs(Apply(s, e)))
    && ServerMoves(ms) in Documented(s, e)
    && CancelsOnly(ms, s.lib.due - Apply(s, e).lib.due)
  }

  /** One path for each event of the run. */
  predicate IsRunPath(s: System, es: seq<Event>, paths: seq<seq<Move>>)
    decreases |es|
  {
    && |paths| == |es|
    && (es == [] || (IsEventPath(s, es[0], paths[0]) && IsRunPath(Apply(s, es[0]), es[1..], paths[1..])))
  }

  function Concat(paths: seq<seq<Move>>): seq<Move> {
    if paths == [] then [] else paths[0] + Concat(paths[1..])
  }
}
