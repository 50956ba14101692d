/**
SimpleActionServer in the form of its source: a class whose methods assign the two slots and drive
shared goal handles. Each method is proved against the function of module ActionProtocol, so that all
theorems about runs hold of the class.
*/
module SimpleActionServer {
  import opened Wrappers
  import G = GoalStates
  import P = ActionProtocol
  import I = ActionInvariants
  import T = ActionTheorems

  /** A server-side goal handle, shared by the library and the slots of the server. */
  class GoalHandle {
    const id: nat
    var state: G.GoalState

    constructor (id: nat)
      ensures this.id == id && state == G.Accepted
    {
      this.id := id;
      state := G.Accepted;
    }

    /** A transition method; returns false where the library throws. */
    method Fire(e: G.GoalEvent) returns (ok: bool)
      modifies this
      ensures ok == G.Next(old(state), e).Some?
      ensures state == if ok then G.Next(old(state), e).value else old(state)
    {
      var next := G.Next(state, e);
      ok := next.Some?;
      if ok { state := next.value; }
    }
  }

  /** The action library: all goal handles and the CANCELING transitions that are due. */
  class Library {
    var handles: seq<GoalHandle>
    var due: set<nat>
    ghost var value: G.Goals

    ghost predicate Valid()
      reads this, handles
    {
      && |value.state| == |handles|
      && value.due == due
      && forall i | 0 <= i < |handles| :: handles[i].id == i && handles[i].state == value.state[i]
    }

    predicate Owns(gh: GoalHandle)
      reads this
    {
      gh.id < |handles| && handles[gh.id] == gh
    }

    constructor ()
      ensures Valid() && handles == [] && value == P.INITIAL.lib
    {
      handles, due, value := [], {}, P.INITIAL.lib;
    }

    method Fire(gh: GoalHandle, e: G.GoalEvent) returns (ok: bool)
      requires Valid() && Owns(gh)
      modifies this`value, gh
      ensures Valid()
      ensures ok == G.Enabled(old(value), gh.id, e)
      ensures value == G.Fire(old(value), gh.id, e)
    {
      value := G.Fire(value, gh.id, e);
      ok := gh.Fire(e);
    }

    /** The due CANCELING transitions in gs happen, in this order. */
    method Slip(gs: seq<nat>)
      requires Valid()
      modifies this`due, this`value, handles
      ensures Valid()
      ensures value == G.SlipAll(old(value), gs)
    {
      var rest := gs;
      while rest != []
        invariant Valid()
        invariant G.SlipAll(value, rest) == G.SlipAll(old(value), gs)
        decreases |rest|
      {
        var g := rest[0];
        if g in due {
          due := due - {g};
          value := value.(due := due);
          if g < |handles| {
            var _ := Fire(handles[g], G.CancelGoal);
          }
        }
        rest := rest[1..];
      }
    }

    /** What the executor does just before the k-th access to a goal handle. */
    method Interfere(sc: P.Schedule, k: nat)
      requires Valid()
      modifies this`due, this`value, handles
      ensures Valid()
      ensures value == P.At(old(value), sc, k)
    {
      if k < |sc| { Slip(sc[k]); }
    }

    // The accesses of the server to a goal handle, each after what the executor did in between.

    method SeesActive(gh: GoalHandle, sc: P.Schedule, k: nat) returns (b: bool)
      requires Valid() && Owns(gh)
      modifies this`due, this`value, handles
      ensures Valid()
      ensures value == P.At(old(value), sc, k) && b == P.IsActiveAt(value, gh.id)
    {
      Interfere(sc, k);
      b := gh.state.IsActive();
    }

    method SeesExecuting(gh: GoalHandle, sc: P.Schedule, k: nat) returns (b: bool)
      requires Valid() && Owns(gh)
      modifies this`due, this`value, handles
      ensures Valid()
      ensures value == P.At(old(value), sc, k) && b == P.IsExecutingAt(value, gh.id)
    {
      Interfere(sc, k);
      b := gh.state.IsExecuting();
    }

    method SeesCanceling(gh: GoalHandle, sc: P.Schedule, k: nat) returns (b: bool)
      requires Valid() && Owns(gh)
      modifies this`due, this`value, handles
      ensures Valid()
      ensures value == P.At(old(value), sc, k) && b == P.IsCancelingAt(value, gh.id)
    {
      Interfere(sc, k);
      b := gh.state.IsCanceling();
    }

    method SeesLive(gh: GoalHandle, sc: P.Schedule, k: nat) returns (b: bool)
      requires Valid() && Owns(gh)
      modifies this`due, this`value, handles
      ensures Valid()
      ensures P.Seen(value, b) == P.SeesLive(old(value), gh.id, sc, k)
    {
      b := SeesExecuting(gh, sc, k);
      if !b { b := SeesCanceling(gh, sc, k + 1); }
    }

    method Transit(gh: GoalHandle, e: G.GoalEvent, sc: P.Schedule, k: nat) returns (ok: bool)
      requires Valid() && Owns(gh)
      modifies this`due, this`value, handles
      ensures Valid()
      ensures var l := P.At(old(value), sc, k); value == G.Fire(l, gh.id, e) && ok == G.Enabled(l, gh.id, e)
    {
      Interfere(sc, k);
      ok := Fire(gh, e);
    }

    /** The last handle of a goal without a result is released: the library ends the goal. */
    method Release(gh: GoalHandle, abort: bool)
      requires Valid() && Owns(gh)
      modifies this`value, gh
      ensures Valid()
      ensures value == G.ReleaseHandle(old(value), gh.id, abort)
    {
      if abort {
        var _ := Fire(gh, G.Execute);
        var _ := Fire(gh, G.Abort);
      } else {
        var _ := Fire(gh, G.CancelGoal);
        var _ := Fire(gh, G.CancelDone);
      }
    }

    method Accept() returns (gh: GoalHandle)
      requires Valid()
      modifies this`handles, this`value
      ensures Valid() && Owns(gh) && fresh(gh)
      ensures gh.id == |old(handles)| && handles == old(handles) + [gh]
      ensures value == old(value).(state := old(value).state + [G.Accepted])
    {
      gh := new GoalHandle(|handles|);
      handles := handles + [gh];
      value := value.(state := value.state + [G.Accepted]);
    }
  }

  class Server {
    const lib: Library
    var goalActive: GoalHandle?
    var goalPending: GoalHandle?
    /** The queue of the owner's execution engine, and what the engine is doing. */
    var queue: seq<P.Message>
    var owner: P.Owner
    ghost var offered: nat
    ghost var sent: set<nat>
    ghost var activated: seq<nat>
    ghost var cancelHooks: seq<nat>

    ghost predicate Valid()
      reads this, lib, lib.handles
    {
      && lib.Valid()
      && (goalActive != null ==> lib.Owns(goalActive))
      && (goalPending != null ==> lib.Owns(goalPending))
      && (forall m | m in queue :: m.goal < |lib.handles|)
      && (!owner.Idle? ==> owner.goal < |lib.handles|)
    }

    /** The abstract state. */
    ghost function Value(): P.System
      reads this, lib
    {
      P.System(lib.value, Id(goalActive), Id(goalPending), queue, owner, offered, sent, activated, cancelHooks)
    }

    static function Id(gh: GoalHandle?): Option<nat> {
      if gh == null then None else Some(gh.id)
    }

    constructor ()
      ensures Valid() && Value() == P.INITIAL && fresh(lib)
    {
      lib := new Library();
      goalActive, goalPending, queue := null, null, [];
      owner, offered, sent, activated, cancelHooks := P.Idle, 0, {}, [], [];
    }

    // -------------------------------------------------------------------------------------------
    // Private helpers

    method PendingGoalHandle(sc: P.Schedule) returns (gh: GoalHandle?)
      requires Valid()
      modifies lib`due, lib`value, lib.handles
      ensures Valid()
      ensures var h := P.PendingHandle(old(lib.value), Id(goalPending), sc); lib.value == h.lib && Id(gh) == h.goal
      ensures gh != null ==> gh == goalPending
    {
      gh := null;
      if goalPending != null {
        var active := lib.SeesActive(goalPending, sc, 0);
        if !active { return; }
        var executing := lib.SeesExecuting(goalPending, sc, 1);
        if executing { return; }
        var canceling := lib.SeesCanceling(goalPending, sc, 2);
        if !canceling { gh := goalPending; }
      }
    }

    method TerminateGoal(gh: GoalHandle, sc: P.Schedule)
      requires Valid() && lib.Owns(gh)
      modifies lib`due, lib`value, lib.handles
      ensures Valid()
      ensures lib.value == P.Terminate(old(lib.value), gh.id, sc)
    {
      var canceling := lib.SeesCanceling(gh, sc, 3);
      if canceling {
        var _ := lib.Transit(gh, G.CancelDone, sc, 4);
        return;
      }
      ExecuteAndAbort(gh, sc);
    }

    method ExecuteAndAbort(gh: GoalHandle, sc: P.Schedule)
      requires Valid() && lib.Owns(gh)
      modifies lib`due, lib`value, lib.handles
      ensures Valid()
      ensures lib.value == P.ExecuteAndAbort(old(lib.value), gh.id, sc)
    {
      var executing := lib.SeesExecuting(gh, sc, 4);
      if !executing {
        var ok := lib.Transit(gh, G.Execute, sc, 5);
        if !ok { return; }
      }
      var _ := lib.Transit(gh, G.Abort, sc, 6);
    }

    /** preferCanceled only decides about a warning in the log. */
    method FinishActive(preferCanceled: bool, sc: P.Schedule) returns (ok: bool)
      requires Valid()
      modifies this`goalActive, lib`due, lib`value, lib.handles
      ensures Valid()
      ensures P.Outcome(Value(), ok) == P.FinishActive(old(Value()), sc)
    {
      if goalActive == null { return false; }
      var live := lib.SeesLive(goalActive, sc, 3);
      if !live {
        goalActive := null;
        return false;
      }
      ok := FinishLive(goalActive, sc);
      goalActive := null;
    }

    method FinishLive(gh: GoalHandle, sc: P.Schedule) returns (ok: bool)
      requires Valid() && lib.Owns(gh)
      modifies lib`due, lib`value, lib.handles
      ensures Valid()
      ensures P.Seen(lib.value, ok) == P.FinishLive(old(lib.value), gh.id, sc)
    {
      var canceling := lib.SeesCanceling(gh, sc, 5);
      if canceling {
        ok := lib.Transit(gh, G.CancelDone, sc, 6);
      } else {
        ok := lib.Transit(gh, G.Abort, sc, 6);
      }
    }

    // -------------------------------------------------------------------------------------------
    // Public calls

    method AcceptPending(sc: P.Schedule) returns (ok: bool)
      requires Valid()
      modifies this`goalActive, this`goalPending, this`activated, lib`due, lib`value, lib.handles
      ensures Valid()
      ensures P.Outcome(Value(), ok) == P.AcceptPending(old(Value()), sc)
    {
      var pending := PendingGoalHandle(sc);
      if pending == null { return false; }
      var _ := FinishActive(false, sc);
      ok := ExecutePending(pending, sc);
    }

    /** The second half of acceptPending(). */
    method ExecutePending(pending: GoalHandle, sc: P.Schedule) returns (ok: bool)
      requires Valid() && lib.Owns(pending)
      modifies this`goalActive, this`goalPending, this`activated, lib`due, lib`value, lib.handles
      ensures Valid()
      ensures P.Outcome(Value(), ok) == P.ExecutePending(old(Value()), pending.id, sc)
    {
      ok := lib.Transit(pending, G.Execute, sc, 7);
      if !ok {
        goalPending := null;
        return false;
      }
      goalActive := pending;
      goalPending := null;
      activated := activated + [pending.id];
    }

    method RejectPending(sc: P.Schedule) returns (ok: bool)
      requires Valid()
      modifies this`goalPending, lib`due, lib`value, lib.handles
      ensures Valid()
      ensures P.Outcome(Value(), ok) == P.RejectPending(old(Value()), sc)
    {
      var pending := PendingGoalHandle(sc);
      if pending == null { return false; }
      TerminateGoal(pending, sc);
      goalPending := null;
      return true;
    }

    method AbortActive(sc: P.Schedule) returns (ok: bool)
      requires Valid()
      modifies this`goalActive, lib`due, lib`value, lib.handles
      ensures Valid()
      ensures P.Outcome(Value(), ok) == P.FinishActive(old(Value()), sc)
    {
      ok := FinishActive(false, sc);
    }

    method CancelActive(sc: P.Schedule) returns (ok: bool)
      requires Valid()
      modifies this`goalActive, lib`due, lib`value, lib.handles
      ensures Valid()
      ensures P.Outcome(Value(), ok) == P.FinishActive(old(Value()), sc)
    {
      ok := FinishActive(true, sc);
    }

    method SucceedActive(sc: P.Schedule) returns (ok: bool)
      requires Valid()
      modifies this`goalActive, lib`due, lib`value, lib.handles
      ensures Valid()
      ensures P.Outcome(Value(), ok) == P.SucceedActive(old(Value()), sc)
    {
      if goalActive == null { return false; }
      var live := lib.SeesLive(goalActive, sc, 0);
      if !live { return false; }
      ok := lib.Transit(goalActive, G.Succeed, sc, 2);
      if !ok { return false; }
      goalActive := null;
    }

    method Shutdown()
      requires Valid()
      modifies this`goalActive, this`goalPending
      ensures Valid()
      ensures Value() == P.Apply(old(Value()), P.Event.Shutdown)
    {
      goalActive := null;
      goalPending := null;
    }

    method IsActive() returns (b: bool)
      requires Valid()
      ensures b == P.IsActive(Value())
    {
      b := goalActive != null && goalActive.state.IsExecuting();
    }

    method IsPreempting() returns (b: bool)
      requires Valid()
      ensures b == P.IsPreempting(Value())
    {
      b := goalActive != null && goalActive.state.IsCanceling();
    }

    method IsPending(sc: P.Schedule) returns (b: bool)
      requires Valid()
      modifies lib`due, lib`value, lib.handles
      ensures Valid()
      ensures var h := P.GetPendingGoal(old(Value()), sc); lib.value == h.lib && b == h.goal.Some?
    {
      var pending := PendingGoalHandle(sc);
      b := pending != null;
    }

    method GetActiveGoal(sc: P.Schedule) returns (gh: GoalHandle?)
      requires Valid()
      modifies lib`due, lib`value, lib.handles
      ensures Valid()
      ensures P.Handle(lib.value, Id(gh)) == P.GetActiveGoal(old(Value()), sc)
      ensures gh != null ==> gh == goalActive
    {
      gh := null;
      if goalActive != null {
        var live := lib.SeesLive(goalActive, sc, 0);
        if live { gh := goalActive; }
      }
    }

    method GetPendingGoal(sc: P.Schedule) returns (gh: GoalHandle?)
      requires Valid()
      modifies lib`due, lib`value, lib.handles
      ensures Valid()
      ensures P.Handle(lib.value, Id(gh)) == P.GetPendingGoal(old(Value()), sc)
      ensures gh != null ==> gh == goalPending
    {
      gh := PendingGoalHandle(sc);
    }

    // -------------------------------------------------------------------------------------------
    // Callbacks

    method CancelCallback(gh: GoalHandle) returns (accepted: bool)
      requires Valid() && lib.Owns(gh)
      modifies this`queue, this`sent, lib`due, lib`value
      ensures Valid() && lib.handles == old(lib.handles)
      ensures P.Outcome(Value(), accepted) == P.CancelCallback(old(Value()), gh.id)
      ensures accepted <==> gh == goalActive || gh == goalPending
      ensures queue == old(queue) + if accepted then [P.CancelHandler(gh.id)] else []
      ensures lib.due == old(lib.due) + if accepted then {gh.id} else {}
      ensures sent == old(sent) + if accepted then {gh.id} else {}
      ensures lib.value == old(lib.value).(due := lib.due)
    {
      if gh == goalActive || gh == goalPending {
        queue := queue + [P.CancelHandler(gh.id)];
        sent := sent + {gh.id};
        lib.due := lib.due + {gh.id};
        lib.value := lib.value.(due := lib.due);
        return true;
      }
      return false;
    }

    /** acceptedCallback() up to the goal hook. */
    method AcceptedCallback(gh: GoalHandle, sc: P.Schedule)
      requires Valid() && lib.Owns(gh)
      modifies this`goalPending, this`owner, this`offered, lib`due, lib`value, lib.handles
      ensures Valid()
      ensures Value() == P.RunAcceptedCallback(old(Value()), gh.id, sc)
    {
      var replaced := PendingGoalHandle(sc);
      if replaced != null {
        TerminateGoal(replaced, sc);
      }
      goalPending := gh;
      offered := offered + 1;
      owner := P.InGoalHook(gh.id);
    }

    /** cancelHandler() up to the cancel hook; returns whether the hook is to be called. */
    method BeginCancelHandler(gh: GoalHandle, sc: P.Schedule) returns (isActive: bool)
      requires Valid() && lib.Owns(gh)
      modifies this`goalPending, this`owner, this`cancelHooks, lib`due, lib`value, lib.handles
      ensures Valid()
      ensures Value() == P.BeginCancelHandler(old(Value()), gh.id, sc)
      ensures isActive <==> old(goalActive) == gh
    {
      isActive := false;
      if gh == goalActive {
        isActive := true;
        owner := P.InCancelHook(gh.id);
        cancelHooks := cancelHooks + [gh.id];
      } else if gh == goalPending {
        TerminateGoal(gh, sc);
        goalPending := null;
      }
    }

    /** cancelHandler() after the cancel hook. */
    method EndCancelHandler(gh: GoalHandle, sc: P.Schedule)
      requires Valid() && lib.Owns(gh)
      modifies this`goalActive, this`owner, lib`due, lib`value, lib.handles
      ensures Valid()
      ensures Value() == P.EndCancelHandler(old(Value()), gh.id, sc)
    {
      if gh == goalActive {
        var _ := FinishActive(true, sc);
      }
      owner := P.Idle;
    }

    // -------------------------------------------------------------------------------------------
    // Everything that can happen

    /** Performs one event with the methods above. */
    method Perform(e: P.Event)
      requires Valid()
      modifies this, lib, lib.handles
      ensures Valid()
      ensures forall h | h in lib.handles :: h in old(lib.handles) || fresh(h)
      ensures Value() == P.Apply(old(Value()), e)
    {
      match e
      case Deliver => Deliver();
      case RequestCancel(g) =>
        if g < |lib.handles| { var _ := CancelCallback(lib.handles[g]); }
      case CancelTransition(g) => CancelTransition(g);
      case OwnerStep(sc) => TakeMessage(sc);
      case HookReturn(sc) => ReturnFromHook(sc);
      case HandleReleased(g, abort) => ReleaseHandle(g, abort);
      case _ => PerformCall(e);
    }

    method Deliver()
      requires Valid()
      modifies this`queue, lib`handles, lib`value
      ensures Valid()
      ensures forall h | h in lib.handles :: h in old(lib.handles) || fresh(h)
      ensures Value() == P.Apply(old(Value()), P.Deliver)
    {
      var gh := lib.Accept();
      queue := queue + [P.AcceptedCallback(gh.id)];
    }

    method CancelTransition(g: nat)
      requires Valid()
      modifies lib`due, lib`value, lib.handles
      ensures Valid()
      ensures Value() == P.Apply(old(Value()), P.CancelTransition(g))
    {
      lib.Slip([g]);
      assert G.SlipAll(old(lib.value), [g]) == G.Slip(old(lib.value), g);
    }

    /** The running hook returns, and the callback that called it goes on. */
    method ReturnFromHook(sc: P.Schedule)
      requires Valid()
      modifies this`goalActive, this`owner, lib`due, lib`value, lib.handles
      ensures Valid()
      ensures Value() == P.Apply(old(Value()), P.HookReturn(sc))
    {
      if owner.InCancelHook? {
        EndCancelHandler(lib.handles[owner.goal], sc);
      }
      owner := P.Idle;
    }

    /** Nobody may refer to a handle when it is released. */
    method ReleaseHandle(g: nat, abort: bool)
      requires Valid()
      modifies lib`value, lib.handles
      ensures Valid()
      ensures Value() == P.Apply(old(Value()), P.HandleReleased(g, abort))
    {
      if g < |lib.handles| {
        var gh := lib.handles[g];
        var live := gh.state.IsActive() && g !in lib.due;
        var held := gh == goalActive || gh == goalPending || owner.Holds(g);
        if live && !held && forall m | m in queue :: m.goal != g {
          lib.Release(gh, abort);
        }
      }
    }

    /** Performs a public call, by a hook or by any other thread. */
    method PerformCall(e: P.Event)
      requires Valid()
      requires e.CallAcceptPending? || e.CallRejectPending? || e.CallAbortActive? || e.CallCancelActive? ||
               e.CallSucceedActive? || e.Shutdown?
      modifies this`goalActive, this`goalPending, this`activated, lib`due, lib`value, lib.handles
      ensures Valid()
      ensures Value() == P.Apply(old(Value()), e)
    {
      match e
      case CallAcceptPending(sc) => var _ := AcceptPending(sc);
      case CallRejectPending(sc) => var _ := RejectPending(sc);
      case CallAbortActive(sc) => var _ := AbortActive(sc);
      case CallCancelActive(sc) => var _ := CancelActive(sc);
      case CallSucceedActive(sc) => var _ := SucceedActive(sc);
      case Shutdown => Shutdown();
    }

    /** The idle owner takes the next message of its queue. */
    method TakeMessage(sc: P.Schedule)
      requires Valid()
      modifies this, lib`due, lib`value, lib.handles
      ensures Valid()
      ensures Value() == P.Apply(old(Value()), P.OwnerStep(sc))
    {
      if owner.Idle? && queue != [] {
        var m := queue[0];
        queue := queue[1..];
        if m.AcceptedCallback? {
          AcceptedCallback(lib.handles[m.goal], sc);
        } else {
          var _ := BeginCancelHandler(lib.handles[m.goal], sc);
        }
      }
    }

    /** Performs a whole run: all runs of the class are runs of the protocol. */
    method PerformAll(es: seq<P.Event>)
      requires Valid()
      modifies this, lib, lib.handles
      ensures Valid()
      ensures Value() == P.Run(old(Value()), es)
    {
      var rest := es;
      while rest != []
        invariant Valid()
        invariant forall h | h in lib.handles :: h in old(lib.handles) || fresh(h)
        invariant P.Run(Value(), rest) == P.Run(old(Value()), es)
        decreases |rest|
      {
        assert forall i | 0 <= i < |lib.handles| :: lib.handles[i] in lib.handles;
        Perform(rest[0]);
        rest := rest[1..];
      }
    }

    /**
    cancelHandler() as a whole, with any calls made by its hook and by other threads while it runs:
    when it returns, the goal is in neither slot, and a goal that was active has its result.
    */
    method HandleCancel(sc: P.Schedule, hook: seq<P.Event>, sc': P.Schedule)
      requires Valid() && I.Inv(Value())
      requires owner.Idle? && queue != [] && queue[0].CancelHandler?
      requires forall i :: 0 <= i < |hook| ==> T.DuringHook(hook[i])
      modifies this, lib, lib.handles
      ensures Valid() && owner.Idle?
      ensures var g := old(queue[0].goal);
              && !I.InSlot(Value(), g)
              && (Some(g) == Id(old(goalActive)) ==>
                    && g < |old(lib.value).state| && g < |lib.value.state|
                    && lib.value.state[g].IsTerminal()
                    && (old(lib.value).state[g].Canceling? ==> lib.value.state[g] in {G.Canceled, G.Succeeded})
                    && ((forall i :: 0 <= i < |hook| ==> !hook[i].CallSucceedActive?) ==>
                          lib.value.state[g] != G.Succeeded))
    {
      if goalActive != null && goalActive.id == queue[0].goal {
        T.CancelHandlerOfActiveGoal(Value(), hook, sc, sc');
        PerformAll([P.OwnerStep(sc)] + hook + [P.HookReturn(sc')]);
      } else {
        T.CancelHandlerOfOtherGoal(Value(), sc);
        TakeMessage(sc);
      }
    }
  }
}
