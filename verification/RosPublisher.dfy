/**
Waitable and RosPublisherChannelElement in the form of their sources. Every atomic access to the
channel, the flag, the guard condition or func_ is a step of PublisherProtocol, and the steps of other
threads in between come from a script; `trace` records all of them. Since a valid element's trace is a
run of the protocol, the theorems about runs hold of the code.
*/
module RosPublisher {
  import opened Wrappers
  import P = PublisherProtocol

  class Waitable {
    var hasWork: bool
    var guard: bool
    var func: bool

    constructor ()
      ensures !hasWork && !guard && func
    {
      hasWork, guard, func := false, false, true;
    }
  }

  lemma Extend<T>(trace: seq<P.Step<T>>, step: P.Step<T>)
    requires P.IsRun(P.Initial<T>(), trace) && P.Enabled(P.After(P.Initial<T>(), trace), step)
    ensures P.IsRun(P.Initial<T>(), trace + [step])
    ensures P.After(P.Initial<T>(), trace + [step]) == P.Next(P.After(P.Initial<T>(), trace), step)
  {
    assert [step][1..] == [];
    P.RunConcat(P.Initial<T>(), trace, [step]);
  }

  class Element<T> {
    const waitable: Waitable
    /** Whether the middleware can loan messages. */
    const canLoan: bool
    var channel: seq<T>
    var published: seq<T>
    // the other threads, counted by where they are
    var storing: nat
    var flagging: nat
    var woken: nat
    var ready: nat
    ghost var stored: seq<T>
    ghost var exec: P.Exec<T>
    ghost var trace: seq<P.Step<T>>

    ghost function Value(): P.State<T>
      reads this, waitable
    {
      P.State(channel, stored, published, waitable.hasWork, waitable.guard, waitable.func,
              storing, flagging, woken, ready, exec)
    }

    ghost predicate Valid()
      reads this, waitable
    {
      P.IsRun(P.Initial<T>(), trace) && P.After(P.Initial<T>(), trace) == Value()
    }

    /** A message was borrowed, or could not be, since the trace had n steps. */
    ghost predicate BorrowedSince(n: nat)
      reads this
    {
      exists i :: n <= i < |trace| && trace[i].Borrow?
    }

    /** The flag was cleared. */
    ghost predicate ClearedSince(n: nat)
      reads this
    {
      exists i :: n <= i < |trace| && trace[i].Clear?
    }

    ghost predicate TriggeredSince(n: nat)
      reads this
    {
      exists i :: n <= i < |trace| && trace[i].TriggerGuard?
    }

    constructor (canLoan: bool)
      ensures Valid() && fresh(waitable) && Value() == P.Initial<T>()
    {
      this.canLoan := canLoan;
      waitable := new Waitable();
      channel, published, storing, flagging, woken, ready := [], [], 0, 0, 0, 0;
      stored, exec, trace := [], P.Unlocked, [];
    }

    /** One step of another writer, if there is one at this point. */
    method OtherWriter(step: P.Step<T>)
      requires Valid()
      modifies this, waitable
      ensures Valid() && old(trace) <= trace
      ensures exec == old(exec) && published == old(published)
      ensures waitable.func == old(waitable.func) && (old(waitable.hasWork) ==> waitable.hasWork)
      ensures !BorrowedSince(|old(trace)|) && (flagging < old(flagging) ==> TriggeredSince(|old(trace)|))
    {
      match step
      case Store(sample) =>
        Extend(trace, step);
        channel, storing := channel + [sample], storing + 1;
        stored, trace := stored + [sample], trace + [step];
      case SetFlag =>
        if storing > 0 {
          Extend(trace, step);
          storing, flagging, waitable.hasWork := storing - 1, flagging + 1, true;
          trace := trace + [step];
        }
      case TriggerGuard =>
        if flagging > 0 {
          Extend(trace, step);
          flagging, waitable.guard := flagging - 1, true;
          trace := trace + [step];
          assert trace[|old(trace)|].TriggerGuard?;
        }
      case _ =>
    }

    /** One step of another executor thread, if there is one at this point; it cannot get the mutex. */
    method OtherExecutor(step: P.Step<T>)
      requires Valid()
      modifies this, waitable
      ensures Valid() && old(trace) <= trace
      ensures exec == old(exec) && published == old(published)
      ensures waitable.func == old(waitable.func) && (old(waitable.hasWork) ==> waitable.hasWork)
      ensures channel == old(channel) && flagging == old(flagging)
      ensures !BorrowedSince(|old(trace)|)
    {
      match step
      case Wake =>
        if waitable.guard {
          Extend(trace, step);
          waitable.guard, woken := false, woken + 1;
          trace := trace + [step];
        }
      case WakeSpuriously =>
        Extend(trace, step);
        woken := woken + 1;
        trace := trace + [step];
      case Check =>
        if woken > 0 {
          Extend(trace, step);
          woken := woken - 1;
          if waitable.hasWork { ready := ready + 1; }
          trace := trace + [step];
        }
      case _ =>
    }

    /** The steps of the other threads at one interference point. */
    method Others(steps: seq<P.Step<T>>)
      requires Valid()
      modifies this, waitable
      ensures Valid() && old(trace) <= trace
      ensures exec == old(exec) && published == old(published)
      ensures waitable.func == old(waitable.func) && (old(waitable.hasWork) ==> waitable.hasWork)
      ensures !BorrowedSince(|old(trace)|) && (flagging < old(flagging) ==> TriggeredSince(|old(trace)|))
    {
      for i := 0 to |steps|
        invariant Valid() && old(trace) <= trace
        invariant exec == old(exec) && published == old(published)
        invariant waitable.func == old(waitable.func) && (old(waitable.hasWork) ==> waitable.hasWork)
        invariant !BorrowedSince(|old(trace)|) && (flagging < old(flagging) ==> TriggeredSince(|old(trace)|))
      {
        OtherWriter(steps[i]);
        OtherExecutor(steps[i]);
      }
    }

    /**
    trigger(), called by a writer through signal(): the flag is set and then the guard condition is
    triggered, by this writer or by one that had come to the same point.
    */
    method Signal(env: seq<P.Step<T>>)
      requires Valid() && storing > 0
      modifies this, waitable
      ensures Valid() && old(trace) + [P.SetFlag] <= trace && waitable.hasWork
      ensures TriggeredSince(|old(trace)| + 1)
      ensures exec == old(exec) && published == old(published)
    {
      Extend(trace, P.Step<T>.SetFlag);
      waitable.hasWork := true;
      storing, flagging, trace := storing - 1, flagging + 1, trace + [P.SetFlag];
      Others(env);
      if flagging > 0 {  // another thread at the same point may have gone first
        Extend(trace, P.Step<T>.TriggerGuard);
        waitable.guard := true;
        flagging, trace := flagging - 1, trace + [P.TriggerGuard];
        assert trace[|trace| - 1].TriggerGuard?;
      }
    }

    /** read() from the channel: the oldest sample is NewData, None that there is no new data. */
    method Read() returns (message: Option<T>)
      requires Valid() && ((exec.Draining? && !exec.loan) || exec.Loaned?)
      modifies this`channel, this`exec, this`trace
      ensures Valid() && trace == old(trace) + [P.Read]
      ensures message.Some? <==> old(channel) != []
      ensures message.Some? ==> message.value == old(channel)[0] && channel == old(channel)[1..]
      ensures message.Some? ==> exec == P.Holding(old(channel)[0], old(exec).Loaned?)
      ensures message.None? ==> channel == [] && exec.Unlocked?
    {
      Extend(trace, P.Step<T>.Read);
      trace := trace + [P.Read];
      if |channel| == 0 {
        exec := P.Unlocked;
        return None;
      }
      message := Some(channel[0]);
      exec := P.Holding(channel[0], exec.Loaned?);
      channel := channel[1..];
    }

    /** publisher_->publish() of the message just read. */
    method PublishMessage(message: T)
      requires Valid() && exec.Holding? && exec.sample == message
      modifies this`published, this`exec, this`trace
      ensures Valid() && trace == old(trace) + [P.Publish]
      ensures published == old(published) + [message] && exec == P.Draining(old(exec).loan)
    {
      Extend(trace, P.Step<T>.Publish);
      published := published + [message];
      exec, trace := P.Draining(exec.loan), trace + [P.Publish];
    }

    /** Other threads act up to the next interference point of the script. */
    method Interfere(script: seq<seq<P.Step<T>>>) returns (rest: seq<seq<P.Step<T>>>)
      requires Valid()
      modifies this, waitable
      ensures Valid() && old(trace) <= trace && exec == old(exec) && published == old(published)
      ensures waitable.func == old(waitable.func) && (old(waitable.hasWork) ==> waitable.hasWork)
      ensures if script == [] then rest == [] && channel == old(channel) else rest == script[1..]
      ensures !BorrowedSince(|old(trace)|)
    {
      rest := script;
      if script != [] {
        Others(script[0]);
        rest := script[1..];
      }
    }

    /** borrow_loaned_message(), which may fail. */
    method Borrow(ok: bool)
      requires Valid() && exec == P.Draining(true)
      modifies this`exec, this`trace
      ensures Valid() && trace == old(trace) + [P.Borrow(ok)] && exec == if ok then P.Loaned else P.GaveUp
      ensures stored == published + channel
    {
      Extend(trace, P.Step<T>.Borrow(ok));
      exec, trace := if ok then P.Loaned else P.GaveUp, trace + [P.Borrow(ok)];
      P.RunKeepsInv(P.Initial<T>(), trace);
    }

    /** The end of the loop body in both loops below: reads a sample and publishes it, if there is one. */
    method ForwardOne(script: seq<seq<P.Step<T>>>) returns (more: bool, rest: seq<seq<P.Step<T>>>)
      requires Valid() && (exec == P.Draining(false) || exec.Loaned?)
      modifies this, waitable
      ensures Valid() && old(trace) <= trace && waitable.func == old(waitable.func)
      ensures !BorrowedSince(|old(trace)|)
      ensures if more then exec == P.Draining(old(exec).Loaned?) else channel == [] && exec.Unlocked?
      ensures more ==> |rest| < |script| || (rest == script == [] && |channel| < |old(channel)|)
    {
      rest := Interfere(script);
      var message := Read();
      more := message.Some?;
      if more {
        rest := Interfere(rest);
        PublishMessage(message.value);
      }
    }

    /** publish_impl(): publishes until the channel has no new data. */
    method PublishImpl(script: seq<seq<P.Step<T>>>) returns (done: bool)
      requires Valid() && exec == P.Draining(false)
      modifies this, waitable
      ensures Valid() && old(trace) <= trace && waitable.func == old(waitable.func)
      ensures done && channel == [] && exec.Unlocked? && !BorrowedSince(|old(trace)|)
    {
      var rest := script;
      while true
        invariant Valid() && old(trace) <= trace && waitable.func == old(waitable.func)
        invariant exec == P.Draining(false) && !BorrowedSince(|old(trace)|)
        decreases |rest|, |channel|
      {
        var more;
        more, rest := ForwardOne(rest);
        if !more { return true; }
      }
    }

    /**
    publish_impl_loaned_message(): returns false as soon as no message can be borrowed. Then nothing
    was read after the failed loan: every sample stored is published or still in the channel.
    */
    method PublishImplLoanedMessage(script: seq<seq<P.Step<T>>>, loanOk: nat -> bool) returns (done: bool)
      requires Valid() && exec == P.Draining(true)
      modifies this, waitable
      ensures Valid() && old(trace) <= trace && waitable.func == old(waitable.func)
      ensures if done then channel == [] && exec.Unlocked? else exec.GaveUp?
      ensures BorrowedSince(|old(trace)|)
      ensures !done ==> trace[|trace| - 1] == P.Borrow(false) && stored == published + channel
    {
      var rest := script;
      var loans := 0;
      while true
        invariant Valid() && old(trace) <= trace && waitable.func == old(waitable.func)
        invariant exec == P.Draining(true)
        decreases |rest|, |channel|
      {
        rest := Interfere(rest);
        var ok := loanOk(loans);
        loans := loans + 1;
        Borrow(ok);
        ghost var borrowed := |trace| - 1;
        assert trace[borrowed].Borrow?;
        if !ok { return false; }
        var more;
        more, rest := ForwardOne(rest);
        assert trace[borrowed].Borrow?;
        if !more { return true; }
      }
    }

    /** publish(), the function the waitable calls: it borrows messages exactly if they can be loaned. */
    method Publish(script: seq<seq<P.Step<T>>>, loanOk: nat -> bool) returns (done: bool)
      requires Valid() && exec == P.Draining(canLoan)
      modifies this, waitable
      ensures Valid() && old(trace) <= trace && waitable.func == old(waitable.func)
      ensures if done then channel == [] && exec.Unlocked? else exec.GaveUp?
      ensures BorrowedSince(|old(trace)|) <==> canLoan
      ensures !done ==> canLoan && stored == published + channel
    {
      if canLoan {
        done := PublishImplLoanedMessage(script, loanOk);
      } else {
        done := PublishImpl(script);
      }
    }

    /** execute() with the mutex held, up to clearing the flag; returns whether func_ is present. */
    method EnterExecute(script: seq<seq<P.Step<T>>>) returns (present: bool, rest: seq<seq<P.Step<T>>>)
      requires Valid() && exec.Unlocked? && ready > 0
      modifies this, waitable
      ensures Valid() && old(trace) <= trace && published == old(published)
      ensures present == old(waitable.func) == waitable.func
      ensures if present then exec == P.Draining(canLoan) else exec.Unlocked? && channel == old(channel)
      ensures present ==> !waitable.hasWork && ClearedSince(|old(trace)|)
    {
      Extend(trace, P.Step<T>.Enter);
      ready, trace := ready - 1, trace + [P.Enter];
      present, rest := waitable.func, script;
      if !present { return; }
      exec := P.Entered;
      rest := Interfere(script);
      Extend(trace, P.Step<T>.Clear(canLoan));
      waitable.hasWork := false;
      exec, trace := P.Draining(canLoan), trace + [P.Clear(canLoan)];
      assert trace[|trace| - 1].Clear?;
    }

    /** trigger(), called by execute() itself. */
    method TriggerAgain(script: seq<seq<P.Step<T>>>)
      requires Valid() && exec.GaveUp?
      modifies this, waitable
      ensures Valid() && old(trace) <= trace && exec.Unlocked?
      ensures waitable.hasWork && waitable.guard
    {
      Extend(trace, P.Step<T>.SetFlagAgain);
      waitable.hasWork := true;
      exec, trace := P.Retriggering, trace + [P.SetFlagAgain];
      var _ := Interfere(script);
      Extend(trace, P.Step<T>.TriggerGuardAgain);
      waitable.guard := true;
      exec, trace := P.Unlocked, trace + [P.TriggerGuardAgain];
    }

    /**
    Waitable::execute(), entered when execute_mutex_ is free. Either the waitable was canceled and
    nothing is published; or everything stored so far has been published; or no message could be
    borrowed, and then the flag and the guard condition are set again.
    */
    method Execute(script: seq<seq<P.Step<T>>>, loanOk: nat -> bool) returns (done: bool)
      requires Valid() && exec.Unlocked? && ready > 0
      modifies this, waitable
      ensures Valid() && old(trace) <= trace && exec.Unlocked?
      ensures !old(waitable.func) ==> published == old(published) && channel == old(channel)
      ensures old(waitable.func) ==> ClearedSince(|old(trace)|)
      ensures old(waitable.func) && done ==> channel == [] && published == stored
      ensures old(waitable.func) && !done ==> waitable.hasWork && waitable.guard
    {
      var present, rest := EnterExecute(script);
      if !present { return true; }
      ghost var clear :| |old(trace)| <= clear < |trace| && trace[clear].Clear?;
      done := Publish(rest, loanOk);
      assert trace[clear].Clear?;
      if done {
        P.RunKeepsInv(P.Initial<T>(), trace);
      } else {
        TriggerAgain(rest);
        assert trace[clear].Clear?;
      }
    }

    /** cancel(), entered when execute_mutex_ is free; every later execute() finds no function to call. */
    method Cancel()
      requires Valid() && exec.Unlocked?
      modifies waitable`func, this`trace
      ensures Valid() && !waitable.func && trace == old(trace) + [P.Cancel]
    {
      Extend(trace, P.Step<T>.Cancel);
      waitable.func := false;
      trace := trace + [P.Cancel];
    }
  }
}
