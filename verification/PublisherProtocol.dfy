/**
The handshake between writers, the executor and the publisher of a port: a writer stores a sample in
the channel and then triggers the Waitable; the executor is woken by the guard condition, asks
is_ready(), and execute() clears the flag before it drains the channel.

Writers and executor threads are anonymous and any number of them may be at the same point, so the
state counts them. execute() and cancel() hold execute_mutex_; `exec` is where its holder is.
*/
module PublisherProtocol {

  datatype Exec<T> =
    | Unlocked
    | Entered                              // func_ was present, the flag is not yet cleared
    | Draining(loan: bool)                 // in the publish loop, about to borrow a message or to read
    | Loaned                               // a message is borrowed, about to read
    | Holding(sample: T, loan: bool)       // NewData was read, about to publish
    | GaveUp                               // no message could be borrowed, about to set the flag again
    | Retriggering                         // the flag is set again, about to trigger the guard condition

  datatype State<T> = State(
    buffer: seq<T>,        // the channel: a FIFO
    stored: seq<T>,        // history: all samples written
    published: seq<T>,     // history: all samples published
    hasWork: bool,         // has_work_
    guard: bool,           // the guard condition is triggered and not consumed
    func: bool,            // func_ is present, i.e. the waitable is not canceled
    storing: nat,          // writers between storing a sample and setting the flag
    flagging: nat,         // writers between setting the flag and triggering the guard condition
    woken: nat,            // executor threads woken, before is_ready()
    ready: nat,            // executor threads after is_ready(), before execute() holds the mutex
    exec: Exec<T>)

  function Initial<T>(): State<T> {
    State([], [], [], false, false, true, 0, 0, 0, 0, Unlocked)
  }

  datatype Step<T> =
    | Store(sample: T) | SetFlag | TriggerGuard                    // a writer
    | Wake | WakeSpuriously | Check                                // an executor thread
    | Enter | Clear(loan: bool) | Borrow(ok: bool) | Read | Publish | SetFlagAgain | TriggerGuardAgain
    | Cancel

  predicate Enabled<T>(s: State<T>, step: Step<T>) {
    match step
    case Store(_) => true
    case SetFlag => s.storing > 0
    case TriggerGuard => s.flagging > 0
    case Wake => s.guard
    case WakeSpuriously => true
    case Check => s.woken > 0
    case Enter => s.ready > 0 && s.exec.Unlocked?
    case Clear(_) => s.exec.Entered?
    case Borrow(_) => s.exec.Draining? && s.exec.loan
    case Read => (s.exec.Draining? && !s.exec.loan) || s.exec.Loaned?
    case Publish => s.exec.Holding?
    case SetFlagAgain => s.exec.GaveUp?
    case TriggerGuardAgain => s.exec.Retriggering?
    case Cancel => s.exec.Unlocked?
  }

  function Next<T>(s: State<T>, step: Step<T>): State<T>
    requires Enabled(s, step)
  {
    match step
    case Store(v) => s.(buffer := s.buffer + [v], stored := s.stored + [v], storing := s.storing + 1)
    case SetFlag => s.(storing := s.storing - 1, hasWork := true, flagging := s.flagging + 1)
    case TriggerGuard => s.(flagging := s.flagging - 1, guard := true)
    case Wake => s.(guard := false, woken := s.woken + 1)
    case WakeSpuriously => s.(woken := s.woken + 1)
    case Check => s.(woken := s.woken - 1, ready := s.ready + if s.hasWork then 1 else 0)
    case Enter => s.(ready := s.ready - 1, exec := if s.func then Entered else Unlocked)
    case Clear(loan) => s.(hasWork := false, exec := Draining(loan))
    case Borrow(ok) => s.(exec := if ok then Loaned else GaveUp)
    case Read =>
      if s.buffer == [] then s.(exec := Unlocked)
      else s.(buffer := s.buffer[1..], exec := Holding(s.buffer[0], s.exec.Loaned?))
    case Publish => s.(published := s.published + [s.exec.sample], exec := Draining(s.exec.loan))
    case SetFlagAgain => s.(hasWork := true, exec := Retriggering)
    case TriggerGuardAgain => s.(guard := true, exec := Unlocked)
    case Cancel => s.(func := false)
  }

  /** steps is a run from s. */
  predicate IsRun<T>(s: State<T>, steps: seq<Step<T>>)
    decreases |steps|
  {
    steps == [] || (Enabled(s, steps[0]) && IsRun(Next(s, steps[0]), steps[1..]))
  }

  function After<T>(s: State<T>, steps: seq<Step<T>>): State<T>
    requires IsRun(s, steps)
    decreases |steps|
  {
    if steps == [] then s else After(Next(s, steps[0]), steps[1..])
  }

  lemma {:induction false} RunConcat<T>(s: State<T>, steps: seq<Step<T>>, more: seq<Step<T>>)
    requires IsRun(s, steps) && IsRun(After(s, steps), more)
    ensures IsRun(s, steps + more) && After(s, steps + more) == After(After(s, steps), more)
    decreases |steps|
  {
    if steps == [] {
      assert steps + more == more;
    } else {
      assert (steps + more)[1..] == steps[1..] + more;
      RunConcat(Next(s, steps[0]), steps[1..], more);
    }
  }

  // ---------------------------------------------------------------------------------------------
  // Conservation, order and wake-up

  function InHand<T>(s: State<T>): seq<T> {
    if s.exec.Holding? then [s.exec.sample] else []
  }

  ghost predicate Conserved<T>(s: State<T>) {
    s.stored == s.published + InHand(s) + s.buffer
  }

  /** Somebody is still going to notice an unread sample. */
  predicate Noticed<T>(s: State<T>) {
    || s.storing > 0
    || (!s.exec.Unlocked? && !s.exec.Retriggering?)
    || (s.hasWork && (s.flagging > 0 || s.guard || s.woken > 0 || s.ready > 0 || s.exec.Retriggering?))
  }

  ghost predicate Inv<T>(s: State<T>) {
    && Conserved(s)
    && (s.func && s.buffer != [] ==> Noticed(s))
    && (!s.func ==> s.exec.Unlocked?)
  }

  lemma StepKeepsInv<T>(s: State<T>, step: Step<T>)
    requires Inv(s) && Enabled(s, step)
    ensures Inv(Next(s, step))
  {
    if step.Read? && s.buffer != [] {
      assert s.buffer == [s.buffer[0]] + s.buffer[1..];
    }
  }

  lemma {:induction false} RunKeepsInv<T>(s: State<T>, steps: seq<Step<T>>)
    requires Inv(s) && IsRun(s, steps)
    ensures Inv(After(s, steps))
    decreases |steps|
  {
    if steps == [] {
    } else {
      StepKeepsInv(s, steps[0]);
      RunKeepsInv(Next(s, steps[0]), steps[1..]);
    }
  }

  /** No wake-up is lost: before cancel() an unread sample is always going to be noticed. */
  lemma NoLostWakeUp<T>(steps: seq<Step<T>>)
    requires IsRun(Initial<T>(), steps)
    ensures var s := After(Initial<T>(), steps);
            s.func && s.buffer != [] ==>
              || s.storing > 0
              || s.exec.Entered? || s.exec.Draining? || s.exec.Loaned? || s.exec.Holding? || s.exec.GaveUp?
              || (s.hasWork && (s.guard || s.flagging > 0 || s.woken > 0 || s.ready > 0 || s.exec.Retriggering?))
  {
    RunKeepsInv(Initial<T>(), steps);
  }

  /** Samples are published in the order they were stored; none is lost, duplicated or invented. */
  lemma PublishedInOrder<T>(steps: seq<Step<T>>)
    requires IsRun(Initial<T>(), steps)
    ensures var s := After(Initial<T>(), steps); s.published + InHand(s) + s.buffer == s.stored
  {
    RunKeepsInv(Initial<T>(), steps);
  }

  /** After cancel() execute() publishes nothing any more. */
  lemma {:induction false} NothingPublishedAfterCancel<T>(s: State<T>, steps: seq<Step<T>>)
    requires Inv(s) && !s.func && IsRun(s, steps)
    ensures var s' := After(s, steps); !s'.func && s'.published == s.published && s'.exec.Unlocked?
    decreases |steps|
  {
    if steps == [] {
    } else {
      StepKeepsInv(s, steps[0]);
      NothingPublishedAfterCancel(Next(s, steps[0]), steps[1..]);
    }
  }

  // ---------------------------------------------------------------------------------------------
  // Everything is published once the writers stop

  /** Steps other than new samples, cancellation and wake-ups for other reasons. */
  predicate Internal<T>(step: Step<T>) {
    !step.Store? && !step.Cancel? && !step.WakeSpuriously?
  }

  function ExecWork<T>(e: Exec<T>): nat {
    match e
    case Unlocked => 0
    case Entered => 3
    case Draining(loan) => if loan then 2 else 1
    case Loaned => 1
    case Holding(_, loan) => if loan then 3 else 2
    case GaveUp => 8
    case Retriggering => 7
  }

  /** An upper bound of the internal steps to come while messages can be borrowed. */
  function Work<T>(s: State<T>): nat {
    3 * |s.buffer| + 8 * s.storing + 7 * s.flagging + (if s.guard then 6 else 0) +
    5 * s.woken + 4 * s.ready + ExecWork(s.exec)
  }

  function FailedLoans<T>(steps: seq<Step<T>>): nat
    decreases |steps|
  {
    if steps == [] then 0
    else (if steps[0].Borrow? && !steps[0].ok then 1 else 0) + FailedLoans(steps[1..])
  }

  lemma InternalStepWorks<T>(s: State<T>, step: Step<T>)
    requires Enabled(s, step) && Internal(step)
    ensures Work(Next(s, step)) < Work(s) + (if step.Borrow? && !step.ok then 7 else 0)
  {
  }

  /** Without new samples the number of steps is bounded, except for the rounds caused by failed loans. */
  lemma {:induction false} InternalRunsAreBounded<T>(s: State<T>, steps: seq<Step<T>>)
    requires IsRun(s, steps) && forall i | 0 <= i < |steps| :: Internal(steps[i])
    ensures |steps| + Work(After(s, steps)) <= Work(s) + 7 * FailedLoans(steps)
    decreases |steps|
  {
    if steps == [] {
    } else {
      InternalStepWorks(s, steps[0]);
      InternalRunsAreBounded(Next(s, steps[0]), steps[1..]);
    }
  }

  predicate AtRest<T>(s: State<T>) {
    s.storing == 0 && s.flagging == 0 && !s.guard && s.woken == 0 && s.ready == 0 && s.exec.Unlocked?
  }

  /** There is no deadlock: unless everything is at rest, some thread can take a step. */
  function SomeInternalStep<T>(s: State<T>): (step: Step<T>)
    requires !AtRest(s)
    ensures Internal(step) && Enabled(s, step)
  {
    match s.exec
    case Unlocked =>
      if s.storing > 0 then SetFlag
      else if s.flagging > 0 then TriggerGuard
      else if s.guard then Wake
      else if s.woken > 0 then Check
      else Enter
    case Entered => Clear(false)
    case Draining(loan) => if loan then Borrow(true) else Read
    case Loaned => Read
    case Holding(_, _) => Publish
    case GaveUp => SetFlagAgain
    case Retriggering => TriggerGuardAgain
  }

  ghost predicate NoInternalStep<T(!new)>(s: State<T>) {
    forall step: Step<T> :: Internal(step) ==> !Enabled(s, step)
  }

  /** When no thread can take a step every stored sample has been published, in order. */
  lemma QuiescentMeansAllPublished<T(!new)>(steps: seq<Step<T>>)
    requires IsRun(Initial<T>(), steps) && After(Initial<T>(), steps).func
    requires NoInternalStep(After(Initial<T>(), steps))
    ensures var s := After(Initial<T>(), steps); s.published == s.stored && s.buffer == []
  {
    var s := After(Initial<T>(), steps);
    RunKeepsInv(Initial<T>(), steps);
    assert !AtRest(s) ==> var step := SomeInternalStep(s); Internal(step) && Enabled(s, step);
  }
}
