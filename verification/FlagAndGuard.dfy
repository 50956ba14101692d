/**
The flag and the guard condition of a Waitable in terms of the steps of a run.
*/
module FlagAndGuard {
  import opened PublisherProtocol

  predicate SetsFlag<T>(step: Step<T>) { step.SetFlag? || step.SetFlagAgain? }
  predicate ClearsFlag<T>(step: Step<T>) { step.Clear? }
  predicate Triggers<T>(step: Step<T>) { step.TriggerGuard? || step.TriggerGuardAgain? }
  predicate Consumes<T>(step: Step<T>) { step.Wake? }
  predicate Executes<T>(step: Step<T>) { step.Enter? }

  ghost predicate Never<T>(steps: seq<Step<T>>, p: Step<T> -> bool) {
    forall j :: 0 <= j < |steps| ==> !p(steps[j])
  }

  /** A step sets something, and no later step clears it. */
  ghost predicate SetLast<T>(steps: seq<Step<T>>, sets: Step<T> -> bool, clears: Step<T> -> bool) {
    exists i :: 0 <= i < |steps| && sets(steps[i]) && Never(steps[i + 1..], clears)
  }

  lemma SetLastTail<T>(steps: seq<Step<T>>, sets: Step<T> -> bool, clears: Step<T> -> bool)
    requires steps != []
    ensures SetLast(steps, sets, clears) <==>
            SetLast(steps[1..], sets, clears) || (sets(steps[0]) && Never(steps[1..], clears))
    ensures Never(steps, clears) <==> !clears(steps[0]) && Never(steps[1..], clears)
  {
    var rest := steps[1..];
    if SetLast(steps, sets, clears) {
      var i :| 0 <= i < |steps| && sets(steps[i]) && Never(steps[i + 1..], clears);
      if i > 0 { assert sets(rest[i - 1]) && rest[i - 1 + 1..] == steps[i + 1..]; }
    }
    if SetLast(rest, sets, clears) {
      var i :| 0 <= i < |rest| && sets(rest[i]) && Never(rest[i + 1..], clears);
      assert sets(steps[i + 1]) && steps[i + 1 + 1..] == rest[i + 1..];
    }
    forall j | 0 <= j < |steps| ensures j > 0 ==> steps[j] == rest[j - 1] {}
    forall j | 0 <= j < |rest| ensures rest[j] == steps[j + 1] {}
  }

  lemma {:induction false} FlagOver<T>(s: State<T>, steps: seq<Step<T>>)
    requires IsRun(s, steps)
    ensures After(s, steps).hasWork <==>
            SetLast(steps, SetsFlag, ClearsFlag) || (s.hasWork && Never(steps, ClearsFlag))
    decreases |steps|
  {
    if steps == [] {
    } else {
      FlagOver(Next(s, steps[0]), steps[1..]);
      SetLastTail(steps, SetsFlag, ClearsFlag);
    }
  }

  lemma {:induction false} GuardOver<T>(s: State<T>, steps: seq<Step<T>>)
    requires IsRun(s, steps)
    ensures After(s, steps).guard <==>
            SetLast(steps, Triggers, Consumes) || (s.guard && Never(steps, Consumes))
    decreases |steps|
  {
    if steps == [] {
    } else {
      GuardOver(Next(s, steps[0]), steps[1..]);
      SetLastTail(steps, Triggers, Consumes);
    }
  }

  /**
  The flag is set iff somebody has set it since execute() cleared it last, and the guard condition is
  triggered iff somebody has triggered it since it last woke a thread.
  */
  lemma FlagAndGuardIff<T>(steps: seq<Step<T>>)
    requires IsRun(Initial<T>(), steps)
    ensures After(Initial<T>(), steps).hasWork <==> SetLast(steps, SetsFlag, ClearsFlag)
    ensures After(Initial<T>(), steps).guard <==> SetLast(steps, Triggers, Consumes)
  {
    FlagOver(Initial<T>(), steps);
    GuardOver(Initial<T>(), steps);
  }

  /** While the flag is not set again, waking threads leads to no execution. */
  lemma {:induction false} NoFlagNoExecution<T>(s: State<T>, steps: seq<Step<T>>)
    requires IsRun(s, steps) && !s.hasWork && s.ready == 0 && s.exec.Unlocked?
    requires Never(steps, SetsFlag)
    ensures Never(steps, Executes)
    ensures After(s, steps).published == s.published
    decreases |steps|
  {
    if steps == [] {
    } else {
      SetLastTail(steps, SetsFlag, SetsFlag);
      NoFlagNoExecution(Next(s, steps[0]), steps[1..]);
      SetLastTail(steps, SetsFlag, Executes);
    }
  }
}
