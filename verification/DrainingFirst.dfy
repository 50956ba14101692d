/**
Why execute() clears the flag before it drains the channel: with the order swapped a wake-up is lost.
*/
module DrainingFirst {
  import opened PublisherProtocol

  /** The same steps, except that execute() drains the channel first and clears the flag afterwards. */
  function NextDrainingFirst<T>(s: State<T>, step: Step<T>): State<T>
    requires Enabled(s, step)
  {
    if step.Enter? && s.func then s.(ready := s.ready - 1, exec := Draining(false))
    else if step.Read? && s.buffer == [] then s.(exec := Entered)
    else if step.Clear? then s.(hasWork := false, exec := Unlocked)
    else Next(s, step)
  }

  predicate IsRunDrainingFirst<T>(s: State<T>, steps: seq<Step<T>>)
    decreases |steps|
  {
    steps == [] || (Enabled(s, steps[0]) && IsRunDrainingFirst(NextDrainingFirst(s, steps[0]), steps[1..]))
  }

  function AfterDrainingFirst<T>(s: State<T>, steps: seq<Step<T>>): State<T>
    requires IsRunDrainingFirst(s, steps)
    decreases |steps|
  {
    if steps == [] then s else AfterDrainingFirst(NextDrainingFirst(s, steps[0]), steps[1..])
  }

  ghost predicate ReachesDrainingFirst<T(!new)>(s: State<T>, s': State<T>) {
    exists steps: seq<Step<T>> :: IsRunDrainingFirst(s, steps) && AfterDrainingFirst(s, steps) == s'
  }

  lemma {:induction false} RunLonger<T>(s: State<T>, steps: seq<Step<T>>, step: Step<T>)
    requires IsRunDrainingFirst(s, steps) && Enabled(AfterDrainingFirst(s, steps), step)
    ensures IsRunDrainingFirst(s, steps + [step])
    ensures AfterDrainingFirst(s, steps + [step]) == NextDrainingFirst(AfterDrainingFirst(s, steps), step)
    decreases |steps|
  {
    if steps == [] {
      assert steps + [step] == [step] && [step][1..] == [];
    } else {
      assert (steps + [step])[1..] == steps[1..] + [step];
      RunLonger(NextDrainingFirst(s, steps[0]), steps[1..], step);
    }
  }

  /** One more step. */
  lemma Then<T(!new)>(s: State<T>, t: State<T>, step: Step<T>, t': State<T>)
    requires ReachesDrainingFirst(s, t) && Enabled(t, step) && NextDrainingFirst(t, step) == t'
    ensures ReachesDrainingFirst(s, t')
  {
    var steps: seq<Step<T>> :| IsRunDrainingFirst(s, steps) && AfterDrainingFirst(s, steps) == t;
    RunLonger(s, steps, step);
    assert AfterDrainingFirst(s, steps + [step]) == t';
  }

  lemma Arrives(s: State<int>, t: State<int>, v: int) returns (t': State<int>)
    requires ReachesDrainingFirst(s, t) && t.storing == t.flagging == 0
    ensures t' == t.(buffer := t.buffer + [v], stored := t.stored + [v], hasWork := true, guard := true)
    ensures ReachesDrainingFirst(s, t')
  {
    var u := t.(buffer := t.buffer + [v], stored := t.stored + [v]);
    t' := u.(hasWork := true, guard := true);
    Then(s, t, Store(v), u.(storing := 1));
    Then(s, u.(storing := 1), SetFlag, u.(hasWork := true, flagging := 1));
    Then(s, u.(hasWork := true, flagging := 1), TriggerGuard, t');
  }

  lemma WakesUp(s: State<int>, t: State<int>)
    requires ReachesDrainingFirst(s, t.(guard := true))
    requires !t.guard && t.woken == t.ready == 0 && t.exec.Unlocked? && t.func && t.hasWork
    ensures ReachesDrainingFirst(s, t.(exec := Draining(false)))
  {
    Then(s, t.(guard := true), Wake, t.(woken := 1));
    Then(s, t.(woken := 1), Check, t.(ready := 1));
    Then(s, t.(ready := 1), Enter, t.(exec := Draining(false)));
  }

  const DRAINED := Initial<int>().(stored := [1], published := [1], hasWork := true, exec := Entered)

  /** The executor thread takes the first sample and finds the channel empty. */
  lemma Drains(s: State<int>, t: State<int>)
    requires t == DRAINED.(buffer := [1], published := [], exec := Draining(false)) && ReachesDrainingFirst(s, t)
    ensures ReachesDrainingFirst(s, DRAINED)
  {
    var u := t.(buffer := []);
    Then(s, t, Read, u.(exec := Holding(1, false)));
    Then(s, u.(exec := Holding(1, false)), Publish, u.(published := [1]));
    Then(s, u.(published := [1]), Read, DRAINED);
  }

  /** The thread clears the flag and with it the sign of the second sample. */
  const UNNOTICED := Initial<int>().(buffer := [2], stored := [1, 2], published := [1])

  lemma ClearsTooLate(s: State<int>, t: State<int>)
    requires t == UNNOTICED.(hasWork := true, guard := true, exec := Entered) && ReachesDrainingFirst(s, t)
    ensures ReachesDrainingFirst(s, UNNOTICED)
  {
    var u := UNNOTICED;
    Then(s, t, Clear(false), u.(guard := true));
    Then(s, u.(guard := true), Wake, u.(woken := 1));
    Then(s, u.(woken := 1), Check, u);
  }

  /** With the order swapped a wake-up is lost: all threads are at rest and a sample stays unread. */
  lemma DrainingFirstLosesWakeUp()
    ensures ReachesDrainingFirst(Initial<int>(), UNNOTICED)
    ensures AtRest(UNNOTICED) && UNNOTICED.func && !UNNOTICED.hasWork && UNNOTICED.buffer == [2]
  {
    var start := Initial<int>();
    assert AfterDrainingFirst(start, []) == start;
    var first := Arrives(start, start, 1);
    WakesUp(start, first.(guard := false));
    Drains(start, first.(guard := false, exec := Draining(false)));
    var second := Arrives(start, DRAINED, 2);
    ClearsTooLate(start, second);
  }
}
