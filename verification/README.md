# Verified model of rtt_ros2

A Dafny model of the parts of rtt_ros2 (the ROS 2 integration of the Orocos Real-Time Toolkit) whose
correctness does not follow from reading one function, with proofs of what they promise.
`dafny verify dfyconfig.toml` checks all of it.

## The modules

**The action server.** `SimpleActionServer` emulates the simple action server of ROS 1 on top of the
goal state machine of ROS 2 with two slots, an active and a pending goal. Threads of the ROS executor,
the owner thread and callers of the public methods interleave on it.

- `GoalStates` is what the action library provides: goal handles as state machines, invalid transitions
  that throw, and accepted cancel requests whose CANCELING transition comes later.
- `ActionProtocol` is the server as a state machine. A locked section excludes other public calls but
  not the CANCELING transitions, which the executor makes after `cancelCallback` has returned and
  without the mutex. So each operation takes a schedule that says which transitions slip in before
  each of its accesses to a handle. A run is any sequence of events with any schedules; events are
  deliveries, cancel requests, late transitions, public calls, messages taken by the owner, returns
  of hooks, shutdown, and the library ending a goal whose last handle is released. A hook is whatever events happen between its start and its return.
- `ActionRaces` says exactly which late transitions, at which access, decide about each outcome.
  `ActionEffects`, `ActionInvariants` and `ActionTheorems` prove what one locked section does to the
  whole system, what every event keeps, and what holds over all runs. `ActionExamples` holds runs that show where the
  conditions fail.
- `Ros1Server` is the ROS 1 server and the moves documented for each event. `Ros1Atomic` shows that an
  event which meets no late transition makes exactly these moves, `Ros1Refinement` that every event
  and every run is a path of documented moves and of cancels by the client.
- `SimpleActionServer` is the class as the source has it, with slots that refer to shared mutable
  handles; each method is proved to do what the state machine says.

**Plugin import.** `DependencyGraph`, `SearchPath` and `PluginImport` model `rtt_ros2::import`: a worklist
over the dependency graph without a visited set, the search path built in reverse, and the reverse
import loop over a list with duplicates. The key is that the worklist enumerates dependency paths, each
once and in breadth-first order.

**Publishing a port.** `PublisherProtocol` is the handshake between writers, executor threads and
`execute()`/`cancel()` of `Waitable` as a state machine, one atomic access per step and any number of
threads; `FlagAndGuard` and `DrainingFirst` say what its flag is for. `RosPublisher` is the code of `Waitable` and `RosPublisherChannelElement`; other threads act
between its accesses, and what it does is recorded as a run of the state machine.

**Data sources.** `GetterSetter` says what reading and writing through a chain of getter/setter data
sources of any depth means; `DataSources` is the class, whose methods overwrite the copies in place.

**Conversions.** `IntegerConversions` covers the table of integer conversions and the cast behind it,
`CamelCase` the topic name derived from a port name, `JacobianProperties` the conversion of a KDL
Jacobian to a property bag and back.

## Assumptions

- Goal handles follow the goal states of the ROS 2 design article "Actions": EXECUTE from ACCEPTED,
  CANCELING from ACCEPTED or EXECUTING, SUCCEEDED and ABORTED from EXECUTING or CANCELING, CANCELED from
  CANCELING. An invalid transition throws and changes nothing. Reading the state of a handle is atomic.
- The library ends a goal when its last handle is released before it has a result; the comment at
  simple_action_server.hpp:210 relies on this. Whether the goal is ABORTED or CANCELED then is left open,
  and so is whether and when a run contains the release. Handles are held by the slots, by the queued
  messages, by a callback while its hook runs, and by the library until a due CANCELING transition has
  happened.
- The owner's queue is first in, first out, the library sends `acceptedCallback` in the order in which
  goals are accepted, and the owner handles one message at a time. A hook that is not set behaves as
  one that does nothing.
- A delivery or cancel request that arrives during a locked section may be placed before or after it:
  the section touches neither the queue nor goals that are new.
- The result of a package lookup does not change during one import. Nothing is assumed about which
  imports the component loader lets succeed, nor what else they make available; a package that was
  imported successfully counts as imported from then on.
- The channel behind a publisher is a first in, first out buffer, and `read()` reports new data exactly
  if it is not empty.

## Where the code differs from its documentation

- simple_action_server.hpp:507 and rtt_ros2_actions/README.md:41-43 say that a canceled goal is CANCELING when its
  handler runs and ends CANCELED. The transition happens after `cancelCallback` returns, so that the
  handler may run first and then aborts the goal. `CanceledGoalAborted` is such a run.
  `CanceledIffCancelingInTime` is the exact condition, for every hook and every schedule, and
  `CancelHandlerOfActiveGoal` the promise that holds for every goal CANCELING on entry.
- rtt_ros2_actions/README.md:37-45 and the comments of `rejectPending` and `terminateGoal` say that a goal leaving the
  pending slot unaccepted is finished by the server. The server does not finish it if it is CANCELING
  when a newer goal replaces it, nor if it slips to CANCELING just before `execute()` in `acceptPending`
  or `terminateGoal`; `rejectPending` returns true all the same, and the result it was given is lost.
  `ReplacedGoalGetsResult`, `AcceptDropsGoalIff`, `RejectedAs` and `CancelHandlerOfOtherGoal` are the
  exact conditions for each place, over all schedules; `ReplacedGoalLeft`, `AcceptedGoalLeft` and
  `RejectedGoalLeft` are runs. Such a goal is CANCELING in no slot: the server never ends it, and it gets
  a result if and only if the library ends it when its last handle is released (`LeftToTheLibrary`).
  `NoGoalStranded` says that no other goal is left to the library without a shutdown.
- `import` does not end on a cyclic dependency graph, which nothing in the source excludes;
  `TerminatesIffNoCycle` makes this exact, `CyclicImportDoesNotEnd` is an example, and `Collect` and
  `Import` require that there is no cycle.
- `GetterSetterDataSource::set()` writes whole parent copies back, so that a stale copy overwrites newer
  values of other fields. `WriteReachesRootIff` is the exact condition, `StaleCopyOverwrites` an example.

## Model

| member | source | states |
|---|---|---|
| `ActionTheorems.SlotsHoldLiveGoals` | rtt_ros2_actions/include/orocos/rtt_ros2_actions/simple_action_server.hpp:274-317 | over every run: the active slot holds an EXECUTING or CANCELING goal, the pending slot an ACCEPTED or CANCELING one, they differ, and without shutdown every EXECUTING goal is the active one |
| `ActionTheorems.NewestGoalWins` | rtt_ros2_actions/include/orocos/rtt_ros2_actions/simple_action_server.hpp:488-505 | over every run: the pending goal is the last one offered, the active goal was delivered before it and is the last one activated, and goals become active in strictly increasing order of delivery |
| `ActionTheorems.NoGoalStranded` | rtt_ros2_actions/include/orocos/rtt_ros2_actions/simple_action_server.hpp:451-505 | over every run without shutdown: every offered goal is in a slot, has its result, or is CANCELING with a handler sent for it; a goal that was ever active, or that nobody asked to cancel, never ends up without slot and result |
| `ActionTheorems.DrainedQueueLeavesNoCancel` | rtt_ros2_actions/include/orocos/rtt_ros2_actions/simple_action_server.hpp:475-534 | once the owner is idle with an empty queue, no goal with an accepted cancel request occupies a slot |
| `ActionTheorems.OneResultOverARun` | rtt_ros2_actions/include/orocos/rtt_ros2_actions/simple_action_server.hpp:353-466 | over every run: at most one result per goal, sent exactly for the terminal goals and equal to their state; CANCELED only after a CANCELING transition; at most three transitions per goal |
| `ActionTheorems.EveryGoalIsAccepted` | rtt_ros2_actions/include/orocos/rtt_ros2_actions/simple_action_server.hpp:468-472 | over every run: as many goals are accepted as were delivered, none is rejected, and all of them have been offered when the queue is empty |
| `ActionTheorems.GoalHookForEachGoal` | rtt_ros2_actions/include/orocos/rtt_ros2_actions/simple_action_server.hpp:487-505 | the goals are offered one by one in the order of delivery; each is in the pending slot when its goal hook runs; only the replaced goal is operated on, and the return of the hook frees the owner and changes nothing else |
| `ActionTheorems.CancelRequestIff` | rtt_ros2_actions/include/orocos/rtt_ros2_actions/simple_action_server.hpp:475-485 | a cancel request is accepted if and only if the active or the pending slot holds the goal; then exactly one handler message is appended, the transition is due, and nothing else changes; otherwise nothing changes |
| `ActionTheorems.CancelRequestTakesEffect` | rtt_ros2_actions/include/orocos/rtt_ros2_actions/simple_action_server.hpp:475-534 | a cancel request for the active or the pending goal always takes effect: in every continuation that drains the queue the goal ends in no slot, and without shutdown it is terminal or CANCELING |
| `ActionTheorems.TerminalForever` | rtt_ros2_actions/include/orocos/rtt_ros2_actions/simple_action_server.hpp:420-466 | no event and no interleaving moves a goal out of a terminal state |
| `ActionTheorems.CancelHandlerOfActiveGoal` | rtt_ros2_actions/include/orocos/rtt_ros2_actions/simple_action_server.hpp:508-534 | whatever the cancel hook, other threads and the executor do meanwhile: on return the goal is in neither slot and terminal; CANCELING on entry means CANCELED unless somebody succeeded it; its hook ran once |
| `ActionTheorems.CancelHandlerOfOtherGoal` | rtt_ros2_actions/include/orocos/rtt_ros2_actions/simple_action_server.hpp:514-524 | a pending goal leaves its slot at once with exactly the outcome of terminateGoal and the result of that outcome, so CANCELED if it was CANCELING; for a goal in no slot nothing changes but the queue; no hook runs |
| `ActionTheorems.CancelHookOncePerGoal` | rtt_ros2_actions/include/orocos/rtt_ros2_actions/simple_action_server.hpp:508-528 | over every run the cancel hook runs at most once for each goal and only for goals that were active |
| `ActionTheorems.FinishActiveAtomically` | rtt_ros2_actions/include/orocos/rtt_ros2_actions/simple_action_server.hpp:420-448 | abortActive and cancelActive alike: CANCELED exactly from CANCELING, ABORTED exactly from EXECUTING, and no other goal changes |
| `ActionTheorems.CanceledIffCancelingInTime` | rtt_ros2_actions/include/orocos/rtt_ros2_actions/simple_action_server.hpp:475-534 | for every hook, every interleaving and every schedule: a goal ended while the hook runs keeps that result; any other active goal whose cancel was accepted ends CANCELED if and only if its CANCELING transition has happened by the return of the hook or slips in at one of the two looks of finishActive(), and ABORTED if and only if it does not |
| `ActionExamples.CanceledGoalAborted` | rtt_ros2_actions/include/orocos/rtt_ros2_actions/simple_action_server.hpp:479-485 | a concrete run in which the handler overtakes the CANCELING transition and a canceled goal gets ABORTED |
| `ActionTheorems.ReplacedGoalGetsResult` | rtt_ros2_actions/include/orocos/rtt_ros2_actions/simple_action_server.hpp:451-501 | for every schedule: a goal replaced in the pending slot gets a result from the server if and only if it is not CANCELING, does not become so while the server looks at it, and does not slip between the last look and execute(); otherwise it is CANCELING in no slot |
| `ActionExamples.ReplacedGoalLeft` | rtt_ros2_actions/include/orocos/rtt_ros2_actions/simple_action_server.hpp:493-524 | a concrete run with a pending goal CANCELING when replaced: at its end the server has nothing left to do, the goal has no result from it, and nobody holds its handle |
| `ActionTheorems.AcceptDropsGoalIff` | rtt_ros2_actions/include/orocos/rtt_ros2_actions/simple_action_server.hpp:274-293 | for every schedule: acceptPending() drops the pending goal, CANCELING and without a result from the server, if and only if its transition comes after the goal was seen pending and before execute(), counting the accesses made to finish the active goal |
| `ActionExamples.AcceptedGoalLeft` | rtt_ros2_actions/include/orocos/rtt_ros2_actions/simple_action_server.hpp:277-288 | a concrete run in which execute() in acceptPending() throws, with the same end |
| `ActionExamples.RejectedGoalLeft` | rtt_ros2_actions/include/orocos/rtt_ros2_actions/simple_action_server.hpp:451-466 | a concrete run in which execute() in terminateGoal() throws and rejectPending() returns true, with the same end |
| `ActionTheorems.LeftToTheLibrary` | rtt_ros2_actions/include/orocos/rtt_ros2_actions/simple_action_server.hpp:475-534 | a goal CANCELING in no slot gets no result from the server: in every later run it has a result if and only if the library has ended it on release |
| `ActionTheorems.EveryGoalEnds` | rtt_ros2_actions/include/orocos/rtt_ros2_actions/simple_action_server.hpp:210-217 | over every run, with shutdowns: when no message, hook or transition is under way and the library has ended the goals nobody holds, every goal is in a slot or has its one result |
| `ActionTheorems.ShutdownLeavesGoalsToTheLibrary` | rtt_ros2_actions/include/orocos/rtt_ros2_actions/simple_action_server.hpp:210-217 | after shutdown neither goal is in a slot, and the library can end a goal if and only if no message, hook or transition under way holds it |
| `ActionTheorems.ReleasedGoalEnds` | rtt_ros2_actions/include/orocos/rtt_ros2_actions/simple_action_server.hpp:210-210 | ending a goal nobody holds gives it exactly one result, changes no other goal and nothing in the server, and keeps the invariant |
| `ActionTheorems.DeliveriesAlone` | rtt_ros2_actions/include/orocos/rtt_ros2_actions/simple_action_server.hpp:488-505 | with no call and no cancel, n offered goals leave the first n - 1 ABORTED and the last one pending, with exactly n - 1 results |
| `ActionInvariants.KeepsInv` | rtt_ros2_actions/include/orocos/rtt_ros2_actions/simple_action_server.hpp:274-534 | the inductive invariant behind all of these: every event, with any schedule, keeps it; every event but shutdown also keeps that no goal is stranded |
| `ActionRaces.HandleReturnedIff` | rtt_ros2_actions/include/orocos/rtt_ros2_actions/simple_action_server.hpp:397-405 | the pending goal is returned if and only if it is not CANCELING and does not slip at one of the three looks |
| `ActionRaces.TerminatedAs` | rtt_ros2_actions/include/orocos/rtt_ros2_actions/simple_action_server.hpp:451-466 | the exact final state: CANCELED if and only if it was CANCELING or slips before the look for CANCELING, left CANCELING if and only if it slips after that look and before execute(), ABORTED otherwise |
| `ActionRaces.RejectedAs` | rtt_ros2_actions/include/orocos/rtt_ros2_actions/simple_action_server.hpp:306-317 | the exact returned value and final state of the pending goal |
| `ActionRaces.ReplacedAs` | rtt_ros2_actions/include/orocos/rtt_ros2_actions/simple_action_server.hpp:488-499 | the exact final state of the goal acceptedCallback replaces |
| `ActionRaces.FinishedAs` | rtt_ros2_actions/include/orocos/rtt_ros2_actions/simple_action_server.hpp:420-448 | the exact final state of the active goal: CANCELED if and only if it is CANCELING or slips at one of two accesses, ABORTED otherwise |
| `ActionRaces.AcceptedIff` | rtt_ros2_actions/include/orocos/rtt_ros2_actions/simple_action_server.hpp:274-293 | the exact conditions for acceptPending() to succeed, to drop the pending goal, and to leave it in its slot |
| `ActionRaces.AcceptFinishesIff` | rtt_ros2_actions/include/orocos/rtt_ros2_actions/simple_action_server.hpp:277-281 | the active goal is finished if and only if the pending goal was seen pending, and CANCELED if and only if it was CANCELING or slipped in time |
| `ActionEffects.PendingHandleEffect` | rtt_ros2_actions/include/orocos/rtt_ros2_actions/simple_action_server.hpp:397-405 | a handle is returned exactly for a goal still ACCEPTED at the last look; otherwise the pending goal is CANCELING |
| `ActionEffects.SucceedEffect` | rtt_ros2_actions/include/orocos/rtt_ros2_actions/simple_action_server.hpp:353-369 | never fails on a live goal: SUCCEEDED, one result, slot empty, everything else at most slipped to CANCELING |
| `ActionEffects.AcceptEffect` | rtt_ros2_actions/include/orocos/rtt_ros2_actions/simple_action_server.hpp:274-293 | true means the pending goal is active and EXECUTING; false means no goal became active, the pending goal is CANCELING, and stays in its slot if and only if it was so, or became so, before being seen pending; the previous active goal is untouched or has its result; every other goal at most slips |
| `GoalStates.OneResultPerGoal` | rtt_ros2_actions/include/orocos/rtt_ros2_actions/simple_action_server.hpp:420-466 | for any history of handle transitions, invalid ones throwing: one result per goal, sent exactly for terminal goals, equal to their state |
| `GoalStates.CanceledWasCanceling` | rtt_ros2_actions/include/orocos/rtt_ros2_actions/simple_action_server.hpp:57-61 | a goal is CANCELED only if a CANCELING transition happened to it |
| `GoalStates.TransitionBound` | rtt_ros2_actions/include/orocos/rtt_ros2_actions/simple_action_server.hpp:420-466 | the rank sum of the goals bounds all handle transitions by three per goal |
| `Ros1Refinement.QueriesReadRos1State` | rtt_ros2_actions/include/orocos/rtt_ros2_actions/simple_action_server.hpp:219-262 | isActive, isPreempting, isPending, getActiveGoal, getPendingGoal read off the ROS 1 state exactly; when transitions slip in meanwhile, the state at their return, which the client reaches by canceling just the goals that slipped |
| `Ros1Atomic.AtomicAccept` | rtt_ros2_actions/include/orocos/rtt_ros2_actions/simple_action_server.hpp:264-293 | taken atomically acceptPending is the ROS 1 moves "finish current, promote pending", and succeeds if and only if isPending() |
| `Ros1Atomic.AtomicEventsAreRos1Moves` | rtt_ros2_actions/README.md:37-45 | each method, callback and message taken atomically makes exactly the one sequence of ROS 1 moves computed from the ROS 1 state, which is among the documented ones |
| `Ros1Refinement.EventsAreRos1Paths` | rtt_ros2_actions/README.md:37-45 | with any transitions slipping in, each event leads to the new ROS 1 state by a path on which the server makes only moves documented for that event and returned value (new goals only from acceptedCallback and in order, clearing only by shutdown, a result for a goal in no slot only when the library ends a released goal without result) and the client cancels only goals whose transitions happened during the event |
| `Ros1Refinement.RunsAreRos1Runs` | rtt_ros2_actions/include/orocos/rtt_ros2_actions/simple_action_server.hpp:40-55 | every run of the server is the concatenation of such paths, one for each event: the same goals in the slots and the same results in the same order as a run of the ROS 1 server |
| `SimpleActionServer.GoalHandle.Fire` | rtt_ros2_actions/include/orocos/rtt_ros2_actions/simple_action_server.hpp:451-466 | a handle makes a valid transition or throws and stays unchanged |
| `SimpleActionServer.Library.Slip` | rtt_ros2_actions/include/orocos/rtt_ros2_actions/simple_action_server.hpp:479-482 | due CANCELING transitions happen on the shared handles, outside the mutex |
| `SimpleActionServer.Server.PendingGoalHandle` | rtt_ros2_actions/include/orocos/rtt_ros2_actions/simple_action_server.hpp:397-405 | refines the specification with any transitions slipping in between its three looks at the handle |
| `SimpleActionServer.Server.TerminateGoal` | rtt_ros2_actions/include/orocos/rtt_ros2_actions/simple_action_server.hpp:451-466 | refines the specification, exceptions included |
| `SimpleActionServer.Server.FinishActive` | rtt_ros2_actions/include/orocos/rtt_ros2_actions/simple_action_server.hpp:420-448 | refines the specification; prefer_canceled has no effect on the goal |
| `SimpleActionServer.Server.AcceptPending` | rtt_ros2_actions/include/orocos/rtt_ros2_actions/simple_action_server.hpp:274-293 | new slots, handles and returned value are those of the specification, for every schedule |
| `SimpleActionServer.Server.RejectPending` | rtt_ros2_actions/include/orocos/rtt_ros2_actions/simple_action_server.hpp:306-317 | as above, for rejectPending |
| `SimpleActionServer.Server.AbortActive` | rtt_ros2_actions/include/orocos/rtt_ros2_actions/simple_action_server.hpp:331-336 | as above, for abortActive |
| `SimpleActionServer.Server.CancelActive` | rtt_ros2_actions/include/orocos/rtt_ros2_actions/simple_action_server.hpp:345-350 | as above, for cancelActive; the same function as abortActive |
| `SimpleActionServer.Server.SucceedActive` | rtt_ros2_actions/include/orocos/rtt_ros2_actions/simple_action_server.hpp:353-369 | as above, for succeedActive |
| `SimpleActionServer.Server.Shutdown` | rtt_ros2_actions/include/orocos/rtt_ros2_actions/simple_action_server.hpp:211-217 | both slots are reset and nothing else changes; ending the goals is left to the library |
| `SimpleActionServer.Server.ReleaseHandle` | rtt_ros2_actions/include/orocos/rtt_ros2_actions/simple_action_server.hpp:210-217 | the library ends a goal exactly if it has no result and neither slot, message, hook nor due transition holds its handle |
| `SimpleActionServer.Server.IsActive` | rtt_ros2_actions/include/orocos/rtt_ros2_actions/simple_action_server.hpp:220-224 | true exactly if the active slot holds an EXECUTING goal |
| `SimpleActionServer.Server.IsPreempting` | rtt_ros2_actions/include/orocos/rtt_ros2_actions/simple_action_server.hpp:227-231 | true exactly if the active slot holds a CANCELING goal |
| `SimpleActionServer.Server.IsPending` | rtt_ros2_actions/include/orocos/rtt_ros2_actions/simple_action_server.hpp:240-244 | true exactly if a deferred goal is pending at the last look |
| `SimpleActionServer.Server.GetActiveGoal` | rtt_ros2_actions/include/orocos/rtt_ros2_actions/simple_action_server.hpp:247-254 | the active goal if it is seen EXECUTING or CANCELING |
| `SimpleActionServer.Server.GetPendingGoal` | rtt_ros2_actions/include/orocos/rtt_ros2_actions/simple_action_server.hpp:257-262 | the pending goal if it is still deferred |
| `SimpleActionServer.Server.CancelCallback` | rtt_ros2_actions/include/orocos/rtt_ros2_actions/simple_action_server.hpp:475-485 | accepts a goal if and only if it is in the active or the pending slot; then appends one handler message and leaves the CANCELING transition due; otherwise changes nothing; stated of the slots, the queue and the due transitions themselves |
| `SimpleActionServer.Server.AcceptedCallback` | rtt_ros2_actions/include/orocos/rtt_ros2_actions/simple_action_server.hpp:488-505 | the locked part of acceptedCallback, up to the goal hook |
| `SimpleActionServer.Server.BeginCancelHandler` | rtt_ros2_actions/include/orocos/rtt_ros2_actions/simple_action_server.hpp:508-525 | the locked part of cancelHandler before the hook; the hook is called exactly for the active goal |
| `SimpleActionServer.Server.EndCancelHandler` | rtt_ros2_actions/include/orocos/rtt_ros2_actions/simple_action_server.hpp:526-534 | the locked part of cancelHandler after the hook |
| `SimpleActionServer.Server.PerformAll` | rtt_ros2_actions/include/orocos/rtt_ros2_actions/simple_action_server.hpp:66-552 | any finite run of the class is the same run of the state machine, so that all theorems about runs hold of it |
| `SimpleActionServer.Server.HandleCancel` | rtt_ros2_actions/include/orocos/rtt_ros2_actions/simple_action_server.hpp:508-534 | cancelHandler as a whole with an arbitrary hook: on return the goal is in neither slot, and an active one has its result |
| `DependencyGraph.TerminatesIffNoCycle` | rtt_ros2/src/rtt_ros2.cpp:101-138 | the worklist loop, which has no visited set, ends if and only if no dependency cycle can be reached |
| `DependencyGraph.CyclicImportDoesNotEnd` | rtt_ros2/src/rtt_ros2.cpp:101-138 | a concrete package index, with a package that depends on itself, whose worklist is never empty |
| `DependencyGraph.IterationDropsWeight` | rtt_ros2/src/rtt_ros2.cpp:101-138 | each iteration lowers the number of dependency paths left in the queue by exactly one |
| `DependencyGraph.WeightIterationsSuffice` | rtt_ros2/src/rtt_ros2.cpp:101-220 | the loop ends after exactly as many iterations as the queue has dependency paths |
| `DependencyGraph.EmptiedQueueIsBounded` | rtt_ros2/src/rtt_ros2.cpp:101-138 | if the loop ends after k iterations no dependency path is longer than k |
| `DependencyGraph.NoCycleIsBounded` | rtt_ros2/src/rtt_ros2.cpp:101-138 | without a cycle no dependency path visits more packages than there are |
| `DependencyGraph.BoundedHasNoCycle` | rtt_ros2/src/rtt_ros2.cpp:101-138 | bounded dependency paths exclude cycles |
| `PluginImport.Collect` | rtt_ros2/src/rtt_ros2.cpp:90-220 | the list has exactly one entry for each dependency path to a found package, in breadth-first order: shorter paths first, then by dependency index; missing is exactly the reachable packages not found; the number of iterations is the number of dependency paths; found dependencies appear again behind each entry |
| `PluginImport.CollectedIsUnique` | rtt_ros2/src/rtt_ros2.cpp:98-138 | there is only one such list, so that the packages, their order and with them the search paths are determined |
| `PluginImport.CollectedAreReachable` | rtt_ros2/src/rtt_ros2.cpp:98-138 | the list contains exactly the found packages reachable through found packages |
| `PluginImport.ReverseIsTopological` | rtt_ros2/src/rtt_ros2.cpp:238-245 | although the list holds duplicates, the reverse pass visits each dependency before it visits the dependent package for the first time |
| `SearchPath.BuildPathList` | rtt_ros2/src/rtt_ros2.cpp:224-232 | the directories of the path list are those of the search paths, each kept at its last occurrence, followed by those of the component path; if and only if no search path contains a colon, each search path is one directory of it |
| `SearchPath.KeepLastOrders` | rtt_ros2/src/rtt_ros2.cpp:226-232 | these are exactly the search paths, each once, ordered by last occurrence |
| `SearchPath.PrependIsSplitAll` | rtt_ros2/src/rtt_ros2.cpp:227-231 | for all search paths and component paths, with or without colons: the directories of the path list, in order |
| `SearchPath.PathListIsSplit` | rtt_ros2/src/rtt_ros2.cpp:226-232 | the condition on colons, both directions |
| `SearchPath.SplitIsExact` | rtt_ros2/src/rtt_ros2.cpp:230-230 | splitting a path list at its colons loses nothing: parts without colons which joined by colons are the list again |
| `PluginImport.ImportAll` | rtt_ros2/src/rtt_ros2.cpp:238-260 | one look at each entry, from the last to the first; an entry causes exactly one attempt if and only if its package is not rtt_ros2 and not imported at that moment, also after a failed attempt; dependencies are settled before each attempt; missing grows by exactly the failed packages |
| `PluginImport.EachEntryOnce` | rtt_ros2/src/rtt_ros2.cpp:240-258 | the reverse pass entry by entry: which package, with what imported before and after, and whether it is attempted |
| `PluginImport.ImportedAtMostOnce` | rtt_ros2/src/rtt_ros2.cpp:240-258 | whatever earlier imports did with the loader, the calls of one more import keep that no package is tried again after it was imported successfully |
| `PluginImport.Import` | rtt_ros2/src/rtt_ros2.cpp:82-276 | returns true if and only if no reachable package is missing and every attempt succeeded; then every reachable package is imported; the list is the breadth-first one, the attempts are those of its reverse pass, all with its path list; over any number of imports with one loader no package is tried again after a successful import |
| `PublisherProtocol.NoLostWakeUp` | rtt_ros2_topics/include/orocos/rtt_ros2_topics/waitable.hpp:71-128 | before cancel, in every interleaving, an unread sample implies that a writer is about to set the flag, or execute is before its last empty read or about to set it again, or the flag is set and a wake-up is on its way |
| `PublisherProtocol.PublishedInOrder` | rtt_ros2_topics/include/orocos/rtt_ros2_topics/ros_publisher.hpp:122-158 | at every moment the samples stored are exactly published, then in hand, then buffered, in order, on the plain and the loaned path |
| `PublisherProtocol.NothingPublishedAfterCancel` | rtt_ros2_topics/include/orocos/rtt_ros2_topics/waitable.hpp:83-91 | after cancel no run of steps publishes anything |
| `PublisherProtocol.InternalRunsAreBounded` | rtt_ros2_topics/include/orocos/rtt_ros2_topics/ros_publisher.hpp:122-158 | without new samples the number of steps is bounded by a measure of the state plus seven per failed loan |
| `PublisherProtocol.SomeInternalStep` | rtt_ros2_topics/include/orocos/rtt_ros2_topics/waitable.hpp:71-128 | no deadlock: unless everything is at rest some thread can take a step |
| `PublisherProtocol.QuiescentMeansAllPublished` | rtt_ros2_topics/include/orocos/rtt_ros2_topics/waitable.hpp:71-128 | when no thread can take a step every stored sample has been published, in order |
| `PublisherProtocol.StepKeepsInv` | rtt_ros2_topics/include/orocos/rtt_ros2_topics/waitable.hpp:71-128 | every step keeps conservation and the wake-up invariant |
| `FlagAndGuard.FlagAndGuardIff` | rtt_ros2_topics/include/orocos/rtt_ros2_topics/waitable.hpp:71-81 | over every run: the flag is set if and only if somebody set it since execute() cleared it last, and the guard condition is triggered if and only if somebody triggered it since it last woke a thread |
| `FlagAndGuard.NoFlagNoExecution` | rtt_ros2_topics/include/orocos/rtt_ros2_topics/waitable.hpp:104-107 | while the flag is not set again, threads that wake up execute nothing and publish nothing |
| `DrainingFirst.DrainingFirstLosesWakeUp` | rtt_ros2_topics/include/orocos/rtt_ros2_topics/waitable.hpp:124-127 | clearing the flag before draining is needed: with the order swapped a run from the start reaches a state with all threads at rest and a sample unread |
| `RosPublisher.Element.Signal` | rtt_ros2_topics/include/orocos/rtt_ros2_topics/ros_publisher.hpp:106-110 | sets the flag, and then the guard condition is triggered, whatever other threads do in between |
| `RosPublisher.Element.Read` | rtt_ros2_topics/include/orocos/rtt_ros2_topics/ros_publisher.hpp:135-138 | takes the oldest sample, or reports no new data exactly if the channel is empty |
| `RosPublisher.Element.PublishImpl` | rtt_ros2_topics/include/orocos/rtt_ros2_topics/ros_publisher.hpp:122-141 | returns only at an empty channel, having performed a run of the protocol |
| `RosPublisher.Element.PublishImplLoanedMessage` | rtt_ros2_topics/include/orocos/rtt_ros2_topics/ros_publisher.hpp:143-158 | returns true at an empty channel and false as soon as a loan fails; then the failed loan is the last step and every sample stored is published or still in the channel |
| `RosPublisher.Element.Publish` | rtt_ros2_topics/include/orocos/rtt_ros2_topics/ros_publisher.hpp:112-119 | borrows messages if and only if they can be loaned, and otherwise always ends at an empty channel |
| `RosPublisher.Element.Execute` | rtt_ros2_topics/include/orocos/rtt_ros2_topics/waitable.hpp:119-128 | canceled: publishes nothing; otherwise clears the flag, and then: done, everything stored is published, or not done, flag and guard condition are set again |
| `RosPublisher.Element.Cancel` | rtt_ros2_topics/include/orocos/rtt_ros2_topics/ros_publisher.hpp:74-78 | removes the function under the mutex, so that NothingPublishedAfterCancel applies |
| `GetterSetter.FreshIsCoherent` | rtt_ros2/include/orocos/rtt_ros2/getter_setter_datasource.hpp:75-79 | reading a chain of any depth makes every copy agree with its object, and the last one is the composed read |
| `GetterSetter.CoherentIsFresh` | rtt_ros2/include/orocos/rtt_ros2/getter_setter_datasource.hpp:120-125 | copies that agree with their objects are what reading anew would give |
| `GetterSetter.WriteMakesCoherent` | rtt_ros2/include/orocos/rtt_ros2/getter_setter_datasource.hpp:105-136 | after a write every copy agrees with its object, whatever the copies were before |
| `GetterSetter.ReadBack` | rtt_ros2/include/orocos/rtt_ros2/getter_setter_datasource.hpp:105-136 | a read after a write finds the value written and changes no copy |
| `GetterSetter.ComposedLensIsLawful` | rtt_ros2/include/orocos/rtt_ros2/getter_setter_datasource.hpp:105-136 | reading and writing the root through a chain of lawful fields is a lawful field again |
| `GetterSetter.WriteReachesRootIff` | rtt_ros2/include/orocos/rtt_ros2/getter_setter_datasource.hpp:132-136 | a write changes the root in the named field and nowhere else if and only if no copy in between is stale outside the fields of the chain; a coherent chain meets this |
| `GetterSetter.StaleCopyOverwrites` | rtt_ros2/include/orocos/rtt_ros2/getter_setter_datasource.hpp:132-136 | a concrete lost update through a stale copy |
| `DataSources.DataSource.Field` | rtt_ros2/include/orocos/rtt_ros2/getter_setter_datasource.hpp:58-67 | a new source on top of any valid chain is a valid chain |
| `DataSources.DataSource.Get` | rtt_ros2/include/orocos/rtt_ros2/getter_setter_datasource.hpp:75-79 | every copy of the chain becomes what reading the root anew gives |
| `DataSources.DataSource.Evaluate` | rtt_ros2/include/orocos/rtt_ros2/getter_setter_datasource.hpp:120-125 | the same as get, through the cached values of the parents; false and no copy changed if the root cannot be evaluated |
| `DataSources.DataSource.Updated` | rtt_ros2/include/orocos/rtt_ros2/getter_setter_datasource.hpp:132-136 | writes the copy through all parents |
| `DataSources.DataSource.Set` | rtt_ros2/include/orocos/rtt_ros2/getter_setter_datasource.hpp:105-109 | the chain becomes what the specification of a write says, the own copy the new value |
| `IntegerConversions.AutomaticIffIncluded` | typekits/rtt_ros2_primitives_typekit/src/typekit/ros2_primitives_typekit.cpp:180-250 | for all pairs of the eight types: one conversion is registered, and it is automatic if and only if every value of the source type is a value of the target type |
| `IntegerConversions.LiteralRanges` | typekits/rtt_ros2_primitives_typekit/src/typekit/ros2_primitives_typekit.cpp:118-139 | the smallest and the largest value of each of the eight types, in decimal |
| `IntegerConversions.Ranges` | typekits/rtt_ros2_primitives_typekit/src/typekit/ros2_primitives_typekit.cpp:118-139 | a type of n bits has two to the n values, from zero or, if signed, from minus one more than its largest value |
| `IntegerConversions.CastHolds` | typekits/rtt_ros2_primitives_typekit/src/typekit/ros2_primitives_typekit.cpp:86-87 | a cast yields a value of the target type and leaves values of that type alone |
| `IntegerConversions.CastIff` | typekits/rtt_ros2_primitives_typekit/src/typekit/ros2_primitives_typekit.cpp:86-87 | the cast is the one value of the target type that is congruent to the operand modulo two to the width, both directions |
| `IntegerConversions.AutomaticChainPreserves` | typekits/rtt_ros2_primitives_typekit/src/typekit/ros2_primitives_typekit.cpp:180-250 | a chain of automatic conversions of any length preserves the value, so any two chains agree |
| `IntegerConversions.BackAndForthIffWideEnough` | typekits/rtt_ros2_primitives_typekit/src/typekit/ros2_primitives_typekit.cpp:86-87 | converting and explicitly converting back is the identity on all values if and only if the target is at least as wide |
| `CamelCase.Convert` | rtt_ros2_topics/include/orocos/rtt_ros2_topics/utilities.hpp:30-46 | the in-place loop ends although the string grows; the length and every character of the result are given: each character of the input in lower case at its place, an underscore right before each capital but the first character |
| `CamelCase.EveryCharacter` | rtt_ros2_topics/include/orocos/rtt_ros2_topics/utilities.hpp:32-46 | where each character and each underscore of the topic name stands, which with the length determines it |
| `CamelCase.CapitalsAreAlphabet` | rtt_ros2_topics/include/orocos/rtt_ros2_topics/utilities.hpp:34-34 | the capitals are the 26 letters |
| `CamelCase.LowerIsAlphabet` | rtt_ros2_topics/include/orocos/rtt_ros2_topics/utilities.hpp:40-44 | each capital becomes the small letter of the same place in the alphabet, and no other character changes |
| `CamelCase.UnderscoredLength` | rtt_ros2_topics/include/orocos/rtt_ros2_topics/utilities.hpp:32-38 | the string grows by one for each capital after the first character |
| `CamelCase.OnlyUnderscoresInserted` | rtt_ros2_topics/include/orocos/rtt_ros2_topics/utilities.hpp:32-46 | up to underscores the result is the lower-cased input |
| `CamelCase.NothingToInsert` | rtt_ros2_topics/include/orocos/rtt_ros2_topics/utilities.hpp:32-38 | a string without capitals is left alone |
| `CamelCase.TopicNameProperties` | rtt_ros2_topics/include/orocos/rtt_ros2_topics/utilities.hpp:30-46 | length, no capitals, idempotence, and equality with the lower-cased input up to underscores, for every string |
| `JacobianProperties.PositionInBounds` | typekits/kdl_typekit/src/kinfamproperties.cpp:197-199 | the row-major index lies in the bag |
| `JacobianProperties.PositionsCoverBag` | typekits/kdl_typekit/src/kinfamproperties.cpp:197-199 | every index of the bag belongs to exactly one element |
| `JacobianProperties.PositionIsProduct` | typekits/kdl_typekit/src/kinfamproperties.cpp:199-199 | the running index of the nested loops is (size / 6) * i + j |
| `JacobianProperties.Decompose` | typekits/kdl_typekit/src/kinfamproperties.cpp:180-190 | appends exactly the elements, row by row, to whatever the bag held |
| `JacobianProperties.Compose` | typekits/kdl_typekit/src/kinfamproperties.cpp:192-212 | succeeds if and only if the type is right and every element item is ready; then each element is the item at its index; otherwise the Jacobian is unchanged |
| `JacobianProperties.DecomposeThenCompose` | typekits/kdl_typekit/src/kinfamproperties.cpp:180-212 | composing the bag decomposed from any 6 x n matrix gives the matrix back |

## Left out

- Goal, feedback and result payloads, `publishFeedback`, message arguments, log output, the setters, `start()` and names of the action server.
- SimpleActionServer.Server.Shutdown: only resets both slots, as in the code; that a goal is aborted then, as the comment at simple_action_server.hpp:210 says, is up to the library (`ShutdownLeavesGoalsToTheLibrary`, `ReleasedGoalEnds`, `EveryGoalEnds`). The claims that every EXECUTING goal is active and that no goal is stranded are for runs without shutdown. Whether a result still reaches the client after the ROS server is gone is not part of the model.
- Dispatch in `RTTActionServer`: `SimpleActionServer` registers all three operations in its constructor, so `handleGoal`, `handleCancel` and `handleAccepted` are the events Deliver and RequestCancel; reconnecting, and servers with missing operations, are not part of the model.
- The ament index, package.xml, XML, splitting of the `;` list and the file system behind `import`: a fixed map from package to search path and dependencies. Uncaught exceptions of these libraries are not part of the model.
- PluginImport.Collect: requires that no cycle is reachable, because the source loop does not end otherwise.
- Guard-condition errors, wait-set details and callbacks of `Waitable`; `remove_waitable` in the destructor; direct `write()` of a channel element; exceptions of `publish()` and of the function, which would lose the sample in hand and leave the flag cleared; returning an unused loaned message. A guard condition may be lost in no other way than by waking a thread; wake-ups for other reasons are steps.
- The mutex of `Waitable` counts as released at the last empty read of `execute()`, which allows more interleavings than the code.
- RosPublisher.Element.Execute: other threads act at finitely many points given by a script, because with writers that never stop the source loop need not end; `InternalRunsAreBounded` covers the end of the loop once they stop.
- GetterSetterDataSource: `clone`, `copy` and `narrow`; objects and fields of a chain share one value type with predicates for the values of each level.
- Conversions to and from floating point and strings, sequences, and the registered type names; the cast of an out-of-range value to a signed type is taken modulo the width, as C++20 defines it and earlier standards leave to the compiler.
- CamelCase.Convert: characters of the "C" locale only; `find_topic` is not part of the model.
- Names and descriptions of the properties of a Jacobian, items of a type other than double, the other KDL types (the bag reused for a Chain has library semantics), and motion properties with their trigonometry.
- RosIntrospectionTypeInfo, parameters, services, node wrappers, generated typekits, transports over CORBA and mqueue, and the build system.
