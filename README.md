# AppInit launch sequencer in Dafny

This project models the launch-step sequencer of the AppInit demo. The
launch screen holds one progress cell (`AppInitializeAction`: the logo
`Idle`, a spinner `ShowLoader`, or a routed screen `Set(route)`). It wraps a
fixed list of four launch steps in a one-shot async iterator, and drives
that iterator with a `for try await` loop:

- Each step runs its `action()` only when its `shouldStart` flag is set.
- The two setup steps write `ShowLoader`, wait, then write `Idle`.
- The finish step writes `Set(Finished)`, waits, then writes `Idle`.
- The onboarding step routes to the call-to-action and stays suspended until
  the call-to-action's button resumes it.
- When the loop ends, the screen calls its done callback.
- When a step throws, the catch around the task routes to the error screen.

The project has five modules:

- `LaunchState` (`launch_state.dfy`): the route and progress-value types,
  the bounds-checked subscript, and the progress cell. The cell is a class
  whose ghost `history` records every value it has held.
- `Steps` (`steps.dfy`): the step values, the configuration flags and the
  configured step list. `ActionRun` and `StartRun` specify what each
  action and the guarded `start()` write and how they end. The imperative
  actions and `Start` are proved against those functions.
- `Sequence` (`sequence.dfy`): the iterator as a class with its stored
  `index`. `Next` is the `next()` call with its deferred increment.
  `Resume` is the call-to-action's continuation being resumed.
- `Pipeline` (`pipeline.dfy`): the launch as values over the sequence of
  step runs, with one `StepRun` per configured step. `TaskWrites` and
  `TaskHalt` give what one activation of the task writes and where it
  stops. `LaunchWrites` and `LaunchHalt` give the whole launch once every
  call-to-action is acknowledged. This module holds the properties of the
  launch: fail-fast, error route, done callback, order and eligibility,
  and the shipped trace.
- `Launch` (`launch_screen.dfy`): the launch screen as a class. `Task` is
  the `.task` block. `Drive` is `startInits()` with its loop, and `Turn`
  is one iteration of that loop. `Resume` is the call-to-action's button.
  Its invariant `Valid` ties the cell's history and the done-callback
  count to the `Pipeline` functions.

How each step's timed wait ends is an input: `delays(j)` is `Elapsed` when
step `j`'s sleep completes, and `Cancelled` when that sleep throws.

## Model

| member | source | states |
|---|---|---|
| LaunchState.SafeIndex | AppInit/ContentView.swift:273-277 | an element is returned exactly when the index is valid, and it is the element at that index; otherwise nothing is returned and nothing traps |
| LaunchState.ActionBinding.constructor | AppInit/ContentView.swift:43 | the cell holds the given initial value, which is its whole history; the screen creates it with `Idle` |
| LaunchState.ActionBinding.Write | AppInit/ContentView.swift:100-107 | a write through the binding replaces the cell's value outright and appends it to the history |
| Steps.SharedDependency | AppInit/ContentView.swift:11-17 | definition, no contract: the shipped flags, all on |
| Steps.AppInitializableSteps | AppInit/ContentView.swift:46-51 | definition, no contract: the configured steps in order (setup one, finish, onboarding, setup two), each with its flag; `ShippedLaunchTrace` states what it runs |
| Steps.DelayedRun | AppInit/ContentView.swift:279-290 | definition, no contract: a timed action writes its first value, and writes `Idle` and succeeds only when the sleep completes; when the sleep throws the delayed operation never runs and the action throws |
| Steps.ActionRun | AppInit/ContentView.swift:95-175 | every action writes at least once; only the onboarding action suspends; an action throws exactly when it is a timed one and its sleep throws; a completed action leaves the cell `Idle`; no action writes the error or force-update route |
| Steps.StartRun | AppInit/ContentView.swift:238-245 | `start()` writes nothing exactly when the step should not start, and then it succeeds |
| Steps.SetupAsyncAction | AppInit/ContentView.swift:106-112 | the setup actions write `ShowLoader`; after a completed wait they write `Idle` and succeed; after a thrown sleep they stop and throw |
| Steps.DidFinishAction | AppInit/ContentView.swift:168-174 | the finish action writes `Set(Finished)`; after a completed wait it writes `Idle` and succeeds; otherwise it throws |
| Steps.ShowOnboardingAction | AppInit/ContentView.swift:147-154 | the onboarding action writes the call-to-action route and is left suspended on its continuation |
| Steps.Start | AppInit/ContentView.swift:238-245 | a step that should not start leaves the cell untouched and succeeds; one that should start makes exactly its action's writes and ends as its action does |
| Sequence.AppInitSequence.constructor | AppInit/ContentView.swift:254-258 | a fresh iterator is at index 0 with no call in flight |
| Sequence.AppInitSequence.Next | AppInit/ContentView.swift:260-264 | past the end, `next()` returns nil without writing; otherwise it makes the current step's `start()` writes and yields, throws or waits as `start()` ends; the index grows by exactly one on every call that returns, whether with nil, an element or a throw, and stays put while the call waits |
| Sequence.AppInitSequence.Resume | AppInit/ContentView.swift:148-151 | resuming the parked call completes it, and the deferred increment moves the index past the onboarding step |
| Pipeline.Plan | AppInit/ContentView.swift:82-84 | there is one run per configured step, and run `j` is step `j`'s guarded `start()` under its wait's outcome |
| Pipeline.TaskHalt | AppInit/ContentView.swift:85 | when the task stops early, it stops at a step between its starting step and the end of the list |
| Pipeline.TaskWrites | AppInit/ContentView.swift:71-85 | definition, no contract: what one activation of the loop writes from a step: each run's writes while runs succeed, then the failing run's writes and the catch's error route, or the parked run's writes |
| Pipeline.LaunchWrites | AppInit/ContentView.swift:71-85 | definition, no contract: the same for the whole launch, continuing past every acknowledged call-to-action |
| Pipeline.LaunchStarted | AppInit/ContentView.swift:85 | definition, no contract: the indices of the steps whose action the launch invokes; tied to `LaunchWrites` by `LaunchWritesAreStartedWrites` |
| Pipeline.LaunchHalt | AppInit/ContentView.swift:81-87 | once every call-to-action is acknowledged, the launch never stays blocked, and a failure is at a step in range |
| Pipeline.LaunchHaltAfterTask | AppInit/ContentView.swift:85 | the launch ends where the task ends, unless the task pauses on a call-to-action; then it ends where the launch after that step ends |
| Pipeline.LaunchWritesAfterTask | AppInit/ContentView.swift:85 | the launch's writes are the task's writes, followed, when the task pauses on a call-to-action, by the writes of the launch after that step (`AfterPause`) |
| Pipeline.TaskTurn | AppInit/ContentView.swift:85 | one loop iteration keeps the history written so far plus what the task still writes equal to the task's writes; the iteration that ends the loop completes them, and says whether the task is done, failed at this step or paused at this step |
| Pipeline.TaskKeepsLaunchPrefix | AppInit/ContentView.swift:85 | after an activation of the task, the history followed by the rest of the launch is still the whole launch, or the whole launch itself when the task did not pause |
| Pipeline.LaunchDoneIffNoStepThrows | AppInit/ContentView.swift:85-86 | the loop runs to its end, and so reaches the done callback, exactly when no step throws |
| Pipeline.LaunchFailsAtFirstThrow | AppInit/ContentView.swift:85 | a failed launch fails at a step that throws, and no earlier step throws |
| Pipeline.FailedLaunchEndsOnErrorRoute | AppInit/ContentView.swift:71-73 | the last write of a failed launch is the error route |
| Pipeline.PlanRuns | AppInit/ContentView.swift:238-245 | in every configuration, a step's run writes exactly when the step should start, a run that throws has written, and no run writes the error route |
| Pipeline.ErrorRouteIffLaunchFails | AppInit/ContentView.swift:67-73 | when no run writes the error route itself, the launch writes it exactly when it fails |
| Pipeline.ErrorRouteIffFailed | AppInit/ContentView.swift:67-73 | the error route is written exactly when the launch fails |
| Pipeline.StartedAscending | AppInit/ContentView.swift:85 | the indices of the invoked actions lie between the starting step and the end of the list and strictly increase, so no step runs twice or out of order |
| Pipeline.StartedExactlyReached | AppInit/ContentView.swift:85 | step `j`'s action is invoked exactly when `j` is reached (not after the failing step) and its run writes |
| Pipeline.WritesOfAppend | AppInit/ContentView.swift:85 | the writes of two index lists in turn are the writes of the first followed by those of the second |
| Pipeline.LaunchWritesAreStartedWrites | AppInit/ContentView.swift:67-87 | everything the launch writes is the writes of the invoked actions, in invocation order, followed by the error route exactly when the launch fails |
| Pipeline.LaunchStartsEligibleStepsInOrder | AppInit/ContentView.swift:81-87 | actions are invoked in list order, each at most once, and step `j`'s action is invoked exactly when `j` is not after the failing step and `j` should start; the launch's writes are exactly the invoked actions' writes in that order, followed by the error route when it fails |
| Pipeline.LaunchWritesNothing | AppInit/ContentView.swift:81-87 | the launch writes nothing exactly when no run from the starting step writes or throws |
| Pipeline.NoWritesIffNothingEligible | AppInit/ContentView.swift:81-87 | the launch writes nothing exactly when no step should start, and a launch that writes nothing completes |
| Pipeline.ShippedLaunchTrace | AppInit/ContentView.swift:46-51 | with the shipped order and every flag on: the first activation writes `ShowLoader, Idle, Set(Finished), Idle, Set(Cta)` and pauses at step 2; the activation after the call-to-action writes `ShowLoader, Idle` and completes; all four actions run, in order |
| Launch.TaskSettles | AppInit/ContentView.swift:67-87 | an activation of the task that starts consistent with the whole launch leaves a history that agrees with the phase the activation ends in |
| Launch.LaunchScreen.constructor | AppInit/ContentView.swift:43-53 | the screen starts not yet launched, with the configured step list and the cell holding only `Idle` |
| Launch.LaunchScreen.Task | AppInit/ContentView.swift:67-73 | the cell's history is its initial `Idle` followed by the task's writes from step 0, and the screen ends in the phase where the task halts; a failed launch leaves the cell on the error route (the catch's write); the screen invariant holds afterwards, so the done callback has run once if the launch is done and never otherwise |
| Launch.LaunchScreen.Resume | AppInit/ContentView.swift:148-151 | pressing the call-to-action's button continues the loop after the parked step: the cell gets the task's writes from the next step, and the phase is where the task halts from there; a failed launch leaves the cell on the error route |
| Launch.LaunchScreen.Drive | AppInit/ContentView.swift:81-87 | the loop makes exactly the task's writes from the iterator's index, ends in the matching phase, calls the done callback only when it completes, leaves the cell on the error route when it fails, and leaves the screen invariant holding |
| Launch.LaunchScreen.Advance | AppInit/ContentView.swift:85 | one loop iteration keeps the loop invariant, or establishes the loop's exit state |
| Launch.LaunchScreen.Turn | AppInit/ContentView.swift:85-86 | exhausting the iterator calls the done callback once; a step that succeeds moves to the next index; a step that throws adds the error route after its writes and fails the launch at that step; the onboarding step pauses the loop with its call still in flight |
| Launch.ShippedLaunch | AppInit/ContentView.swift:13-16 | with the shipped configuration and every wait completing, the screen shows the call-to-action after the first activation, then ends `Idle` with the done callback called exactly once; the cell's whole history is `Idle, ShowLoader, Idle, Set(Finished), Idle, Set(Cta), ShowLoader, Idle` |

## Left out

- SwiftUI presentation is not modelled: `ContentView.body`, the `LaunchScreen.body` switch, `Router.viewFrom`, `CTAView`, `#Preview`, animations and transitions. `AppInit/AppInitApp.swift` only creates the window and is not part of this model.
- Timing is not modelled: the 2 s and 1.4 s durations, `Task.delayed` and its nanosecond conversion. Each wait is reduced to its outcome, `Elapsed` or `Cancelled`, supplied per step index by the `delays` function. The model does not say when a sleep can throw.
- Concurrency is not modelled: async scheduling, the unstructured tasks and `withCheckedThrowingContinuation`. The suspension is an explicit state (`inFlight`), and resuming the continuation is the explicit event `Resume`.
- Sequence.AppInitSequence.Resume: requires a call to be in flight. In the source, a second press resumes an already-resumed `CheckedContinuation`, which traps. A second press is a precondition violation here; the program traps on it. The model gives no defined behaviour for it, idempotent or otherwise.
- The call-to-action route's resume closure is not carried in `Route.Cta`: resuming is the `Resume` method on the screen.
- `Dependency.shared` is a value passed to the screen's constructor, not a global singleton. Its shipped value is `SharedDependency`, with every flag on.
- The optional `launchDone` closure is modelled as always present: its calls are counted in `launchDoneCalls`.
- `debugPrint` calls are logging and are not modelled.
- Sequence.AppInitSequence.Next: the index is an unbounded `nat`, so a Swift `Int` overflow of `index += 1` is not modelled. The screen never calls `next()` more than one step past the end.
- Re-running `.task` when the view reappears is not modelled: `Task` requires the screen not to have started.
- Writing `Set(Finished)` does not end the launch: the finish step is second in the list, writes `Idle` after its wait, and the onboarding and second setup steps still run. `ShippedLaunchTrace` shows the launch continuing after `Set(Finished)`.
