/**
 The four launch steps. Each step is a value (which step it is, and whether
 it should start); each step's action writes a fixed sequence of values into
 the shared progress cell and then completes, fails, or waits for the
 call-to-action to be acknowledged.
 */
module Steps {
  import opened LaunchState

  datatype StepKind = SetupAsyncOne | SetupAsyncTwo | ShowOnboarding | DidFinish

  /** One configured step; `shouldStart` is the flag its eligibility reads. */
  datatype Step = Step(kind: StepKind, shouldStart: bool)

  /** How one timed wait ends: the sleep completes and the delayed
      operation runs, or the sleep throws, the delayed operation never runs
      and awaiting the task's value rethrows. The duration itself is not
      modelled. */
  datatype Delay = Elapsed | Cancelled

  /** How an action (or a guarded start) ends: it returns, it throws, or it
      is parked on the call-to-action's continuation. */
  datatype Outcome = Ok | Err | Suspended

  /** The writes an action makes to the cell, in order, and how it ends. */
  datatype StepRun = StepRun(writes: seq<AppInitializeAction>, outcome: Outcome)

  /** The feature flags of the configuration holder, passed as a value. */
  datatype Dependency = Dependency(
    shouldFetchOne: bool,
    shouldShowOnboarding: bool,
    shouldFetchTwo: bool,
    shouldShowDidFinish: bool)

  /** The configuration the app ships with: every flag on. */
  const SharedDependency := Dependency(true, true, true, true)

  /** The launch screen's configured step list, in execution order. */
  function AppInitializableSteps(deps: Dependency): seq<Step>
  {
    [ Step(SetupAsyncOne, deps.shouldFetchOne),
      Step(DidFinish, deps.shouldShowDidFinish),
      Step(ShowOnboarding, deps.shouldShowOnboarding),
      Step(SetupAsyncTwo, deps.shouldFetchTwo) ]
  }

  /** A timed action: write `first`, wait, and write `Idle` only if the wait
      completes (the delayed operation never runs when the sleep throws). */
  function DelayedRun(first: AppInitializeAction, delay: Delay): StepRun
  {
    match delay
    case Elapsed => StepRun([first, Idle], Ok)
    case Cancelled => StepRun([first], Err)
  }

  /** Specification of each step's `action()`. */
  function ActionRun(kind: StepKind, delay: Delay): (r: StepRun)
    ensures |r.writes| >= 1
    ensures r.outcome == Suspended <==> kind == ShowOnboarding
    ensures r.outcome == Err <==> kind != ShowOnboarding && delay == Cancelled
    ensures r.outcome == Ok ==> r.writes[|r.writes| - 1] == Idle
    ensures Set(Error) !in r.writes && Set(ForceUpdate) !in r.writes
  {
    match kind
    case SetupAsyncOne => DelayedRun(ShowLoader, delay)
    case SetupAsyncTwo => DelayedRun(ShowLoader, delay)
    case DidFinish => DelayedRun(Set(Finished), delay)
    case ShowOnboarding => StepRun([Set(Cta)], Suspended)
  }

  /** Specification of the guarded `start()`. */
  function StartRun(step: Step, delay: Delay): (r: StepRun)
    ensures r.writes == [] <==> !step.shouldStart
    ensures !step.shouldStart ==> r.outcome == Ok
  {
    if step.shouldStart then ActionRun(step.kind, delay) else StepRun([], Ok)
  }

  /** `SetupAsyncOneAppInit.action()` and `SetupAsyncTwoAppInit.action()`:
      show the loader, then go idle once the wait completes. */
  method SetupAsyncAction(action: ActionBinding, delay: Delay) returns (o: Outcome)
    requires action.Valid()
    modifies action
    ensures action.Valid()
    ensures action.history == old(action.history) +
      (if delay == Elapsed then [ShowLoader, Idle] else [ShowLoader])
    ensures o == (if delay == Elapsed then Ok else Err)
  {
    action.Write(ShowLoader);
    if delay == Elapsed {
      action.Write(Idle);
      o := Ok;
    } else {
      o := Err;
    }
  }

  /** `DidFinishAppInit.action()`: show the finished screen, then go idle
      once the wait completes. */
  method DidFinishAction(action: ActionBinding, delay: Delay) returns (o: Outcome)
    requires action.Valid()
    modifies action
    ensures action.Valid()
    ensures action.history == old(action.history) +
      (if delay == Elapsed then [Set(Finished), Idle] else [Set(Finished)])
    ensures o == (if delay == Elapsed then Ok else Err)
  {
    action.Write(Set(Finished));
    if delay == Elapsed {
      action.Write(Idle);
      o := Ok;
    } else {
      o := Err;
    }
  }

  /** `ShowOnboardingInit.action()`: route to the call-to-action and park on
      its continuation; the action completes only when it is resumed. */
  method ShowOnboardingAction(action: ActionBinding) returns (o: Outcome)
    requires action.Valid()
    modifies action
    ensures action.Valid()
    ensures action.history == old(action.history) + [Set(Cta)]
    ensures o == Suspended
  {
    action.Write(Set(Cta));
    o := Suspended;
  }

  /** `start()`: run the step's action only when the step should start. */
  method Start(step: Step, action: ActionBinding, delay: Delay) returns (o: Outcome)
    requires action.Valid()
    modifies action
    ensures action.Valid()
    ensures !step.shouldStart ==> o == Ok && action.history == old(action.history)
    ensures step.shouldStart ==>
      action.history == old(action.history) + ActionRun(step.kind, delay).writes &&
      o == ActionRun(step.kind, delay).outcome
  {
    if step.shouldStart {
      match step.kind
      case SetupAsyncOne => o := SetupAsyncAction(action, delay);
      case SetupAsyncTwo => o := SetupAsyncAction(action, delay);
      case DidFinish => o := DidFinishAction(action, delay);
      case ShowOnboarding => o := ShowOnboardingAction(action);
    } else {
      o := Ok;
    }
  }
}
