/**
 The launch screen's task: it builds the step iterator over the configured
 steps, drives it with a `for try await` loop, calls the done callback once
 the iterator is exhausted, and routes to the error screen when a step
 throws. The loop pauses while the call-to-action waits for the user.
 */
module Launch {
  import opened LaunchState
  import opened Steps
  import opened Pipeline
  import opened Sequence

  /** Where the launch task is: not started yet, paused on the
      call-to-action of step `at`, done (callback called), or failed at step
      `at` (error screen shown). */
  datatype Phase = NotStarted | AwaitingCta(at: nat) | Done | Failed(at: nat)

  function PhaseOf(h: Halt): Phase
  {
    match h
    case Completed => Done
    case Failed(k) => Phase.Failed(k)
    case Blocked(k) => AwaitingCta(k)
  }

  /** The cell's history `h` agrees with the launch at `phase`: before the
      task it holds only the logo; while the call-to-action of step `k`
      waits, `h` followed by the launch after step `k` is the whole launch's
      writes; once done or failed, `h` is exactly those writes, and the
      launch completes or fails at that step. */
  ghost predicate Agrees(runs: seq<StepRun>, phase: Phase, h: seq<AppInitializeAction>)
  {
    var whole := [Idle] + LaunchWrites(runs, 0);
    match phase
    case NotStarted => h == [Idle]
    case AwaitingCta(k) =>
      h + LaunchWrites(runs, k + 1) == whole && LaunchHalt(runs, k + 1) == LaunchHalt(runs, 0)
    case Done => h == whole && LaunchHalt(runs, 0) == Completed
    case Failed(k) => h == whole && LaunchHalt(runs, 0) == Halt.Failed(k)
  }

  /** Running the task from step `i` on top of a history that, together with
      the launch from `i`, makes up the whole launch leaves a history that
      agrees with the phase the task ends in. */
  lemma TaskSettles(runs: seq<StepRun>, i: nat, h: seq<AppInitializeAction>)
    requires h + LaunchWrites(runs, i) == [Idle] + LaunchWrites(runs, 0)
    requires LaunchHalt(runs, i) == LaunchHalt(runs, 0)
    ensures Agrees(runs, PhaseOf(TaskHalt(runs, i)), h + TaskWrites(runs, i))
  {
    var whole, after := [Idle] + LaunchWrites(runs, 0), h + TaskWrites(runs, i);
    TaskKeepsLaunchPrefix(runs, i, whole, h, after);
    LaunchHaltAfterTask(runs, i);
    match TaskHalt(runs, i)
    case Blocked(k) =>
      assert after + LaunchWrites(runs, k + 1) == whole;
      assert Agrees(runs, AwaitingCta(k), after);
    case Completed =>
      assert after == whole && LaunchHalt(runs, i) == Completed;
      assert Agrees(runs, Done, after);
    case Failed(k) =>
      assert after == whole && LaunchHalt(runs, i) == Halt.Failed(k);
      assert Agrees(runs, Phase.Failed(k), after);
  }

  class LaunchScreen {
    /** The screen's progress state, initially the logo (`Idle`). */
    const action: ActionBinding
    const steps: seq<Step>
    /** How each step's timed wait ends, by step index. */
    const delays: nat -> Delay
    /** The run of each step's `start()` under those delays. */
    ghost const runs: seq<StepRun>
    var appInit: AppInitSequence?
    var phase: Phase
    /** How often the done callback has been called. */
    var launchDoneCalls: nat

    /** The cell has held `Idle` followed by a prefix of the whole launch's
        writes; while the call-to-action of step `k` waits, the launch after
        step `k` completes that prefix. The done callback has been called
        once if the launch is done and never otherwise. */
    ghost predicate Valid()
      reads this, action, appInit
    {
      && action.Valid()
      && runs == Plan(steps, delays)
      && (appInit == null <==> phase == NotStarted)
      && (appInit != null ==> Linked())
      && (phase.AwaitingCta? ==> appInit.inFlight && appInit.index == phase.at)
      && Agrees(runs, phase, action.history)
      && launchDoneCalls == (if phase == Done then 1 else 0)
    }

    constructor (deps: Dependency, delays: nat -> Delay)
      ensures Valid()
      ensures steps == AppInitializableSteps(deps) && this.delays == delays
      ensures phase == NotStarted && action.history == [Idle] && fresh(action)
    {
      action := new ActionBinding(Idle);
      steps := AppInitializableSteps(deps);
      this.delays := delays;
      runs := Plan(AppInitializableSteps(deps), delays);
      appInit := null;
      phase := NotStarted;
      launchDoneCalls := 0;
    }

    /** The screen's `.task`: build the iterator and drive it until the
        launch is done, fails, or pauses on the call-to-action. */
    method Task()
      requires Valid() && phase == NotStarted
      modifies this, action
      ensures Valid() && fresh(appInit)
      ensures action.history == [Idle] + TaskWrites(runs, 0)
      ensures phase == PhaseOf(TaskHalt(runs, 0))
      ensures phase.Failed? ==> action.value == Set(Error)
    {
      appInit := new AppInitSequence(steps, action);
      Drive();
    }

    /** The call-to-action's button: resume the parked step and let the
        loop carry on from the next step. */
    method Resume()
      requires Valid() && phase.AwaitingCta?
      modifies this, action, appInit
      ensures Valid() && appInit == old(appInit)
      ensures action.history == old(action.history) + TaskWrites(runs, old(phase).at + 1)
      ensures phase == PhaseOf(TaskHalt(runs, old(phase).at + 1))
      ensures phase.Failed? ==> action.value == Set(Error)
    {
      ghost var k := phase.at;
      ghost var h := action.history;
      assert h + LaunchWrites(runs, k + 1) == [Idle] + LaunchWrites(runs, 0);
      assert LaunchHalt(runs, k + 1) == LaunchHalt(runs, 0) && launchDoneCalls == 0;
      appInit.Resume();
      assert Linked() && action.history == h && appInit.index == k + 1;
      Drive();
    }

    /** The iterator and the cell are linked as the screen set them up. */
    ghost predicate Linked()
      reads this, action, appInit
    {
      && action.Valid() && appInit != null && runs == Plan(steps, delays)
      && appInit.action == action && appInit.inits == steps && appInit.Valid()
    }

    /** The loop, started at step `start` with history `h0` and `c0` done
        calls, is still going: what it has written and what the task still
        writes from the current step add up to the task's writes from
        `start`. */
    ghost predicate Running(start: nat, h0: seq<AppInitializeAction>, c0: nat)
      reads this, action, appInit
      requires Linked()
    {
      && !appInit.inFlight && start <= appInit.index <= |steps|
      && launchDoneCalls == c0
      && h0 + TaskWrites(runs, start) == action.history + TaskWrites(runs, appInit.index)
      && TaskHalt(runs, start) == TaskHalt(runs, appInit.index)
    }

    /** The loop has left: the task from `start` has written everything it
        writes and the phase is where it halts. */
    ghost predicate Stopped(start: nat, h0: seq<AppInitializeAction>, c0: nat)
      reads this, action, appInit
      requires Linked()
    {
      && action.history == h0 + TaskWrites(runs, start)
      && phase == PhaseOf(TaskHalt(runs, start))
      && (phase.AwaitingCta? ==> appInit.inFlight && appInit.index == phase.at)
      && launchDoneCalls == c0 + (if phase == Done then 1 else 0)
    }

    /** The `for try await` loop over the iterator, the done callback after
        it, and the catch that routes to the error screen. It starts from a
        history that, with the launch from the iterator's index, makes up
        the whole launch, and leaves the screen consistent. */
    method Drive()
      requires Linked() && !appInit.inFlight && appInit.index <= |steps|
      requires action.history + LaunchWrites(runs, appInit.index) == [Idle] + LaunchWrites(runs, 0)
      requires LaunchHalt(runs, appInit.index) == LaunchHalt(runs, 0)
      requires launchDoneCalls == 0
      modifies this, action, appInit
      ensures Valid() && appInit == old(appInit)
      ensures phase.Failed? ==> action.value == Set(Error)
      ensures action.history == old(action.history) + TaskWrites(runs, old(appInit.index))
      ensures phase == PhaseOf(TaskHalt(runs, old(appInit.index)))
      ensures phase.AwaitingCta? ==> appInit.inFlight && appInit.index == phase.at
      ensures launchDoneCalls == old(launchDoneCalls) + (if phase == Done then 1 else 0)
    {
      ghost var start, h0, c0 := appInit.index, action.history, launchDoneCalls;
      var more := true;
      while more
        invariant Linked() && appInit == old(appInit)
        invariant more ==> Running(start, h0, c0)
        invariant !more ==> Stopped(start, h0, c0)
        decreases more, |steps| - appInit.index
      {
        more := Advance(start, h0, c0);
      }
      TaskSettles(runs, start, h0);
      if phase.Failed? {
        FailedLaunchEndsOnErrorRoute(runs, 0);
        var w := LaunchWrites(runs, 0);
        assert action.history == [Idle] + w;
        assert action.history[|action.history| - 1] == w[|w| - 1];
      }
    }

    /** One turn of the loop, seen from the loop's invariant. */
    method Advance(ghost start: nat, ghost h0: seq<AppInitializeAction>, ghost c0: nat) returns (more: bool)
      requires Linked() && Running(start, h0, c0)
      modifies this, action, appInit
      ensures Linked() && appInit == old(appInit)
      ensures more ==> Running(start, h0, c0) && appInit.index > old(appInit.index)
      ensures !more ==> Stopped(start, h0, c0)
    {
      ghost var i, h := appInit.index, action.history;
      more := Turn();
      TaskTurn(runs, start, i, h0, h, action.history);
    }

    /** One turn of the loop: ask the iterator for its next element, then
        go on, call the done callback, route to the error screen, or pause
        on the call-to-action. */
    method Turn() returns (more: bool)
      requires Linked() && !appInit.inFlight && appInit.index <= |steps|
      modifies this, action, appInit
      ensures Linked() && appInit == old(appInit)
      ensures old(appInit.index) == |steps| ==>
        !more && action.history == old(action.history) &&
        phase == Done && launchDoneCalls == old(launchDoneCalls) + 1
      ensures old(appInit.index) < |steps| ==>
        var i := old(appInit.index);
        var run := runs[i];
        && more == (run.outcome == Ok)
        && (more ==> !appInit.inFlight && appInit.index == i + 1 && launchDoneCalls == old(launchDoneCalls))
        && (run.outcome != Err ==> action.history == old(action.history) + run.writes)
        && (run.outcome == Err ==>
              action.history == old(action.history) + run.writes + [Set(Error)] &&
              phase == Phase.Failed(i) && launchDoneCalls == old(launchDoneCalls))
        && (run.outcome == Suspended ==>
              phase == AwaitingCta(i) && appInit.inFlight && appInit.index == i &&
              launchDoneCalls == old(launchDoneCalls))
    {
      var i := appInit.index;
      var r := appInit.Next(delays(i));
      match r
      case End =>
        launchDoneCalls := launchDoneCalls + 1;
        phase := Done;
        more := false;
      case Thrown =>
        action.Write(Set(Error));
        phase := Phase.Failed(i);
        more := false;
      case Awaiting =>
        phase := AwaitingCta(i);
        more := false;
      case Element =>
        more := true;
    }
  }

  /** The shipped launch, with every wait completing: the screen pauses on
      the call-to-action after step 2, and once it is acknowledged the
      launch ends idle with the done callback called exactly once; `shown`
      is every value the screen's cell has held, from its initial logo. */
  method ShippedLaunch() returns (atCta: AppInitializeAction, atEnd: AppInitializeAction, calls: nat,
                                  ghost shown: seq<AppInitializeAction>)
    ensures atCta == Set(Cta)
    ensures atEnd == Idle && calls == 1
    ensures shown == [Idle, ShowLoader, Idle, Set(Finished), Idle, Set(Cta), ShowLoader, Idle]
  {
    var screen := new LaunchScreen(SharedDependency, _ => Elapsed);
    ShippedLaunchTrace(screen.delays);
    screen.Task();
    atCta := screen.action.value;
    screen.Resume();
    atEnd := screen.action.value;
    calls := screen.launchDoneCalls;
    shown := screen.action.history;
  }
}
