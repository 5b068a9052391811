/**
 The launch pipeline as values: what the launch task writes to the progress
 cell when it drives the configured steps in order, skipping ineligible
 steps, stopping at the first step that throws (and then routing to the
 error screen), and pausing at the call-to-action. The pipeline is stated
 over the runs of the steps' `start()` calls, one per configured step, so
 that it does not depend on what each action does.
 */
module Pipeline {
  import opened LaunchState
  import opened Steps

  /** Where a stretch of the pipeline stops: every step has run (the launch
      is done), step `at` threw, or step `at` waits on the call-to-action. */
  datatype Halt = Completed | Failed(at: nat) | Blocked(at: nat)

  /** The run of each configured step's `start()`, where `env(j)` is how
      step `j`'s timed wait ends. */
  function Plan(steps: seq<Step>, env: nat -> Delay): (runs: seq<StepRun>)
    ensures |runs| == |steps|
    ensures forall j :: 0 <= j < |steps| ==> runs[j] == StartRun(steps[j], env(j))
  {
    seq(|steps|, j requires 0 <= j < |steps| => StartRun(steps[j], env(j)))
  }

  /** Where the launch task, started at step `i`, halts. */
  function TaskHalt(runs: seq<StepRun>, i: nat): (h: Halt)
    decreases |runs| - i
    ensures !h.Completed? ==> i <= h.at < |runs|
  {
    if i >= |runs| then Completed
    else
      match runs[i].outcome
      case Ok => TaskHalt(runs, i + 1)
      case Err => Failed(i)
      case Suspended => Blocked(i)
  }

  /** What the launch task writes from step `i` until it halts; when a step
      throws, the catch writes the error route after the step's own writes. */
  function TaskWrites(runs: seq<StepRun>, i: nat): seq<AppInitializeAction>
    decreases |runs| - i
  {
    if i >= |runs| then []
    else
      match runs[i].outcome
      case Ok => runs[i].writes + TaskWrites(runs, i + 1)
      case Err => runs[i].writes + [Set(Error)]
      case Suspended => runs[i].writes
  }

  /** Where the whole launch from step `i` ends when every call-to-action it
      shows is acknowledged: it never stays blocked. */
  function LaunchHalt(runs: seq<StepRun>, i: nat): (h: Halt)
    decreases |runs| - i
    ensures !h.Blocked?
    ensures h.Failed? ==> i <= h.at < |runs|
  {
    if i >= |runs| then Completed
    else if runs[i].outcome == Err then Failed(i)
    else LaunchHalt(runs, i + 1)
  }

  /** Everything the whole launch from step `i` writes. */
  function LaunchWrites(runs: seq<StepRun>, i: nat): seq<AppInitializeAction>
    decreases |runs| - i
  {
    if i >= |runs| then []
    else if runs[i].outcome == Err then runs[i].writes + [Set(Error)]
    else runs[i].writes + LaunchWrites(runs, i + 1)
  }

  /** The indices of the steps whose action the whole launch from step `i`
      invokes, in the order it invokes them; an action is invoked exactly
      when its run writes, since every action writes before anything else. */
  function LaunchStarted(runs: seq<StepRun>, i: nat): seq<nat>
    decreases |runs| - i
  {
    if i >= |runs| then []
    else
      var here := if runs[i].writes != [] then [i] else [];
      if runs[i].outcome == Err then here
      else here + LaunchStarted(runs, i + 1)
  }

  /** The launch halts where the task halts, unless the task pauses on a
      call-to-action; then it halts where the launch after that step does. */
  lemma {:induction false} LaunchHaltAfterTask(runs: seq<StepRun>, i: nat)
    decreases |runs| - i
    ensures TaskHalt(runs, i).Blocked? ==>
      LaunchHalt(runs, i) == LaunchHalt(runs, TaskHalt(runs, i).at + 1)
    ensures !TaskHalt(runs, i).Blocked? ==>
      LaunchHalt(runs, i) == TaskHalt(runs, i)
  {
    if i < |runs| && runs[i].outcome == Ok {
      LaunchHaltAfterTask(runs, i + 1);
    }
  }

  lemma AppendAssoc<T>(a: seq<T>, b: seq<T>, c: seq<T>)
    ensures a + (b + c) == (a + b) + c
  {
  }

  /** What the launch writes after the task from step `i` pauses on a
      call-to-action: the launch from the step after it; nothing when the
      task does not pause. */
  function AfterPause(runs: seq<StepRun>, i: nat): seq<AppInitializeAction>
  {
    match TaskHalt(runs, i)
    case Blocked(k) => LaunchWrites(runs, k + 1)
    case _ => []
  }

  /** The launch writes what the task writes, followed, when the task pauses
      on a call-to-action, by what the launch after that step writes. */
  lemma {:induction false} LaunchWritesAfterTask(runs: seq<StepRun>, i: nat)
    decreases |runs| - i
    ensures LaunchWrites(runs, i) == TaskWrites(runs, i) + AfterPause(runs, i)
  {
    if i < |runs| {
      var w := runs[i].writes;
      match runs[i].outcome
      case Err =>
        assert AfterPause(runs, i) == [];
      case Suspended =>
      case Ok =>
        LaunchWritesAfterTask(runs, i + 1);
        var t, rest := TaskWrites(runs, i + 1), AfterPause(runs, i + 1);
        assert LaunchWrites(runs, i) == w + LaunchWrites(runs, i + 1);
        assert TaskWrites(runs, i) == w + t;
        assert AfterPause(runs, i) == rest;
        AppendAssoc(w, t, rest);
    }
  }

  /** How one turn of the task's loop carries the written prefix forward:
      `h0` is the cell's history when the task started at `start`, `h` its
      history before step `i`, and `h'` its history after step `i`. */
  lemma TaskTurn(runs: seq<StepRun>, start: nat, i: nat,
                 h0: seq<AppInitializeAction>, h: seq<AppInitializeAction>, h': seq<AppInitializeAction>)
    requires i <= |runs|
    requires h0 + TaskWrites(runs, start) == h + TaskWrites(runs, i)
    requires TaskHalt(runs, start) == TaskHalt(runs, i)
    ensures i == |runs| && h' == h ==>
      h' == h0 + TaskWrites(runs, start) && TaskHalt(runs, start) == Completed
    ensures i < |runs| && runs[i].outcome == Ok && h' == h + runs[i].writes ==>
      h0 + TaskWrites(runs, start) == h' + TaskWrites(runs, i + 1) &&
      TaskHalt(runs, start) == TaskHalt(runs, i + 1)
    ensures i < |runs| && runs[i].outcome == Err && h' == h + runs[i].writes + [Set(Error)] ==>
      h' == h0 + TaskWrites(runs, start) && TaskHalt(runs, start) == Failed(i)
    ensures i < |runs| && runs[i].outcome == Suspended && h' == h + runs[i].writes ==>
      h' == h0 + TaskWrites(runs, start) && TaskHalt(runs, start) == Blocked(i)
  {
    if i < |runs| {
      var w := runs[i].writes;
      if runs[i].outcome == Ok {
        var rest := TaskWrites(runs, i + 1);
        AppendAssoc(h, w, rest);
      } else if runs[i].outcome == Err {
        AppendAssoc(h, w, [Set(Error)]);
      }
    }
  }

  /** After the task runs from step `i`, the cell's history followed by what
      the launch still has to write is the whole launch's writes, provided
      that held before the task ran. */
  lemma TaskKeepsLaunchPrefix(runs: seq<StepRun>, i: nat, whole: seq<AppInitializeAction>,
                              hBefore: seq<AppInitializeAction>, hAfter: seq<AppInitializeAction>)
    requires hBefore + LaunchWrites(runs, i) == whole
    requires hAfter == hBefore + TaskWrites(runs, i)
    ensures TaskHalt(runs, i).Blocked? ==>
      hAfter + LaunchWrites(runs, TaskHalt(runs, i).at + 1) == whole
    ensures !TaskHalt(runs, i).Blocked? ==> hAfter == whole
  {
    LaunchWritesAfterTask(runs, i);
    var seg, tail := TaskWrites(runs, i), AfterPause(runs, i);
    AppendAssoc(hBefore, seg, tail);
    if !TaskHalt(runs, i).Blocked? {
      assert tail == [];
    }
  }

  /** The launch completes (and the done callback runs) exactly when no
      step from `i` on throws. */
  lemma {:induction false} LaunchDoneIffNoStepThrows(runs: seq<StepRun>, i: nat)
    decreases |runs| - i
    ensures LaunchHalt(runs, i) == Completed <==>
      forall j :: i <= j < |runs| ==> runs[j].outcome != Err
  {
    if i < |runs| {
      LaunchDoneIffNoStepThrows(runs, i + 1);
    }
  }

  /** Fail fast: when the launch fails at step `k`, step `k` is the first
      step from `i` on that throws. */
  lemma {:induction false} LaunchFailsAtFirstThrow(runs: seq<StepRun>, i: nat)
    decreases |runs| - i
    ensures LaunchHalt(runs, i).Failed? ==>
      var k := LaunchHalt(runs, i).at;
      runs[k].outcome == Err && forall j :: i <= j < k ==> runs[j].outcome != Err
  {
    if i < |runs| && runs[i].outcome != Err {
      LaunchFailsAtFirstThrow(runs, i + 1);
    }
  }

  /** The error screen is the last thing a failed launch shows. */
  lemma {:induction false} FailedLaunchEndsOnErrorRoute(runs: seq<StepRun>, i: nat)
    decreases |runs| - i
    ensures LaunchHalt(runs, i).Failed? ==>
      var w := LaunchWrites(runs, i);
      |w| > 0 && w[|w| - 1] == Set(Error)
  {
    if i < |runs| && runs[i].outcome != Err {
      FailedLaunchEndsOnErrorRoute(runs, i + 1);
      var rest := LaunchWrites(runs, i + 1);
      if LaunchHalt(runs, i).Failed? {
        assert LaunchWrites(runs, i)[|LaunchWrites(runs, i)| - 1] == rest[|rest| - 1];
      }
    }
  }

  /** What the step runs of a configuration inherit from the actions: a run
      writes exactly when its step should start, a run that throws has
      written, and no run writes the error route. */
  lemma PlanRuns(steps: seq<Step>, env: nat -> Delay)
    ensures var runs := Plan(steps, env);
      forall j :: 0 <= j < |runs| ==>
        && (runs[j].writes == [] <==> !steps[j].shouldStart)
        && (runs[j].outcome == Err ==> runs[j].writes != [])
        && Set(Error) !in runs[j].writes
  {
  }

  /** The error route is written exactly when the launch fails, provided no
      run writes it itself. */
  lemma {:induction false} ErrorRouteIffLaunchFails(runs: seq<StepRun>, i: nat)
    requires forall j :: i <= j < |runs| ==> Set(Error) !in runs[j].writes
    decreases |runs| - i
    ensures Set(Error) in LaunchWrites(runs, i) <==> LaunchHalt(runs, i).Failed?
  {
    if i < |runs| && runs[i].outcome != Err {
      ErrorRouteIffLaunchFails(runs, i + 1);
      var w, rest := runs[i].writes, LaunchWrites(runs, i + 1);
      assert Set(Error) in w + rest <==> Set(Error) in w || Set(Error) in rest;
    }
  }

  /** The error screen is shown exactly when the launch fails: no step
      writes the error route itself. */
  lemma ErrorRouteIffFailed(steps: seq<Step>, env: nat -> Delay, i: nat)
    ensures Set(Error) in LaunchWrites(Plan(steps, env), i) <==> LaunchHalt(Plan(steps, env), i).Failed?
  {
    PlanRuns(steps, env);
    ErrorRouteIffLaunchFails(Plan(steps, env), i);
  }

  /** The last step the launch from `i` reaches: the failing step, or the
      end of the list. */
  function Reached(runs: seq<StepRun>, i: nat): nat
  {
    if LaunchHalt(runs, i).Failed? then LaunchHalt(runs, i).at + 1 else |runs|
  }

  /** The invoked actions' indices are strictly increasing and lie between
      `i` and the end of the list. */
  lemma {:induction false} StartedAscending(runs: seq<StepRun>, i: nat)
    decreases |runs| - i
    ensures forall n :: 0 <= n < |LaunchStarted(runs, i)| ==> i <= LaunchStarted(runs, i)[n] < |runs|
    ensures forall a, b :: 0 <= a < b < |LaunchStarted(runs, i)| ==>
      LaunchStarted(runs, i)[a] < LaunchStarted(runs, i)[b]
  {
    if i < |runs| && runs[i].outcome != Err {
      StartedAscending(runs, i + 1);
      var here: seq<nat> := if runs[i].writes != [] then [i] else [];
      var rest := LaunchStarted(runs, i + 1);
      var started := here + rest;
      assert LaunchStarted(runs, i) == started;
      forall n | 0 <= n < |started|
        ensures i <= started[n] < |runs|
        ensures n >= |here| ==> started[n] == rest[n - |here|] && i < started[n]
      {
        if n < |here| {
          assert started[n] == i;
        } else {
          assert started[n] == rest[n - |here|];
          assert i + 1 <= rest[n - |here|] < |runs|;
        }
      }
    }
  }

  /** Step `j`'s action is invoked exactly when `j` is reached and its run
      writes. */
  lemma {:induction false} StartedExactlyReached(runs: seq<StepRun>, i: nat)
    decreases |runs| - i
    ensures forall j :: j in LaunchStarted(runs, i) <==>
      i <= j < Reached(runs, i) && runs[j].writes != []
  {
    if i < |runs| && runs[i].outcome != Err {
      StartedExactlyReached(runs, i + 1);
      assert Reached(runs, i) == Reached(runs, i + 1);
    }
  }

  /** The writes of the runs at the indices `js`, in that order; an index
      outside the list contributes nothing. */
  function WritesOf(runs: seq<StepRun>, js: seq<nat>): seq<AppInitializeAction>
  {
    if js == [] then []
    else (if js[0] < |runs| then runs[js[0]].writes else []) + WritesOf(runs, js[1..])
  }

  lemma {:induction false} WritesOfAppend(runs: seq<StepRun>, a: seq<nat>, b: seq<nat>)
    ensures WritesOf(runs, a + b) == WritesOf(runs, a) + WritesOf(runs, b)
  {
    if a == [] {
      assert a + b == b;
    } else {
      assert (a + b)[1..] == a[1..] + b;
      WritesOfAppend(runs, a[1..], b);
      var first := if a[0] < |runs| then runs[a[0]].writes else [];
      AppendAssoc(first, WritesOf(runs, a[1..]), WritesOf(runs, b));
    }
  }

  /** Everything the launch writes comes from the actions it invokes, in the
      order it invokes them, followed by the error route exactly when it
      fails: skipped steps and steps after the failing one write nothing. */
  lemma {:induction false} LaunchWritesAreStartedWrites(runs: seq<StepRun>, i: nat)
    decreases |runs| - i
    ensures LaunchWrites(runs, i) ==
      WritesOf(runs, LaunchStarted(runs, i)) + (if LaunchHalt(runs, i).Failed? then [Set(Error)] else [])
  {
    if i < |runs| {
      var w := runs[i].writes;
      var here: seq<nat> := if w != [] then [i] else [];
      assert WritesOf(runs, here) == w by {
        if w != [] {
          assert here[1..] == [];
        }
      }
      if runs[i].outcome != Err {
        LaunchWritesAreStartedWrites(runs, i + 1);
        var rest := LaunchStarted(runs, i + 1);
        var tail: seq<AppInitializeAction> := if LaunchHalt(runs, i + 1).Failed? then [Set(Error)] else [];
        assert LaunchStarted(runs, i) == here + rest;
        WritesOfAppend(runs, here, rest);
        AppendAssoc(w, WritesOf(runs, rest), tail);
      }
    }
  }

  /** Steps run in list order, each at most once, and a step's action is
      invoked exactly when the step is reached and should start; the steps
      after a failing one are never reached. */
  lemma LaunchStartsEligibleStepsInOrder(steps: seq<Step>, env: nat -> Delay, i: nat)
    ensures var runs := Plan(steps, env);
      var started := LaunchStarted(runs, i);
      var end := if LaunchHalt(runs, i).Failed? then LaunchHalt(runs, i).at + 1 else |steps|;
      (forall a, b :: 0 <= a < b < |started| ==> started[a] < started[b]) &&
      (forall j :: j in started <==> i <= j < end && steps[j].shouldStart) &&
      LaunchWrites(runs, i) ==
        WritesOf(runs, started) + (if LaunchHalt(runs, i).Failed? then [Set(Error)] else [])
  {
    var runs := Plan(steps, env);
    PlanRuns(steps, env);
    StartedAscending(runs, i);
    StartedExactlyReached(runs, i);
    LaunchWritesAreStartedWrites(runs, i);
  }

  /** The launch writes nothing exactly when no run from `i` on writes or
      throws. */
  lemma {:induction false} LaunchWritesNothing(runs: seq<StepRun>, i: nat)
    decreases |runs| - i
    ensures LaunchWrites(runs, i) == [] <==>
      forall j :: i <= j < |runs| ==> runs[j].writes == [] && runs[j].outcome != Err
  {
    if i < |runs| && runs[i].outcome != Err {
      LaunchWritesNothing(runs, i + 1);
    }
  }

  /** The cell is never written exactly when no step from `i` on should
      start; in particular an empty list completes at once without writes. */
  lemma NoWritesIffNothingEligible(steps: seq<Step>, env: nat -> Delay, i: nat)
    ensures LaunchWrites(Plan(steps, env), i) == [] <==>
      forall j :: i <= j < |steps| ==> !steps[j].shouldStart
    ensures LaunchWrites(Plan(steps, env), i) == [] ==> LaunchHalt(Plan(steps, env), i) == Completed
  {
    var runs := Plan(steps, env);
    PlanRuns(steps, env);
    LaunchWritesNothing(runs, i);
    LaunchDoneIffNoStepThrows(runs, i);
  }

  /** With the shipped configuration and every wait completing, the task
      first pauses on the call-to-action of step 2; once it is acknowledged
      the rest of the launch shows the loader, goes idle and completes. */
  lemma ShippedLaunchTrace(env: nat -> Delay)
    requires forall j :: env(j) == Elapsed
    ensures var runs := Plan(AppInitializableSteps(SharedDependency), env);
      && TaskWrites(runs, 0) == [ShowLoader, Idle, Set(Finished), Idle, Set(Cta)]
      && TaskHalt(runs, 0) == Blocked(2)
      && TaskWrites(runs, 3) == [ShowLoader, Idle]
      && TaskHalt(runs, 3) == Completed
      && LaunchWrites(runs, 0) == [ShowLoader, Idle, Set(Finished), Idle, Set(Cta), ShowLoader, Idle]
      && LaunchStarted(runs, 0) == [0, 1, 2, 3]
      && LaunchHalt(runs, 0) == Completed
  {
    var steps := AppInitializableSteps(SharedDependency);
    var runs := Plan(steps, env);
    assert env(0) == Elapsed && env(1) == Elapsed && env(3) == Elapsed;
    assert runs[0] == StepRun([ShowLoader, Idle], Ok);
    assert runs[1] == StepRun([Set(Finished), Idle], Ok);
    assert runs[2] == StepRun([Set(Cta)], Suspended);
    assert runs[3] == StepRun([ShowLoader, Idle], Ok);
    assert TaskWrites(runs, 4) == LaunchWrites(runs, 4) == [] && LaunchStarted(runs, 4) == [];
    assert LaunchWrites(runs, 3) == [ShowLoader, Idle] && LaunchStarted(runs, 3) == [3];
    assert LaunchWrites(runs, 2) == [Set(Cta), ShowLoader, Idle] && LaunchStarted(runs, 2) == [2, 3];
    assert LaunchWrites(runs, 1) == [Set(Finished), Idle, Set(Cta), ShowLoader, Idle];
    assert LaunchStarted(runs, 1) == [1, 2, 3];
    assert TaskWrites(runs, 1) == [Set(Finished), Idle, Set(Cta)];
    assert TaskHalt(runs, 1) == Blocked(2);
    assert LaunchHalt(runs, 3) == LaunchHalt(runs, 2) == LaunchHalt(runs, 1) == Completed;
  }
}
