/**
 The one-shot step iterator: a stored index over the configured steps,
 advanced by one whenever a call of `next()` returns (normally, with
 nothing, or by throwing). A call that reaches the call-to-action step stays
 in flight until the call-to-action resumes it.
 */
module Sequence {
  import opened LaunchState
  import opened Steps

  /** How a call of `next()` ends: it yields the step's (void) element, it
      returns nil because the steps are exhausted, it throws, or it is still
      waiting on the call-to-action's continuation. */
  datatype NextResult = Element | End | Thrown | Awaiting

  class AppInitSequence {
    const inits: seq<Step>
    /** The progress cell every step is bound to. */
    const action: ActionBinding
    var index: nat
    /** A `next()` call is parked on the call-to-action's continuation. */
    var inFlight: bool

    ghost predicate Valid()
      reads this, action
    {
      action.Valid() &&
      (inFlight ==>
        index < |inits| && inits[index] == Step(ShowOnboarding, true))
    }

    constructor (inits: seq<Step>, action: ActionBinding)
      requires action.Valid()
      ensures Valid()
      ensures this.inits == inits && this.action == action
      ensures index == 0 && !inFlight
    {
      this.inits := inits;
      this.action := action;
      index := 0;
      inFlight := false;
    }

    /** `next()`: start the step at `index` if there is one. The deferred
        increment happens whenever the call returns, so it is postponed
        while the call waits on the call-to-action. */
    method Next(delay: Delay) returns (r: NextResult)
      requires Valid() && !inFlight
      modifies this, action
      ensures Valid()
      ensures old(index) >= |inits| ==>
        r == End && index == old(index) + 1 && !inFlight &&
        action.history == old(action.history)
      ensures old(index) < |inits| ==>
        var run := StartRun(inits[old(index)], delay);
        && action.history == old(action.history) + run.writes
        && r == (match run.outcome case Ok => Element case Err => Thrown case Suspended => Awaiting)
        && inFlight == (run.outcome == Suspended)
        && index == (if inFlight then old(index) else old(index) + 1)
    {
      var item := SafeIndex(inits, index);
      match item
      case None =>
        index := index + 1;
        r := End;
      case Some(step) =>
        var o := Start(step, action, delay);
        match o
        case Ok =>
          index := index + 1;
          r := Element;
        case Err =>
          index := index + 1;
          r := Thrown;
        case Suspended =>
          inFlight := true;
          r := Awaiting;
    }

    /** The call-to-action's continuation is resumed with success: the
        parked `next()` returns its element and the deferred increment runs.
        The cell is not touched. */
    method Resume()
      requires Valid() && inFlight
      modifies this
      ensures Valid()
      ensures !inFlight && index == old(index) + 1
    {
      inFlight := false;
      index := index + 1;
    }
  }
}
