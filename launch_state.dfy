/**
 The launch-progress cell of the AppInit demo: the route a finished or
 interrupted launch shows, the three-way progress value the launch screen
 renders, the bounds-checked subscript the sequencer uses, and the mutable
 cell (the launch screen's state, shared with every step by binding).
 */
module LaunchState {

  /** What the router displays when the cell holds `Set(route)`. The
      call-to-action's resume closure is not a value here: resuming is an
      explicit event on the sequencer. */
  datatype Route = Cta | ForceUpdate | Error | Finished

  /** The value the launch screen renders: the logo, a progress spinner, or
      a routed screen. */
  datatype AppInitializeAction = Idle | ShowLoader | Set(route: Route)

  datatype Option<T> = None | Some(value: T)

  /** `collection[safe: i]`: the element at `i` when `i` is a valid index,
      and nothing otherwise; it never traps. */
  function SafeIndex<T>(s: seq<T>, i: int): (r: Option<T>)
    ensures r.Some? <==> 0 <= i < |s|
    ensures r.Some? ==> r.value == s[i]
  {
    if 0 <= i < |s| then Some(s[i]) else None
  }

  /** The launch screen's `action` state. Every step receives a binding to
      this one cell and overwrites it; `history` is every value it has held,
      oldest first, so its last element is the current value. */
  class ActionBinding {
    var value: AppInitializeAction
    ghost var history: seq<AppInitializeAction>

    ghost predicate Valid()
      reads this
    {
      |history| > 0 && value == history[|history| - 1]
    }

    constructor (initial: AppInitializeAction)
      ensures Valid()
      ensures value == initial && history == [initial]
    {
      value := initial;
      history := [initial];
    }

    /** A total overwrite: the new value replaces the old one outright. */
    method Write(v: AppInitializeAction)
      requires Valid()
      modifies this
      ensures Valid()
      ensures value == v && history == old(history) + [v]
    {
      value := v;
      history := history + [v];
    }
  }
}
