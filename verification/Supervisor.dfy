/** The supervisor that runs the Gatekeeper constraint sync while Gatekeeper is installed. */
module Supervisor {

  datatype ListResult = ListFails | WatchFails | Listed(installed: bool)

  datatype Event = ParentDone | WatcherDone | Added | Deleted | OtherEvent

  /**
   * The variables of manageGatekeeperSyncManager and what they share with the goroutines it starts. Contexts are
   * numbered; `started` holds the context of each goroutine, `finished` those that called Done on the wait group.
   */
  datatype State = State(
    watching: bool, running: bool, installed: bool, returned: bool,
    ctx: nat, contexts: nat, cancelled: set<nat>, parentOpen: bool,
    started: seq<nat>, finished: set<nat>, adds: nat, dones: nat)

  const INITIAL := State(false, false, false, false, 0, 1, {}, true, [], {}, 0, 0)

  function Start(s: State): State {
    s.(running := true, adds := s.adds + 1, started := s.started + [s.ctx])
  }

  /** Cancel the context of the running manager and make a new one for the next. */
  function Stop(s: State): State {
    s.(running := false, cancelled := s.cancelled + {s.ctx}, ctx := s.contexts, contexts := s.contexts + 1)
  }

  /** From the top of the loop to the select statement. */
  function Prepare(s: State, installed: bool): State {
    var s := s.(watching := true, installed := installed);
    var s := if s.installed && !s.running then Start(s) else s;
    if !s.installed && s.running then Stop(s) else s
  }

  function React(s: State, e: Event): State {
    match e
    case ParentDone => s.(cancelled := s.cancelled + {s.ctx}, returned := true)
    case WatcherDone => s.(watching := false)
    case Added => s.(installed := true)
    case Deleted => s.(installed := false)
    case OtherEvent => s
  }

  /** What a watcher, once there is one, leaves of the listing. */
  function Known(s: State, list: ListResult): bool {
    if s.watching || !list.Listed? then s.installed else list.installed
  }

  /** One turn of the loop; a failed list or watch only starts it over. */
  function Turn(s: State, list: ListResult, e: Event): State {
    if s.returned || (!s.watching && !list.Listed?) then s else React(Prepare(s, Known(s, list)), e)
  }

  /** What happens: a turn of the loop, the end of the parent context, after which listing fails, or of a goroutine. */
  datatype Action = Loop(list: ListResult, event: Event) | CloseParent | Exit(goroutine: nat)

  /** The context of a goroutine has been cancelled, by itself or with its parent. */
  predicate IsDone(s: State, g: nat)
    requires g < |s.started|
  {
    s.started[g] in s.cancelled || !s.parentOpen
  }

  predicate Enabled(s: State, a: Action) {
    match a
    case Loop(list, e) => (e.ParentDone? ==> !s.parentOpen) && (list.Listed? ==> s.parentOpen)
    case CloseParent => true
    case Exit(g) => g < |s.started| && g !in s.finished && IsDone(s, g)
  }

  function Do(s: State, a: Action): State
    requires Enabled(s, a)
  {
    match a
    case Loop(list, e) => Turn(s, list, e)
    case CloseParent => s.(parentOpen := false)
    case Exit(g) => s.(finished := s.finished + {g}, dones := s.dones + 1)
  }

  /** The loop itself, over the listings and events it meets. */
  class Manager {
    var watching: bool
    var mgrRunning: bool
    var gatekeeperInstalled: bool
    var returned: bool
    var mgrCtx: nat
    var contexts: nat
    var cancelled: set<nat>
    var started: seq<nat>
    var adds: nat

    constructor ()
      ensures View(true, {}, 0) == INITIAL
    {
      watching, mgrRunning, gatekeeperInstalled, returned := false, false, false, false;
      mgrCtx, contexts, cancelled, started, adds := 0, 1, {}, [], 0;
    }

    function View(parentOpen: bool, finished: set<nat>, dones: nat): State
      reads this
    {
      State(watching, mgrRunning, gatekeeperInstalled, returned,
            mgrCtx, contexts, cancelled, parentOpen, started, finished, adds, dones)
    }

    method Manage(rounds: seq<(ListResult, Event)>)
      modifies this
      ensures View(true, {}, 0) == Turns(old(View(true, {}, 0)), rounds)
    {
      hide Turn;
      ReturnedStays();
      for i := 0 to |rounds|
        invariant View(true, {}, 0) == Turns(old(View(true, {}, 0)), rounds[..i])
      {
        assert rounds[..i + 1][..i] == rounds[..i];
        if !returned {
          Round(rounds[i].0, rounds[i].1);
        }
      }
      assert rounds[..|rounds|] == rounds;
    }

    /** One turn of the loop, up to `continue`, `return` or the end of the select statement. */
    method Round(list: ListResult, event: Event)
      requires !returned
      modifies this
      ensures View(true, {}, 0) == Turn(old(View(true, {}, 0)), list, event)
    {
      hide Prepare, React;
      ghost var was := View(true, {}, 0);
      PrepareOverwrites(was, Known(was, list));
      if !watching {
        if !list.Listed? {
          return;
        }
        watching := true;
        gatekeeperInstalled := list.installed;
      }
      StartOrStop();
      Select(event);
    }

    /** Start the manager if Gatekeeper was installed, stop it if it was uninstalled. */
    method StartOrStop()
      requires watching
      modifies this
      ensures View(true, {}, 0) == Prepare(old(View(true, {}, 0)), old(gatekeeperInstalled))
    {
      if gatekeeperInstalled && !mgrRunning {
        mgrRunning := true;
        adds := adds + 1;
        started := started + [mgrCtx];
      }
      if !gatekeeperInstalled && mgrRunning {
        mgrRunning := false;
        cancelled := cancelled + {mgrCtx};
        mgrCtx, contexts := contexts, contexts + 1;
      }
    }

    /** The select statement, with the event that is ready. */
    method Select(event: Event)
      modifies this
      ensures View(true, {}, 0) == React(old(View(true, {}, 0)), event)
    {
      match event {
        case ParentDone =>
          cancelled := cancelled + {mgrCtx};
          returned := true;
        case WatcherDone => watching := false;
        case Added => gatekeeperInstalled := true;
        case Deleted => gatekeeperInstalled := false;
        case OtherEvent =>
      }
    }
  }

  lemma PrepareOverwrites(s: State, installed: bool)
    ensures Prepare(s.(watching := true, installed := installed), installed) == Prepare(s, installed)
  {
  }

  lemma ReturnedStays()
    ensures forall s: State, list, e :: s.returned ==> Turn(s, list, e) == s
  {
  }

  function Turns(s: State, rounds: seq<(ListResult, Event)>): State {
    if rounds == [] then s
    else
      var last := rounds[|rounds| - 1];
      Turn(Turns(s, rounds[..|rounds| - 1]), last.0, last.1)
  }

  // ---------------------------------------------------------------- every run

  ghost predicate Inv(s: State) {
    && s.ctx < s.contexts
    && (forall c :: c in s.cancelled ==> c < s.contexts)
    && (!s.returned ==> s.ctx !in s.cancelled)
    && (s.returned ==> !s.parentOpen)
    && (forall g :: 0 <= g < |s.started| ==> s.started[g] in s.cancelled || (s.running && g == |s.started| - 1))
    && (s.running ==> s.started != [] && s.started[|s.started| - 1] == s.ctx)
    && (forall g :: 0 <= g < |s.started| ==> s.started[g] < s.contexts)
    && s.adds == |s.started| && s.dones == |s.finished|
    && (forall g :: g in s.finished ==> g < |s.started| && IsDone(s, g))
  }

  lemma PrepareInv(s: State, installed: bool)
    requires Inv(s) && !s.returned
    ensures
      var t := Prepare(s, installed);
      Inv(t) && t.running == t.installed == installed && !t.returned && t.parentOpen == s.parentOpen
  {
    var s1 := s.(watching := true, installed := installed);
    if installed && !s.running {
      var t := Start(s1);
      assert forall g :: 0 <= g < |s.started| ==> t.started[g] == s.started[g];
    }
  }

  lemma ReactInv(s: State, e: Event)
    requires Inv(s) && !s.returned && (e.ParentDone? ==> !s.parentOpen)
    ensures Inv(React(s, e))
  {
  }

  lemma DoInv(s: State, a: Action)
    requires Inv(s) && Enabled(s, a)
    ensures Inv(Do(s, a))
  {
    match a
    case Loop(list, e) =>
      if !(s.returned || (!s.watching && !list.Listed?)) {
        PrepareInv(s, Known(s, list));
        ReactInv(Prepare(s, Known(s, list)), e);
        hide Prepare, React, Inv;
      }
    case CloseParent =>
    case Exit(g) =>
  }

  ghost predicate Next(s: State, t: State) {
    exists a :: Enabled(s, a) && t == Do(s, a)
  }

  ghost predicate Run(run: seq<State>) {
    run != [] && run[0] == INITIAL && forall i :: 0 <= i < |run| - 1 ==> Next(run[i], run[i + 1])
  }

  lemma NextInv(s: State, t: State)
    requires Inv(s) && Next(s, t)
    ensures Inv(t)
  {
    hide Inv, Do, Enabled;
    var a :| Enabled(s, a) && t == Do(s, a);
    DoInv(s, a);
  }

  lemma {:induction false} RunInv(run: seq<State>)
    requires Run(run)
    ensures Inv(run[|run| - 1])
  {
    assert Inv(INITIAL);
    hide Inv, Next, INITIAL;
    if |run| > 1 {
      var front := run[..|run| - 1];
      assert forall i :: 0 <= i < |front| ==> front[i] == run[i];
      RunInv(front);
      NextInv(run[|run| - 2], run[|run| - 1]);
    }
  }

  /** The goroutines whose context is still open. */
  function Live(s: State): set<nat> {
    set g | 0 <= g < |s.started| && !IsDone(s, g)
  }

  /**
   * Wherever a run has got to, when the loop next waits and the parent is open, exactly one manager is live if
   * Gatekeeper is known to be installed and none otherwise; a manager just started has an open context.
   */
  lemma OneManagerIffInstalled(run: seq<State>, list: ListResult)
    requires Run(run) && !run[|run| - 1].returned && run[|run| - 1].parentOpen
    requires run[|run| - 1].watching || list.Listed?
    ensures
      var s := run[|run| - 1];
      var waiting := Prepare(s, Known(s, list));
      Live(waiting) == if Known(s, list) then {|waiting.started| - 1} else {}
    ensures
      var s := run[|run| - 1];
      var waiting := Prepare(s, Known(s, list));
      waiting.started != s.started ==> waiting.started[|waiting.started| - 1] !in waiting.cancelled
  {
    var s := run[|run| - 1];
    RunInv(run);
    PrepareInv(s, Known(s, list));
  }

  function Below(n: nat): (r: set<nat>)
    ensures |r| == n && forall g: nat :: g in r <==> g < n
  {
    if n == 0 then {} else Below(n - 1) + {n - 1}
  }

  /** The wait group never goes negative, and once every goroutine has exited it is back at zero. */
  lemma WaitGroupBalances(run: seq<State>)
    requires Run(run)
    ensures
      var s := run[|run| - 1];
      && s.dones <= s.adds
      && (s.dones == s.adds <==> forall g :: 0 <= g < |s.started| ==> g in s.finished)
  {
    RunInv(run);
    var s := run[|run| - 1];
    var all := Below(|s.started|);
    assert s.finished <= all;
    SubsetCardinality(s.finished, all);
  }

  lemma {:induction false} SubsetCardinality(a: set<nat>, b: set<nat>)
    requires a <= b
    ensures |a| <= |b| && (|a| == |b| <==> a == b)
  {
    if a != {} {
      var x :| x in a;
      SubsetCardinality(a - {x}, b - {x});
    }
  }

  /** When the supervisor has returned, every goroutine it ever started is told to stop. */
  lemma ReturnStopsAll(run: seq<State>, g: nat)
    requires Run(run) && run[|run| - 1].returned && g < |run[|run| - 1].started|
    ensures IsDone(run[|run| - 1], g)
  {
    RunInv(run);
  }

  /** Each state follows from the one before. */
  ghost predicate Steps(run: seq<State>) {
    run != [] && forall i :: 0 <= i < |run| - 1 ==> Next(run[i], run[i + 1])
  }

  lemma NoWatcherStays(s: State, t: State)
    requires Next(s, t) && !s.parentOpen && !s.watching && !s.returned
    ensures !t.parentOpen && !t.watching && !t.returned
  {
  }

  lemma {:induction false} NoWatcherNoReturn(run: seq<State>)
    requires Steps(run) && !run[0].parentOpen && !run[0].watching && !run[0].returned
    ensures !run[|run| - 1].returned
    decreases |run|
  {
    hide Next;
    if |run| > 1 {
      var tail := run[1..];
      assert Next(run[0], run[1]);
      NoWatcherStays(run[0], run[1]);
      assert forall i :: 0 <= i < |tail| ==> tail[i] == run[i + 1];
      NoWatcherNoReturn(tail);
    }
  }

  /**
   * Once the parent context is closed the supervisor can return exactly when it still has a watcher: without one
   * it must list first, which a closed context does not allow.
   */
  lemma CanReturnIffWatching(s: State)
    requires !s.parentOpen && !s.returned
    ensures s.watching <==> exists run: seq<State> :: Steps(run) && run[0] == s && run[|run| - 1].returned
  {
    if s.watching {
      var a := Loop(ListFails, ParentDone);
      assert Enabled(s, a);
      var run := [s, Do(s, a)];
      assert Next(run[0], run[1]);
      assert Steps(run) && run[0] == s && run[|run| - 1].returned;
    } else if run: seq<State> :| Steps(run) && run[0] == s && run[|run| - 1].returned {
      NoWatcherNoReturn(run);
    }
  }

  /** It can come to that: the end of the watcher may be noticed before the end of the parent. */
  lemma NeverReturns(installed: bool) returns (run: seq<State>)
    ensures Run(run)
    ensures
      var last := run[|run| - 1];
      !last.parentOpen && !last.watching && !last.returned
  {
    var s0 := INITIAL;
    var first, second := Loop(Listed(installed), OtherEvent), Loop(ListFails, WatcherDone);
    assert Enabled(s0, first);
    var s1 := Do(s0, first);
    assert Enabled(s1, CloseParent);
    var s2 := Do(s1, CloseParent);
    assert Enabled(s2, second);
    var s3 := Do(s2, second);
    run := [s0, s1, s2, s3];
    assert Next(run[0], run[1]) && Next(run[1], run[2]) && Next(run[2], run[3]);
  }
}
