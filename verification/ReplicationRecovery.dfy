/** What the controllers, left alone, make of an update that was dropped or of events that were missed. */
module ReplicationRecovery {
  import opened Text
  import opened EventCodec
  import opened History
  import opened HistoryLaws
  import opened HistoryStability
  import opened HistoryLoss
  import opened StatusSync
  import opened StatusLaws
  import opened StatusLoss
  import opened Replication
  import opened ReplicationLaws

  // ---------------------------------------------------------------- runs to the end

  /** An undisturbed run that cannot be extended. */
  ghost predicate RunsOut(s: State, rest: seq<State>) {
    rest != [] && rest[0] == s && Undisturbed(rest) && Stuck(rest[|rest| - 1])
  }

  lemma AtRestStays(s: State, t: State)
    requires Quiescent(s)
    ensures !Next(s, t)
  {
  }

  lemma StuckIffAtRest(s: State)
    ensures Stuck(s) <==> Quiescent(s)
  {
    hide Next, Quiescent;
    if !Quiescent(s) {
      var t := NotAtRestSteps(s);
      assert Next(s, t);
    } else {
      forall t ensures !Next(s, t) { AtRestStays(s, t); }
    }
  }

  lemma RunsOutTail(s: State, rest: seq<State>)
    requires RunsOut(s, rest) && |rest| > 1
    ensures Next(s, rest[1]) && RunsOut(rest[1], rest[1..])
  {
    hide Next, Stuck;
    var tail := rest[1..];
    assert Next(rest[0], rest[1]);
    assert forall i :: 0 <= i < |tail| ==> tail[i] == rest[i + 1];
  }

  lemma RunsOutCons(s: State, t: State, rest: seq<State>)
    requires Next(s, t) && RunsOut(t, rest)
    ensures RunsOut(s, [s] + rest)
  {
    hide Next, Stuck;
    var run := [s] + rest;
    assert forall i :: 0 < i < |run| ==> run[i] == rest[i - 1];
    forall i | 0 <= i < |run| - 1 ensures Next(run[i], run[i + 1]) {
      if i > 0 { assert Next(rest[i - 1], rest[i]); }
    }
  }

  /** From every state some run goes to its end. */
  lemma {:induction false} SomeRunOut(s: State) returns (rest: seq<State>)
    requires Versions(s)
    ensures RunsOut(s, rest)
    decreases Bound(s)
  {
    hide Next, Versions, Bound, Quiescent;
    StuckIffAtRest(s);
    if Quiescent(s) {
      rest := [s];
    } else {
      var t := NotAtRestSteps(s);
      NextBounded(s, t);
      VersionsKept(s, t);
      rest := SomeRunOut(t);
      RunsOutCons(s, t, rest);
      rest := [s] + rest;
    }
  }

  // ---------------------------------------------------------------- a dropped update

  /** A request is in a queue or a channel. */
  predicate Waiting(s: State) {
    s.specQueued || s.statusQueued || s.specChannel > 0 || s.statusChannel > 0
  }

  const NO_FAULTS := StatusFaults(false, false, false, false, false, false)

  lemma StatusStepWaits(s: State)
    requires !s.stat.StatusIdle?
    ensures Waiting(s) ==> Waiting(StatusStep(s))
    ensures StatusStep(s).spec == s.spec
    ensures StatusFinish(s, NO_FAULTS) == StatusFinish(StatusStep(s), NO_FAULTS)
  {
    FinishUnfolds(s);
    hide Computed, StatusFinish;
  }

  lemma StatusStepKeepsMismatch(s: State)
    requires !s.stat.StatusIdle? && Versions(s) && Mismatch(s)
    ensures Mismatch(StatusStep(s))
  {
    hide Computed, WellFormed;
    match s.stat
    case StatusWrite(_, _, _) =>
    case StatusWriteHub(_, _) =>
    case _ =>
  }

  lemma FinishUnfolds(s: State)
    requires !s.stat.StatusIdle?
    ensures StatusFinish(s, NO_FAULTS) == StatusFinish(StatusStep(s), NO_FAULTS)
  {
    assert StatusCall(s, NO_FAULTS) == StatusStep(s);
  }

  /** A reconcile of status-sync under way takes no request away. */
  lemma {:induction false} FinishKeepsWaiting(s: State)
    requires Waiting(s)
    ensures Waiting(StatusFinish(s, NO_FAULTS))
    decreases Steps(s.stat)
  {
    hide StatusFinish, Waiting, StatusStep;
    if s.stat.StatusIdle? {
      FinishIdle(s);
    } else {
      StatusStepWaits(s);
      StepsLess(s);
      FinishKeepsWaiting(StatusStep(s));
    }
  }

  lemma FinishIdle(s: State)
    requires s.stat.StatusIdle?
    ensures StatusFinish(s, NO_FAULTS) == s
  {
  }

  /** The calls that a status-sync reconcile can still make. */
  function Steps(pc: StatusPc): nat {
    match pc
    case StatusIdle => 0
    case StatusMissing => 1
    case StatusRead(_) => 5
    case StatusCompute(_, _) => 4
    case StatusWrite(_, _, _) => 3
    case StatusRefetch(_, _) => 2
    case StatusWriteHub(_, _) => 1
  }

  lemma StepsLess(s: State)
    requires !s.stat.StatusIdle?
    ensures Steps(StatusStep(s).stat) < Steps(s.stat)
  {
    hide Computed;
  }

  lemma WaitingIsWatched(s: State)
    requires Mismatch(s) && Waiting(s)
    ensures Watched(s)
  {
  }

  lemma WatchedEndsWell(s: State, rest: seq<State>)
    requires Versions(s) && Watched(s) && RunsOut(s, rest)
    ensures Agree(rest[|rest| - 1]) && (Tracked(s) ==> UpToDate(rest[|rest| - 1]))
  {
    hide Versions, Watched, Tracked, Agree, UpToDate, Stuck, Quiescent, Undisturbed;
    var last := rest[|rest| - 1];
    StuckIffAtRest(last);
    UndisturbedStaysWatched(rest);
    WatchedAtRest(last);
  }

  lemma MismatchDisagrees(s: State)
    requires Mismatch(s)
    ensures !Agree(s)
  {
  }

  /** With nothing waiting and spec-sync idle, status-sync alone can move. */
  lemma OnlyStatusMoves(s: State, t: State)
    requires s.spec.SpecIdle? && !Waiting(s) && Next(s, t)
    ensures !s.stat.StatusIdle? && t == StatusStep(s)
  {
    hide StatusStep, SpecStep;
  }

  /**
   * While the specs differ and spec-sync is idle, the controllers left alone bring the policies to agreement exactly
   * when a request is waiting after the status-sync reconcile under way, if there is one.
   */
  lemma {:induction false} DifferenceHealsIff(s: State, rest: seq<State>)
    requires Versions(s) && Mismatch(s) && s.spec.SpecIdle? && RunsOut(s, rest)
    ensures Agree(rest[|rest| - 1]) <==> Waiting(StatusFinish(s, NO_FAULTS))
    decreases Steps(s.stat)
  {
    hide Versions, Mismatch, Watched, Tracked, Agree, StatusFinish, StatusStep, Next, Stuck, Undisturbed, Quiescent;
    if Waiting(s) {
      WaitingIsWatched(s);
      WatchedEndsWell(s, rest);
      FinishKeepsWaiting(s);
    } else {
      StuckIffAtRest(s);
      if s.stat.StatusIdle? {
        FinishIdle(s);
        NothingToDo(s);
        if |rest| > 1 {
          RunsOutTail(s, rest);
          AtRestStays(s, rest[1]);
        }
        MismatchDisagrees(s);
      } else {
        assert |rest| > 1 by { BusyIsNotAtRest(s); }
        RunsOutTail(s, rest);
        OnlyStatusMoves(s, rest[1]);
        VersionsKept(s, rest[1]);
        StatusStepWaits(s);
        StatusStepKeepsMismatch(s);
        StepsLess(s);
        DifferenceHealsIff(rest[1], rest[1..]);
      }
    }
  }

  lemma NothingToDo(s: State)
    requires s.spec.SpecIdle? && s.stat.StatusIdle? && !Waiting(s)
    ensures Quiescent(s)
  {
  }

  lemma BusyIsNotAtRest(s: State)
    requires !s.stat.StatusIdle?
    ensures !Quiescent(s)
  {
  }

  /**
   * After a dropped update, wherever status-sync stands, the controllers left alone end in agreement exactly when the
   * specs did not differ after all, or a request is waiting once the status-sync reconcile under way is through.
   */
  lemma DropHealsIff(s: State, t: State, rest: seq<State>)
    requires Versions(s) && Watched(s) && DropsUpdate(s, t) && RunsOut(t, rest)
    ensures Agree(rest[|rest| - 1]) <==> !Mismatch(t) || Waiting(StatusFinish(t, NO_FAULTS))
  {
    hide Versions, Watched, Tracked, Agree, Mismatch, StatusFinish, RunsOut, StatusWillCheck;
    VersionsKept(s, t);
    DropForgetsIff(s, t);
    DropKeepsPolicies(s, t);
    if Mismatch(t) {
      DifferenceHealsIff(t, rest);
    } else {
      WatchedEndsWell(t, rest);
    }
  }

  lemma DropKeepsPolicies(s: State, t: State)
    requires DropsUpdate(s, t)
    ensures (Mismatch(t) <==> Mismatch(s)) && t.spec.SpecIdle?
  {
  }

  // ---------------------------------------------------------------- missed events

  /** A status-sync reconcile under way works with the current managed policy, unless the next one is queued. */
  ghost predicate Noted(s: State) {
    !s.statusQueued ==>
      match s.stat
      case StatusIdle => true
      case StatusMissing => s.managed.None?
      case StatusRead(managed) => s.managed == Some(managed)
      case StatusCompute(managed, _) => s.managed == Some(managed)
      case StatusWrite(managed, _, _) => s.managed == Some(managed)
      case StatusRefetch(status, _) => s.managed.Some? && s.managed.value.status == status
      case StatusWriteHub(status, _) => s.managed.Some? && s.managed.value.status == status
  }

  lemma SpecStepNoted(s: State, uid: string)
    requires Noted(s) && (s.specQueued || !s.spec.SpecIdle?)
    ensures Noted(SpecStep(s, uid))
  {
  }

  lemma StatusStepNoted(s: State)
    requires Versions(s) && Noted(s) && (s.statusQueued || !s.stat.StatusIdle?)
    ensures Noted(StatusStep(s))
  {
    hide Computed, WellFormed;
  }

  lemma DisturbNoted(s: State, t: State)
    requires Noted(s) && Disturb(s, t)
    ensures Noted(t)
  {
    hide Expired, WellFormed;
  }

  lemma NextNoted(s: State, t: State)
    requires Versions(s) && Noted(s) && Next(s, t)
    ensures Noted(t)
  {
    hide Versions, SpecStep, StatusStep;
    if (s.specQueued || !s.spec.SpecIdle?) && exists uid :: t == SpecStep(s, uid) {
      var uid :| t == SpecStep(s, uid);
      SpecStepNoted(s, uid);
    } else if (s.statusQueued || !s.stat.StatusIdle?) && t == StatusStep(s) {
      StatusStepNoted(s);
    }
  }

  lemma {:induction false} RunsAreNoted(run: seq<State>)
    requires Run(run) && Started(run[0])
    ensures Noted(run[|run| - 1])
    decreases |run|
  {
    hide Versions, Noted, Started, Next, Disturb;
    if |run| == 1 {
      StartedNoted(run[0]);
    } else {
      var front := run[..|run| - 1];
      var a, b := run[|run| - 2], run[|run| - 1];
      assert forall i :: 0 <= i < |front| ==> front[i] == run[i];
      RunsAreNoted(front);
      RunsAreWatched(front);
      if Next(a, b) { NextNoted(a, b); } else { DisturbNoted(a, b); }
    }
  }

  lemma StartedNoted(s: State)
    requires Started(s)
    ensures Noted(s)
  {
  }

  /** The spec-sync reconcile under way will write the managed policy or tell status-sync. */
  ghost predicate SpecWakes(s: State)
    requires s.managed.Some?
  {
    match s.spec
    case SpecIdle => false
    case SpecDelete => true
    case SpecRead(hub) => hub.spec != s.managed.value.spec || hub.status != s.managed.value.status
    case SpecCreate(_) => false
    case SpecUpdate(_, managed) => s.managed == Some(managed)
  }

  /** Status-sync will fail to write the hub's status, or spec-sync will find that it differs. */
  ghost predicate PublishWakes(s: State)
    requires s.hub.Some? && s.managed.Some?
  {
    || (s.stat.StatusWriteHub? && s.hub != Some(s.stat.hub))
    || (s.stat.StatusIdle? && s.hub.value.status != s.managed.value.status)
  }

  /** The status is up to date or will be computed again, whatever the order of the steps. */
  ghost predicate WillCatchUp(s: State) {
    Tracked(s) || (s.hub.Some? && s.managed.Some? && (SpecWakes(s) || PublishWakes(s)))
  }

  lemma SpecStepCatchesUp(s: State, uid: string)
    requires Versions(s) && !Tracked(s) && (s.specQueued || !s.spec.SpecIdle?)
    ensures WillCatchUp(s) ==> WillCatchUp(SpecStep(s, uid))
    ensures !WillCatchUp(s) && s.stat.StatusIdle? ==>
      !WillCatchUp(SpecStep(s, uid)) && SpecStep(s, uid).stat.StatusIdle?
  {
    hide Recompute, WellFormed;
    match s.spec
    case SpecIdle =>
    case SpecDelete =>
    case SpecRead(hub) =>
    case SpecCreate(hub) =>
    case SpecUpdate(hub, managed) =>
  }

  lemma StatusStepCatchesUp(s: State)
    requires Versions(s) && Noted(s) && !Tracked(s) && (s.statusQueued || !s.stat.StatusIdle?)
    ensures WillCatchUp(s) <==> WillCatchUp(StatusStep(s))
  {
    hide Recompute, WellFormed;
  }

  lemma NextCatchesUp(s: State, t: State)
    requires Versions(s) && Noted(s) && Next(s, t) && WillCatchUp(s)
    ensures WillCatchUp(t)
  {
    hide Versions, SpecStep, StatusStep, Tracked, Noted, Recompute;
    if Tracked(s) {
      NextWatched(s, t);
    } else if (s.specQueued || !s.spec.SpecIdle?) && exists uid :: t == SpecStep(s, uid) {
      var uid :| t == SpecStep(s, uid);
      SpecStepCatchesUp(s, uid);
    } else if (s.statusQueued || !s.stat.StatusIdle?) && t == StatusStep(s) {
      StatusStepCatchesUp(s);
    } else {
      DeliveryTracked(s, t);
    }
  }

  lemma DeliveryTracked(s: State, t: State)
    requires
      || (s.specChannel > 0 && t == s.(specChannel := s.specChannel - 1, specQueued := true))
      || (s.statusChannel > 0 && t == s.(statusChannel := s.statusChannel - 1, statusQueued := true))
    ensures Tracked(s) <==> Tracked(t)
    ensures WillCatchUp(s) <==> WillCatchUp(t)
  {
    hide Recompute;
  }

  lemma NotCatchingUp(s: State)
    requires !WillCatchUp(s)
    ensures !Tracked(s) && !UpToDate(s) && !s.statusQueued && s.statusChannel == 0
  {
    hide Recompute;
  }

  /** The next step of the run that misses the events: status-sync first, then spec-sync. */
  lemma StepWithoutCatchingUp(s: State) returns (t: State)
    requires Versions(s) && Noted(s) && !WillCatchUp(s) && !Quiescent(s)
    ensures Next(s, t) && !WillCatchUp(t)
  {
    NotCatchingUp(s);
    hide SpecStep, StatusStep, WillCatchUp, Tracked, UpToDate, Versions, Noted;
    if !s.stat.StatusIdle? {
      t := StatusStep(s);
      StatusStepCatchesUp(s);
    } else if s.specQueued || !s.spec.SpecIdle? {
      t := SpecStep(s, "");
      SpecStepCatchesUp(s, "");
    } else {
      t := s.(specChannel := s.specChannel - 1, specQueued := true);
      DeliveryTracked(s, t);
    }
  }

  lemma {:induction false} RunWithoutCatchingUp(s: State) returns (rest: seq<State>)
    requires Versions(s) && Noted(s) && !WillCatchUp(s)
    ensures RunsOut(s, rest) && !UpToDate(rest[|rest| - 1])
    decreases Bound(s)
  {
    hide Next, Versions, Bound, Quiescent, Noted, WillCatchUp, UpToDate;
    if Quiescent(s) {
      StuckIffAtRest(s);
      NotCatchingUp(s);
      rest := [s];
    } else {
      var t := StepWithoutCatchingUp(s);
      NextBounded(s, t);
      VersionsKept(s, t);
      NextNoted(s, t);
      rest := RunWithoutCatchingUp(t);
      RunsOutCons(s, t, rest);
      rest := [s] + rest;
    }
  }

  lemma {:induction false} CatchingUpLasts(s: State, rest: seq<State>)
    requires Versions(s) && Noted(s) && WillCatchUp(s) && RunsOut(s, rest)
    ensures WillCatchUp(rest[|rest| - 1])
    decreases |rest|
  {
    hide Next, Versions, Noted, WillCatchUp, Stuck;
    if |rest| > 1 {
      RunsOutTail(s, rest);
      NextCatchesUp(s, rest[1]);
      VersionsKept(s, rest[1]);
      NextNoted(s, rest[1]);
      CatchingUpLasts(rest[1], rest[1..]);
    }
  }

  lemma CaughtUpAtRest(s: State)
    requires Quiescent(s) && Agree(s) && WillCatchUp(s)
    ensures UpToDate(s)
  {
    hide Recompute;
  }

  /** However the steps of the controllers, left alone, are ordered, they end with the status up to date. */
  ghost predicate EndsUpToDate(s: State) {
    forall rest :: RunsOut(s, rest) ==> UpToDate(rest[|rest| - 1])
  }

  /** From any state in which differences are known, the controllers end up to date exactly when WillCatchUp says so. */
  lemma CatchesUpIff(s: State)
    requires Versions(s) && Watched(s) && Noted(s)
    ensures EndsUpToDate(s) <==> WillCatchUp(s)
  {
    hide Versions, Watched, Noted, WillCatchUp, UpToDate, Agree, Quiescent, Stuck, Undisturbed;
    if WillCatchUp(s) {
      forall rest | RunsOut(s, rest) ensures UpToDate(rest[|rest| - 1]) {
        EndsAtRest(s, rest);
        WatchedEndsWell(s, rest);
        CatchingUpLasts(s, rest);
        CaughtUpAtRest(rest[|rest| - 1]);
      }
    } else {
      var rest := RunWithoutCatchingUp(s);
    }
  }

  lemma EndsAtRest(s: State, rest: seq<State>)
    requires RunsOut(s, rest)
    ensures Quiescent(rest[|rest| - 1])
  {
    hide Next, Quiescent;
    StuckIffAtRest(rest[|rest| - 1]);
  }

  /**
   * After the hub's spec is put back, wherever the controllers stand, the events that came meanwhile reach the
   * status exactly when WillCatchUp holds. With both controllers idle that is: they are in it already, status-sync
   * has a request waiting, or the hub's status differs.
   */
  lemma RevertHealsIff(s: State, t: State)
    requires Versions(s) && Noted(s) && Reverts(s, t)
    ensures EndsUpToDate(t) <==> WillCatchUp(t)
    ensures t.spec.SpecIdle? && t.stat.StatusIdle? && t.hub.Some? ==>
      (WillCatchUp(t) <==>
       || UpToDate(t) || t.statusQueued || t.statusChannel > 0
       || t.hub.value.status != t.managed.value.status)
  {
    RevertDisturbs(s, t);
    VersionsKept(s, t);
    WakesWatched(s, t);
    DisturbNoted(s, t);
    CatchesUpIff(t);
    IdleCatchesUp(t);
  }

  lemma RevertDisturbs(s: State, t: State)
    requires Reverts(s, t)
    ensures Wakes(s, t) && Disturb(s, t) && !Mismatch(t)
  {
  }

  lemma IdleCatchesUp(t: State)
    requires !Mismatch(t)
    ensures t.spec.SpecIdle? && t.stat.StatusIdle? && t.hub.Some? ==>
      (WillCatchUp(t) <==>
       || UpToDate(t) || t.statusQueued || t.statusChannel > 0
       || t.hub.value.status != t.managed.value.status)
  {
    hide Recompute;
  }

  /** After events expired, wherever the controllers stand, the same condition decides. */
  lemma ExpiryHealsIff(s: State, t: State)
    requires Versions(s) && Watched(s) && Noted(s) && EventsExpire(s, t)
    ensures EndsUpToDate(t) <==> WillCatchUp(t)
  {
    hide Versions, Watched, Noted, WillCatchUp, EndsUpToDate, EventsExpire, Wakes, DropsUpdate, ReusesHub;
    assert Disturb(s, t);
    VersionsKept(s, t);
    ExpiryWatched(s, t);
    DisturbNoted(s, t);
    CatchesUpIff(t);
  }

  /**
   * A settled policy loses track of its status when events expire, without any edit, exactly when the expiry shows:
   * nobody is woken, both controllers stay at rest and the policies agree.
   */
  lemma ExpiryAtRest(s: State, gone: set<string>)
    requires Versions(s) && Quiescent(s) && Agree(s) && s.hub.Some? && UpToDate(s)
    requires
      var p := s.managed.value;
      AllApart(s.world, gone, p.uid, s.name, p.spec.templates, p.status)
    ensures
      var t := s.(world := Expired(s.world, gone));
      Run([s, t]) && Quiescent(t) && Agree(t) && (UpToDate(t) <==> Unseen(s, gone))
  {
    hide Recompute, Expired, AllApart, Unseen, WellFormed;
    var t := s.(world := Expired(s.world, gone));
    assert EventsExpire(s, t);
    ExpiryOutdatesIff(s, gone);
    var run := [s, t];
    assert Disturb(run[0], run[1]);
  }

  // ---------------------------------------------------------------- an expiry that shows

  const TEMPLATE := Decoded("ConfigurationPolicy", "t", "")

  function SentAt(e: Entry): Event {
    Event(e.name, "uid", EventReason("", "t"), e.message, 0)
  }

  const LOG := [SentAt(NEWEST), SentAt(BETWEEN), SentAt(OLDEST)]
  const SHOWN := Status([Details("t", NonCompliant, [NEWEST])], NonCompliant)

  lemma ReasonIsRead()
    ensures TemplateNameOf(EventReason("", "t")) == Some("t")
  {
    hide TemplateNameOf, EventReason;
    assert "t"[1..] == "";
    assert NamespaceRun("") == 0 && SpaceRun("") == 0;
    assert NamespaceRun("t") == 1;
    ReasonRoundTrip("", "t");
  }

  lemma MessageIsRead()
    ensures RecordedMessage(NEWEST.message) == NEWEST.message
  {
    var message := NEWEST.message;
    ComplianceRoundTrip(NonCompliant, "violation");
    assert message == ComplianceMessage(NonCompliant, "violation");
    hide RecordedMessage, ParseCompliance;
    assert message[|message| - 1] == 'n';
    assert TrimRight(message) == message;
  }

  lemma EventIsRead(e: Entry)
    requires e.time == 0 && e.message == NEWEST.message
    ensures ConcernsTemplate(SentAt(e), "uid", "t") && EntryOf(SentAt(e)) == e
  {
    hide TemplateNameOf, EventReason, RecordedMessage;
    ReasonIsRead();
    MessageIsRead();
  }

  lemma LogIsRead()
    ensures EventsFor(LOG, "uid", "t") == [NEWEST, BETWEEN, OLDEST]
  {
    hide ConcernsTemplate, EntryOf;
    EventIsRead(NEWEST);
    EventIsRead(BETWEEN);
    EventIsRead(OLDEST);
    var one, two := LOG[..1], LOG[..2];
    assert LOG[..|LOG| - 1] == two && two[..1] == one && one[..0] == [];
    assert EventsFor(one[..0], "uid", "t") == [];
    assert EventsFor(one, "uid", "t") == [NEWEST];
    assert EventsFor(two, "uid", "t") == [NEWEST] + [BETWEEN];
    assert EventsFor(LOG, "uid", "t") == [NEWEST, BETWEEN] + [OLDEST];
  }

  lemma LogAfterExpiry()
    ensures EventsFor(LogWithout(LOG, {BETWEEN.name}), "uid", "t") == [NEWEST, OLDEST]
  {
    hide EventsFor;
    LogIsRead();
    EventsForExpired(LOG, {BETWEEN.name}, "uid", "t");
    EventNameRoundTrip("policy", 10_000);
    EventNameRoundTrip("policy", 6_000);
    EventNameRoundTrip("policy", 2_000);
    hide EventName;
    var s := [NEWEST, BETWEEN, OLDEST];
    var keep := Names(s) - {BETWEEN.name};
    assert s[0].name in keep && s[2].name in keep && s[1].name !in keep;
    assert s[1..] == [BETWEEN, OLDEST] && s[1..][1..] == [OLDEST] && [OLDEST][1..] == [];
    assert ByName([OLDEST], keep) == [OLDEST] + ByName([], keep);
    assert ByName([BETWEEN, OLDEST], keep) == [OLDEST];
    assert ByName(s, keep) == [NEWEST] + [OLDEST];
  }

  lemma ShownDetails(w: World, h: seq<Entry>)
    requires w.objects == map[] && Merge(EventsFor(w.log, "uid", "t"), [NEWEST]) == h && h != [] && h[0] == NEWEST
    ensures Recompute(w, "uid", "policy", [TEMPLATE], SHOWN) == Status([Details("t", NonCompliant, h)], NonCompliant)
  {
    hide EventsFor, Merge, ParseCompliance;
    ParsesPrefix(NonCompliant, NEWEST.message);
    var details := SHOWN.details;
    assert [TEMPLATE][..0] == [];
    assert SourcesFor(w, "uid", "policy", TEMPLATE, 0) == EventsFor(w.log, "uid", "t");
    assert FindDetails(details, "t") == Some(details[0]);
    assert TemplateDetails(w, "uid", "policy", TEMPLATE, 0, details) == Details("t", NonCompliant, h);
    assert AllDetails(w, "uid", "policy", [TEMPLATE][..0], details) == [];
    var all := AllDetails(w, "uid", "policy", [TEMPLATE], details);
    assert all == [] + [TemplateDetails(w, "uid", "policy", TEMPLATE, 0, details)];
    assert all[0].compliance == NonCompliant;
  }

  /** A settled policy whose status is no longer what status-sync would compute once an event has expired. */
  lemma ExpiryShowsInSomeRun() returns (s: State, t: State)
    ensures Versions(s) && Quiescent(s) && Agree(s) && UpToDate(s) && EventsExpire(s, t)
    ensures Quiescent(t) && Agree(t) && !UpToDate(t)
  {
    hide EventsFor, Merge, Recompute, LogWithout;
    var w := World(LOG, true, map[], {});
    var p := Policy(Spec(map[], [TEMPLATE], ""), SHOWN, "uid", 0);
    s := State("policy", w, Some(p), Some(p), 0, false, false, 0, 0, SpecIdle, StatusIdle);
    t := s.(world := Expired(w, {BETWEEN.name}));
    LogIsRead();
    LogAfterExpiry();
    ExpiryUncovers();
    ShownDetails(w, [NEWEST]);
    ShownDetails(t.world, [NEWEST, OLDEST]);
    assert |SHOWN.details[0].history| == 1;
  }
}
