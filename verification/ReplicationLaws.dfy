/** Spec-sync and status-sync always come to rest, and at rest hub and managed cluster agree. */
module ReplicationLaws {
  import opened Text
  import opened EventCodec
  import opened StatusSync
  import opened StatusLaws
  import opened StatusLoss
  import opened Replication

  /** One of the two policies is missing or has the wrong spec. */
  ghost predicate Mismatch(s: State) {
    if s.hub.None? then s.managed.Some? else s.managed.None? || s.hub.value.spec != s.managed.value.spec
  }

  // ---------------------------------------------------------------- nothing is forgotten

  /** Spec-sync will look at the current pair of policies. */
  ghost predicate SpecWillCheck(s: State) {
    || s.specQueued || s.specChannel > 0
    || (match s.spec
        case SpecIdle => false
        case SpecDelete => s.hub.None?
        case SpecRead(hub) => s.hub.Some? && s.hub.value.spec == hub.spec
        case SpecCreate(hub) => s.managed.None? && s.hub.Some? && s.hub.value.spec == hub.spec
        case SpecUpdate(hub, managed) => s.managed == Some(managed) && s.hub.Some? && s.hub.value.spec == hub.spec)
  }

  ghost predicate StatusWillCheck(s: State) {
    || s.statusQueued || s.statusChannel > 0
    || (s.stat.StatusMissing? && s.managed.None?)
    || (s.stat.StatusRead? && s.managed == Some(s.stat.managed))
  }

  ghost predicate StatusWillCompute(s: State) {
    || s.statusQueued || s.statusChannel > 0
    || ((s.stat.StatusRead? || s.stat.StatusCompute? || s.stat.StatusWrite?) && s.managed == Some(s.stat.managed))
  }

  ghost predicate SpecWillCompare(s: State) {
    s.specQueued || s.specChannel > 0 || (s.spec.SpecRead? && s.hub == Some(s.spec.hub))
  }

  ghost predicate StatusWillPublish(s: State) {
    || s.statusQueued || s.statusChannel > 0
    || (s.stat.StatusRead? && s.managed == Some(s.stat.managed))
    || ((s.stat.StatusCompute? || s.stat.StatusWrite?)
        && s.hub == Some(s.stat.hub) && s.managed == Some(s.stat.managed))
    || (s.stat.StatusRefetch? && s.hub == Some(s.stat.hub)
        && s.managed.Some? && s.managed.value.status == s.stat.status)
    || (s.stat.StatusWriteHub? && s.managed.Some? && s.managed.value.status == s.stat.status)
  }

  /** A difference between hub and managed cluster is known to some request. */
  ghost predicate Watched(s: State) {
    if Mismatch(s) then SpecWillCheck(s) || StatusWillCheck(s)
    else s.hub.Some? ==>
      s.hub.value.status == s.managed.value.status || SpecWillCompare(s) || StatusWillPublish(s)
  }

  /** Events or template objects that the status lacks are known to some request. */
  ghost predicate Tracked(s: State) {
    !Mismatch(s) && s.hub.Some? ==> UpToDate(s) || StatusWillCompute(s)
  }

  lemma SpecReadWatched(s: State, uid: string)
    requires Versions(s) && (s.spec.SpecRead? || (s.spec.SpecIdle? && s.specQueued))
    ensures Watched(s) ==> Watched(SpecStep(s, uid))
    ensures Tracked(s) ==> Tracked(SpecStep(s, uid))
  {
    hide Recompute, WellFormed;
    if s.spec.SpecRead? {
    } else {
    }
  }

  lemma SpecWriteWatched(s: State, uid: string)
    requires Versions(s) && (s.spec.SpecDelete? || s.spec.SpecCreate? || s.spec.SpecUpdate?)
    ensures Watched(s) ==> Watched(SpecStep(s, uid))
    ensures Tracked(s) ==> Tracked(SpecStep(s, uid))
  {
    hide Recompute, WellFormed;
    match s.spec
    case SpecDelete =>
    case SpecCreate(hub) =>
    case SpecUpdate(hub, managed) =>
  }

  lemma SpecStepWatched(s: State, uid: string)
    requires Versions(s) && (s.specQueued || !s.spec.SpecIdle?)
    ensures Watched(s) ==> Watched(SpecStep(s, uid))
    ensures Tracked(s) ==> Tracked(SpecStep(s, uid))
  {
    hide Versions, Watched, Tracked, SpecStep;
    if s.spec.SpecRead? || s.spec.SpecIdle? {
      SpecReadWatched(s, uid);
    } else {
      SpecWriteWatched(s, uid);
    }
  }

  lemma StatusStepWatched(s: State)
    requires Versions(s) && (s.statusQueued || !s.stat.StatusIdle?)
    ensures Watched(s) ==> Watched(StatusStep(s))
    ensures Tracked(s) ==> Tracked(StatusStep(s))
  {
    hide Recompute, WellFormed;
    match s.stat
    case StatusIdle =>
    case StatusMissing =>
    case StatusRead(managed) =>
    case StatusCompute(managed, hub) =>
    case StatusWrite(managed, status, hub) =>
    case StatusRefetch(status, hub) =>
    case StatusWriteHub(status, hub) =>
  }

  /** An outside edit that makes the hub policy equal again to a managed policy that differed. */
  ghost predicate Reverts(s: State, t: State) {
    EditHub(s, t) && Mismatch(s) && !Mismatch(t)
  }

  /** Events expire that are set apart from the others and leave no trace in the status. */
  ghost predicate ExpiresUnseen(s: State, t: State) {
    exists gone :: t == s.(world := Expired(s.world, gone)) && Unseen(s, gone)
  }

  ghost predicate Unseen(s: State, gone: set<string>) {
    s.managed.Some? ==>
      var p := s.managed.value;
      && AllApart(s.world, gone, p.uid, s.name, p.spec.templates, p.status)
      && ExpiryHides(s.world, gone, p.uid, s.name, p.spec.templates, p.status)
  }

  /** The status may be out of date from now on without anybody knowing. */
  ghost predicate Misses(s: State, t: State) {
    Reverts(s, t) || (EventsExpire(s, t) && !ExpiresUnseen(s, t))
  }

  /** A status that is up to date is so after the expiry exactly when this leaves no trace in it. */
  lemma ExpiryOutdatesIff(s: State, gone: set<string>)
    requires Versions(s) && !Mismatch(s) && s.hub.Some? && UpToDate(s)
    requires
      var p := s.managed.value;
      AllApart(s.world, gone, p.uid, s.name, p.spec.templates, p.status)
    ensures UpToDate(s.(world := Expired(s.world, gone))) <==> Unseen(s, gone)
  {
    hide Recompute, Expired, AllApart, ExpiryHides, Distinct, TNames;
    var p := s.managed.value;
    StatusOutlivesExpiryIff(s.world, gone, p.uid, s.name, p.spec.templates, p.status);
  }

  lemma ExpiryWatched(s: State, t: State)
    requires Versions(s) && EventsExpire(s, t)
    ensures Watched(s) ==> Watched(t)
    ensures Tracked(s) && ExpiresUnseen(s, t) ==> Tracked(t)
  {
    hide Recompute, Expired, WellFormed, Unseen;
    if Tracked(s) && ExpiresUnseen(s, t) && !Mismatch(s) && s.hub.Some? && UpToDate(s) {
      var gone :| t == s.(world := Expired(s.world, gone)) && Unseen(s, gone);
      UnseenMeansApart(s, gone);
      ExpiryOutdatesIff(s, gone);
    }
  }

  lemma UnseenMeansApart(s: State, gone: set<string>)
    requires Unseen(s, gone) && s.managed.Some?
    ensures
      var p := s.managed.value;
      AllApart(s.world, gone, p.uid, s.name, p.spec.templates, p.status)
  {
  }

  /** Whatever went unnoticed before, a disturbance that queues a request brings it to notice. */
  lemma WakesWatched(s: State, t: State)
    requires Wakes(s, t)
    ensures Watched(t)
    ensures (Tracked(s) && !Reverts(s, t)) || WakesStatus(s, t) ==> Tracked(t)
  {
    hide Recompute, WellFormed;
    if EditHub(s, t) {
    } else if EditManaged(s, t) {
    } else if t == s.(world := t.world, statusQueued := true) {
    } else if t == RetryStatus(s) {
    } else {
    }
  }

  /** Going on with the hub policy read before loses nothing: an edit of it since is known to spec-sync. */
  lemma ReusesHubWatched(s: State, t: State)
    requires ReusesHub(s, t)
    ensures Watched(s) ==> Watched(t)
    ensures Tracked(s) ==> Tracked(t)
  {
    hide Recompute, WellFormed;
  }

  /** A dropped update is forgotten exactly when nothing else will look at the difference it leaves. */
  lemma DropForgetsIff(s: State, t: State)
    requires DropsUpdate(s, t)
    ensures Watched(s) ==>
      (Watched(t) <==> !Mismatch(s) || s.specQueued || s.specChannel > 0 || StatusWillCheck(s))
    ensures Tracked(s) ==> Tracked(t)
  {
    hide Recompute, WellFormed;
  }

  lemma DisturbWatched(s: State, t: State)
    requires Versions(s) && Disturb(s, t)
    ensures (Watched(s) && !DropsUpdate(s, t)) || Wakes(s, t) ==> Watched(t)
    ensures (Tracked(s) && !Misses(s, t)) || WakesStatus(s, t) ==> Tracked(t)
  {
    assert WakesStatus(s, t) ==> Wakes(s, t);
    hide Versions, Watched, Tracked, Wakes, WakesStatus, ReusesHub, DropsUpdate, Reverts, EventsExpire, ExpiresUnseen;
    if Wakes(s, t) {
      WakesWatched(s, t);
    } else if ReusesHub(s, t) {
      ReusesHubWatched(s, t);
    } else if DropsUpdate(s, t) {
      DropForgetsIff(s, t);
    } else {
      ExpiryWatched(s, t);
    }
  }

  lemma NextWatched(s: State, t: State)
    requires Versions(s) && Next(s, t)
    ensures Versions(t)
    ensures Watched(s) ==> Watched(t)
    ensures Tracked(s) ==> Tracked(t)
  {
    hide Versions, SpecStep, StatusStep;
    VersionsKept(s, t);
    if (s.specQueued || !s.spec.SpecIdle?) && exists uid :: t == SpecStep(s, uid) {
      var uid :| t == SpecStep(s, uid);
      SpecStepWatched(s, uid);
    } else if (s.statusQueued || !s.stat.StatusIdle?) && t == StatusStep(s) {
      StatusStepWatched(s);
    }
  }

  // ---------------------------------------------------------------- every run comes to rest

  /** How far the managed policy is from having the hub's spec. */
  ghost function SpecDistance(s: State): nat {
    if !Mismatch(s) then 0 else if s.hub.Some? && s.managed.None? then 2 else 1
  }

  ghost function After(w: World, name: string, p: Policy): Policy {
    p.(status := Recompute(w, p.uid, name, p.spec.templates, p.status))
  }

  /** How many status updates of the managed policy can still come. */
  ghost function StatusDistance(w: World, name: string, p: Policy): (d: nat)
    ensures d <= 3
  {
    var once := After(w, name, p);
    var twice := After(w, name, once);
    var thrice := After(w, name, twice);
    if once.status == p.status then 0
    else if twice.status == once.status then 1
    else if thrice.status == twice.status then 2
    else 3
  }

  /** A spec-sync reconcile is under way with a hub policy, or the lack of one, that is no longer true. */
  ghost predicate SpecOutdated(s: State) {
    match s.spec
    case SpecIdle => false
    case SpecDelete => s.hub.Some?
    case _ => s.hub.None? || s.hub.value.spec != s.spec.hub.spec
  }

  /** A status-sync reconcile is under way with data that is no longer true. */
  ghost predicate StatusOutdated(s: State) {
    match s.stat
    case StatusIdle => false
    case StatusMissing => s.managed.Some?
    case StatusRead(managed) => s.managed != Some(managed)
    case StatusCompute(managed, _) => s.managed != Some(managed) || Mismatch(s)
    case StatusWrite(managed, status, _) =>
      s.managed != Some(managed) || Mismatch(s) || status != Computed(s, managed)
    case StatusRefetch(status, _) => s.managed.None? || Mismatch(s) || s.managed.value.status != status
    case StatusWriteHub(status, hub) =>
      s.managed.None? || Mismatch(s) || s.managed.value.status != status || s.hub != Some(hub)
  }

  ghost function Rank(s: State): nat {
    (if SpecOutdated(s) then 300 else 0)
    + 60 * SpecDistance(s)
    + (if StatusOutdated(s) then 20 else 0)
    + (if Mismatch(s) then 16 else if s.hub.None? then 0 else 4 * StatusDistance(s.world, s.name, s.managed.value))
    + (if !Mismatch(s) && s.hub.Some? && s.hub.value.status != s.managed.value.status then 1 else 0)
  }

  /** Until the specs are known to match, a status-sync request can still cause a spec-sync request. */
  ghost predicate Unsettled(s: State) {
    SpecOutdated(s) || Mismatch(s)
  }

  ghost function SpecPcWork(s: State): nat {
    match s.spec
    case SpecIdle => 0
    case SpecDelete => 2
    case SpecRead(_) => 7
    case SpecCreate(_) => if s.managed.None? then 2 else 20
    case SpecUpdate(_, managed) => if s.managed == Some(managed) then 2 else 20
  }

  ghost function StatusPcWork(s: State): nat {
    var outdated := StatusOutdated(s);
    match s.stat
    case StatusIdle => 0
    case StatusMissing => if Unsettled(s) || outdated then 10 else 1
    case StatusRead(_) => if outdated then 40 else if Unsettled(s) then 10 else 4
    case StatusCompute(_, _) => if outdated then 38 else 3
    case StatusWrite(_, _, _) => if outdated then 35 else 2
    case StatusRefetch(_, _) => if outdated then 3 else 2
    case StatusWriteHub(_, _) => if outdated then 2 else 1
  }

  ghost function Work(s: State): nat {
    9 * s.specChannel + (if s.specQueued then 8 else 0)
    + (if Unsettled(s) then 12 * s.statusChannel else 6 * s.statusChannel)
    + (if s.statusQueued then if Unsettled(s) then 11 else 5 else 0)
    + SpecPcWork(s) + StatusPcWork(s)
  }

  /** A bound on the number of steps that can still be taken undisturbed. */
  ghost function Bound(s: State): nat {
    128 * Rank(s) + Work(s)
  }

  /** Each status update of the managed policy brings it closer to its final status. */
  lemma StatusWriteAdvances(w: World, name: string, p: Policy, version: nat)
    requires Distinct(TNames(p.spec.templates)) && After(w, name, p).status != p.status
    ensures StatusDistance(w, name, After(w, name, p).(version := version)) < StatusDistance(w, name, p)
  {
    hide Recompute;
    StatusConverges(w, p.uid, name, p.spec.templates, p.status);
  }

  /** Less is left to do: a lower rank, or the same rank and less work. */
  ghost predicate Progress(s: State, t: State) {
    || (Rank(t) < Rank(s) && Work(t) < Work(s) + 128)
    || (Rank(t) == Rank(s) && Work(t) < Work(s))
  }

  lemma SpecStartProgress(s: State, uid: string)
    requires s.spec.SpecIdle? && s.specQueued
    ensures Progress(s, SpecStep(s, uid))
  {
    hide StatusDistance, Recompute;
  }

  lemma SpecDeleteProgress(s: State, uid: string)
    requires s.spec.SpecDelete?
    ensures Progress(s, SpecStep(s, uid))
  {
    hide StatusDistance, Computed;
    if s.hub.Some? || s.managed.None? {
    } else {
    }
  }

  lemma SpecReadProgress(s: State, uid: string)
    requires s.spec.SpecRead?
    ensures Progress(s, SpecStep(s, uid))
  {
    hide StatusDistance, Recompute;
    if SpecOutdated(s) {
    } else if s.managed.None? {
    } else {
    }
  }

  lemma SpecCreateProgress(s: State, uid: string)
    requires s.spec.SpecCreate?
    ensures Progress(s, SpecStep(s, uid))
  {
    hide StatusDistance, Recompute;
    if s.managed.Some? {
    } else if SpecOutdated(s) {
    } else {
    }
  }

  lemma SpecUpdateProgress(s: State, uid: string)
    requires s.spec.SpecUpdate? && Versions(s)
    ensures Progress(s, SpecStep(s, uid))
  {
    hide StatusDistance, Recompute, WellFormed;
    if s.managed != Some(s.spec.managed) {
    } else if SpecOutdated(s) {
    } else {
    }
  }

  lemma SpecStepBounded(s: State, uid: string)
    requires Versions(s) && (s.specQueued || !s.spec.SpecIdle?)
    ensures Bound(SpecStep(s, uid)) < Bound(s)
  {
    hide Rank, Work, SpecStep, Versions;
    match s.spec
    case SpecIdle => SpecStartProgress(s, uid);
    case SpecDelete => SpecDeleteProgress(s, uid);
    case SpecRead(_) => SpecReadProgress(s, uid);
    case SpecCreate(_) => SpecCreateProgress(s, uid);
    case SpecUpdate(_, _) => SpecUpdateProgress(s, uid);
  }

  lemma StatusStartProgress(s: State)
    requires s.stat.StatusIdle? && s.statusQueued
    ensures Progress(s, StatusStep(s))
  {
    hide StatusDistance, Recompute;
  }

  lemma StatusMissingProgress(s: State)
    requires s.stat.StatusMissing?
    ensures Progress(s, StatusStep(s))
  {
    hide StatusDistance, Recompute;
  }

  lemma StatusReadProgress(s: State)
    requires s.stat.StatusRead?
    ensures Progress(s, StatusStep(s))
  {
    hide StatusDistance, Recompute;
    if StatusOutdated(s) {
    } else if Mismatch(s) {
    } else {
    }
  }

  lemma StatusComputeProgress(s: State)
    requires s.stat.StatusCompute?
    ensures Progress(s, StatusStep(s))
  {
    hide StatusDistance, Recompute;
  }

  lemma StatusWriteProgress(s: State)
    requires s.stat.StatusWrite? && Versions(s)
    ensures Progress(s, StatusStep(s))
  {
    hide StatusDistance, Recompute;
    var managed := s.stat.managed;
    if s.managed != Some(managed) {
    } else if Mismatch(s) {
    } else if StatusOutdated(s) {
    } else {
      assert After(s.world, s.name, managed).status == Computed(s, managed);
      StatusWriteAdvances(s.world, s.name, managed, s.clock + 1);
    }
  }

  lemma StatusRefetchProgress(s: State)
    requires s.stat.StatusRefetch?
    ensures Progress(s, StatusStep(s))
  {
    hide StatusDistance, Recompute;
  }

  lemma StatusWriteHubProgress(s: State)
    requires s.stat.StatusWriteHub? && Versions(s)
    ensures Progress(s, StatusStep(s))
  {
    hide StatusDistance, Recompute, WellFormed;
    if s.hub != Some(s.stat.hub) {
    } else if StatusOutdated(s) {
    } else {
    }
  }

  lemma StatusStepBounded(s: State)
    requires Versions(s) && (s.statusQueued || !s.stat.StatusIdle?)
    ensures Bound(StatusStep(s)) < Bound(s)
  {
    hide Rank, Work, StatusStep, Versions;
    match s.stat
    case StatusIdle => StatusStartProgress(s);
    case StatusMissing => StatusMissingProgress(s);
    case StatusRead(_) => StatusReadProgress(s);
    case StatusCompute(_, _) => StatusComputeProgress(s);
    case StatusWrite(_, _, _) => StatusWriteProgress(s);
    case StatusRefetch(_, _) => StatusRefetchProgress(s);
    case StatusWriteHub(_, _) => StatusWriteHubProgress(s);
  }

  lemma SpecDeliveryBounded(s: State)
    requires s.specChannel > 0
    ensures Bound(s.(specChannel := s.specChannel - 1, specQueued := true)) < Bound(s)
  {
    hide StatusDistance, Recompute;
    var t := s.(specChannel := s.specChannel - 1, specQueued := true);
    assert Rank(t) == Rank(s);
    assert SpecPcWork(t) == SpecPcWork(s) && StatusPcWork(t) == StatusPcWork(s) && Unsettled(t) == Unsettled(s);
    hide Rank, SpecPcWork, StatusPcWork, Unsettled;
  }

  lemma StatusDeliveryBounded(s: State)
    requires s.statusChannel > 0
    ensures Bound(s.(statusChannel := s.statusChannel - 1, statusQueued := true)) < Bound(s)
  {
    hide StatusDistance, Recompute;
    var t := s.(statusChannel := s.statusChannel - 1, statusQueued := true);
    assert Rank(t) == Rank(s);
    assert SpecPcWork(t) == SpecPcWork(s) && StatusPcWork(t) == StatusPcWork(s) && Unsettled(t) == Unsettled(s);
    hide Rank, SpecPcWork, StatusPcWork, Unsettled;
  }

  lemma NextBounded(s: State, t: State)
    requires Versions(s) && Next(s, t)
    ensures Bound(t) < Bound(s)
  {
    hide Bound, Versions, SpecStep, StatusStep;
    if (s.specQueued || !s.spec.SpecIdle?) && exists uid :: t == SpecStep(s, uid) {
      var uid :| t == SpecStep(s, uid);
      SpecStepBounded(s, uid);
    } else if (s.statusQueued || !s.stat.StatusIdle?) && t == StatusStep(s) {
      StatusStepBounded(s);
    } else if s.specChannel > 0 && t == s.(specChannel := s.specChannel - 1, specQueued := true) {
      SpecDeliveryBounded(s);
    } else {
      StatusDeliveryBounded(s);
    }
  }

  /** A finite sequence of states, each following from the one before. */
  ghost predicate Run(run: seq<State>) {
    run != [] && forall i :: 0 <= i < |run| - 1 ==> Next(run[i], run[i + 1]) || Disturb(run[i], run[i + 1])
  }

  ghost predicate Undisturbed(run: seq<State>) {
    forall i :: 0 <= i < |run| - 1 ==> Next(run[i], run[i + 1])
  }

  /** No livelock: left alone from any reachable state, the two controllers stop within the bound. */
  lemma {:induction false} UndisturbedRunsAreBounded(run: seq<State>)
    requires run != [] && Undisturbed(run) && Versions(run[0])
    ensures |run| - 1 <= Bound(run[0])
    decreases |run|
  {
    if |run| > 1 {
      var tail := run[1..];
      assert Next(run[0], run[1]);
      NextBounded(run[0], run[1]);
      VersionsKept(run[0], run[1]);
      assert forall i :: 0 <= i < |tail| ==> tail[i] == run[i + 1];
      UndisturbedRunsAreBounded(tail);
    }
  }

  /** Every update that is dropped is followed by a disturbance that queues a request. */
  ghost predicate Recovers(run: seq<State>) {
    forall i :: 0 <= i < |run| - 1 && DropsUpdate(run[i], run[i + 1]) ==> WakesAfter(run, i)
  }

  ghost predicate WakesAfter(run: seq<State>, i: int)
    requires 0 <= i < |run|
  {
    exists j :: i < j < |run| - 1 && Wakes(run[j], run[j + 1])
  }

  /**
   * Every revert of the hub's spec, and every expiry of events that shows, is followed by a disturbance that queues
   * a status-sync request.
   */
  ghost predicate CatchesUp(run: seq<State>) {
    forall i :: 0 <= i < |run| - 1 && Misses(run[i], run[i + 1]) ==> WakesStatusAfter(run, i)
  }

  ghost predicate WakesStatusAfter(run: seq<State>, i: int)
    requires 0 <= i < |run|
  {
    exists j :: i < j < |run| - 1 && WakesStatus(run[j], run[j + 1])
  }

  lemma CatchesUpBefore(run: seq<State>)
    requires |run| > 1 && CatchesUp(run) && !WakesStatus(run[|run| - 2], run[|run| - 1])
    ensures CatchesUp(run[..|run| - 1]) && !Misses(run[|run| - 2], run[|run| - 1])
  {
    hide WakesStatus, Misses;
    var front := run[..|run| - 1];
    forall i | 0 <= i < |run| - 1 && Misses(run[i], run[i + 1])
      ensures i < |front| - 1 && WakesStatusAfter(front, i)
    {
      var j :| i < j < |run| - 1 && WakesStatus(run[j], run[j + 1]);
      assert WakesStatus(front[j], front[j + 1]);
    }
  }

  lemma RecoversBefore(run: seq<State>)
    requires |run| > 1 && Recovers(run) && !Wakes(run[|run| - 2], run[|run| - 1])
    ensures Recovers(run[..|run| - 1]) && !DropsUpdate(run[|run| - 2], run[|run| - 1])
  {
    hide Wakes, DropsUpdate;
    var front := run[..|run| - 1];
    forall i | 0 <= i < |run| - 1 && DropsUpdate(run[i], run[i + 1]) ensures i < |front| - 1 && WakesAfter(front, i) {
      var j :| i < j < |run| - 1 && Wakes(run[j], run[j + 1]);
      assert Wakes(front[j], front[j + 1]);
    }
  }

  lemma StartedWatched(s: State)
    requires Started(s)
    ensures Versions(s) && Watched(s) && Tracked(s)
  {
    hide Recompute, WellFormed;
  }

  lemma StepWatched(s: State, t: State)
    requires Versions(s) && (Next(s, t) || Disturb(s, t))
    ensures Versions(t)
    ensures (Watched(s) && !DropsUpdate(s, t)) || Wakes(s, t) ==> Watched(t)
    ensures (Tracked(s) && !Misses(s, t)) || WakesStatus(s, t) ==> Tracked(t)
  {
    assert WakesStatus(s, t) ==> Wakes(s, t);
    assert Wakes(s, t) ==> Disturb(s, t);
    hide *;
    VersionsKept(s, t);
    if Next(s, t) { NextWatched(s, t); }
    if Disturb(s, t) { DisturbWatched(s, t); }
  }

  lemma {:induction false} RunsAreWatched(run: seq<State>)
    requires Run(run) && Started(run[0])
    ensures
      var last := run[|run| - 1];
      && Versions(last)
      && (Recovers(run) ==> Watched(last))
      && (CatchesUp(run) ==> Tracked(last))
    decreases |run|
  {
    hide Versions, Watched, Tracked, Started, Misses, Wakes, WakesStatus, DropsUpdate, Disturb, Next;
    hide Recovers, CatchesUp;
    if |run| == 1 {
      StartedWatched(run[0]);
    } else {
      var front := run[..|run| - 1];
      var a, b := run[|run| - 2], run[|run| - 1];
      assert forall i :: 0 <= i < |front| ==> front[i] == run[i];
      RunsAreWatched(front);
      if Recovers(run) && !Wakes(a, b) { RecoversBefore(run); }
      if CatchesUp(run) && !WakesStatus(a, b) { CatchesUpBefore(run); }
      StepWatched(a, b);
    }
  }

  lemma WatchedAtRest(s: State)
    requires Quiescent(s) && Watched(s)
    ensures Agree(s) && (Tracked(s) ==> UpToDate(s))
  {
    hide Recompute;
  }

  /**
   * Whatever others do in between, when both controllers are at rest the two policies are both absent or agree on
   * annotations, spec and status, unless an update was dropped and nothing woke the controllers since. The status
   * is also up to date unless an outside edit reverted the hub's spec, or an expiry of events shows, and nothing woke
   * status-sync since.
   */
  lemma RestMeansAgreement(run: seq<State>)
    requires Run(run) && Started(run[0]) && Quiescent(run[|run| - 1]) && Recovers(run)
    ensures Agree(run[|run| - 1])
    ensures CatchesUp(run) ==> UpToDate(run[|run| - 1])
  {
    RunsAreWatched(run);
    WatchedAtRest(run[|run| - 1]);
  }

  /** Neither controller nor a channel can do anything. */
  ghost predicate Stuck(s: State) {
    forall t :: !Next(s, t)
  }

  /** A state that is not at rest has a next step. */
  lemma NotAtRestSteps(s: State) returns (t: State)
    requires !Quiescent(s)
    ensures Next(s, t)
  {
    hide SpecStep, StatusStep;
    if s.specQueued || !s.spec.SpecIdle? {
      t := SpecStep(s, "");
    } else if s.statusQueued || !s.stat.StatusIdle? {
      t := StatusStep(s);
    } else if s.specChannel > 0 {
      t := s.(specChannel := s.specChannel - 1, specQueued := true);
    } else {
      t := s.(statusChannel := s.statusChannel - 1, statusQueued := true);
    }
  }

  lemma {:induction false} UndisturbedStaysWatched(run: seq<State>)
    requires run != [] && Undisturbed(run) && Versions(run[0])
    ensures
      var last := run[|run| - 1];
      && (Watched(run[0]) ==> Watched(last))
      && (Tracked(run[0]) ==> Tracked(last))
    decreases |run|
  {
    hide Versions, Watched, Tracked, Next;
    if |run| > 1 {
      var tail := run[1..];
      assert Next(run[0], run[1]);
      NextWatched(run[0], run[1]);
      assert forall i :: 0 <= i < |tail| ==> tail[i] == run[i + 1];
      UndisturbedStaysWatched(tail);
    }
  }

  /**
   * Left alone after any run in which no update was dropped for good, the controllers stop within the bound, and
   * wherever they can go no further the two policies agree and, unless a revert or an expiry was missed, the status is
   * up to date.
   */
  lemma ControllersSettle(run: seq<State>, rest: seq<State>)
    requires Run(run) && Started(run[0]) && Recovers(run)
    requires rest != [] && rest[0] == run[|run| - 1] && Undisturbed(rest)
    ensures |rest| - 1 <= Bound(rest[0])
    ensures
      var last := rest[|rest| - 1];
      Stuck(last) ==> Agree(last) && (CatchesUp(run) ==> UpToDate(last))
  {
    hide Bound, Next, Versions, Watched, Tracked, Agree, UpToDate, Quiescent, Recovers, CatchesUp;
    RunsAreWatched(run);
    UndisturbedRunsAreBounded(rest);
    UndisturbedStaysWatched(rest);
    var last := rest[|rest| - 1];
    if !Quiescent(last) {
      var _ := NotAtRestSteps(last);
    } else {
      WatchedAtRest(last);
    }
  }

  /**
   * The exception is real. Status-sync drops a request when the specs differ, counting on the spec-sync update to
   * wake it again; if the hub's spec is put back first, no update comes and the new events stay out of the status.
   */
  lemma RevertLosesEvents(s: State, other: Spec, w: World) returns (run: seq<State>)
    requires Versions(s) && Quiescent(s) && Agree(s) && s.hub.Some?
    requires other != s.hub.value.spec && Distinct(TNames(other.templates))
    requires !UpToDate(s.(world := w))
    ensures Run(run) && run[0] == s
    ensures
      var last := run[|run| - 1];
      Quiescent(last) && Agree(last) && !UpToDate(last) && last.world == w
  {
    hide Recompute, Distinct, TNames;
    var hub := s.hub.value;
    var s1 := s.(hub := Some(hub.(spec := other, version := s.clock + 1)), clock := s.clock + 1, specQueued := true);
    var s2 := s1.(world := w, statusQueued := true);
    var s3 := StatusStep(s2);
    var s4 := StatusStep(s3);
    var s5 := s4.(hub := Some(hub.(version := s.clock + 2)), clock := s.clock + 2);
    var s6 := s5.(specChannel := 0);
    var s7 := SpecStep(s6, "");
    var s8 := SpecStep(s7, "");
    assert EditHub(s, s1) && Disturb(s1, s2) && Next(s2, s3) && Next(s3, s4) && EditHub(s4, s5);
    assert Next(s5, s6) && Next(s6, s7) && Next(s7, s8);
    run := [s, s1, s2, s3, s4, s5, s6, s7, s8];
  }

  /**
   * So is the other one. Spec-sync returns the error of a failed update only if the managed policy is gone; after
   * any other failure nothing is queued, and the controllers rest with the hub's new spec never copied.
   */
  lemma DroppedUpdateLosesSpec(s: State, other: Spec) returns (run: seq<State>)
    requires Versions(s) && Quiescent(s) && Agree(s) && s.hub.Some?
    requires other != s.hub.value.spec && Distinct(TNames(other.templates))
    ensures Run(run) && run[0] == s && !Recovers(run)
    ensures
      var last := run[|run| - 1];
      Quiescent(last) && !Agree(last) && last.hub.Some? && last.hub.value.spec == other && last.managed == s.managed
  {
    hide Recompute, Distinct, TNames;
    var hub := s.hub.value.(spec := other, version := s.clock + 1);
    var s1 := s.(hub := Some(hub), clock := s.clock + 1, specQueued := true);
    var s2 := SpecStep(s1, "");
    var s3 := SpecStep(s2, "");
    var s4 := SpecFail(s3);
    assert EditHub(s, s1) && Next(s1, s2) && Next(s2, s3) && DropsUpdate(s3, s4);
    run := [s, s1, s2, s3, s4];
    assert DropsUpdate(run[3], run[4]);
  }
}
