/**
 * Spec-sync and status-sync on one policy, one API call at a time. Each controller works through its own queue,
 * reads snapshots and writes them back under optimistic locking, and wakes the other through watches and channels.
 */
module Replication {
  import opened Text
  import opened EventCodec
  import opened StatusSync
  import opened StatusLaws
  import opened StatusLoss

  /** What EquivalentReplicatedPolicies compares. */
  datatype Spec = Spec(annotations: map<string, string>, templates: seq<Template>, settings: string)

  datatype Policy = Policy(spec: Spec, status: Status, uid: string, version: nat)

  const EMPTY_STATUS := Status([], Unknown)

  /** Where a spec-sync reconcile stands: which API call it makes next, with what it has read. */
  datatype SpecPc =
    | SpecIdle
    | SpecDelete
    | SpecRead(hub: Policy)
    | SpecCreate(hub: Policy)
    | SpecUpdate(hub: Policy, managed: Policy)

  datatype StatusPc =
    | StatusIdle
    | StatusMissing
    | StatusRead(managed: Policy)
    | StatusCompute(managed: Policy, hub: Policy)
    | StatusWrite(managed: Policy, status: Status, hub: Policy)
    | StatusRefetch(status: Status, hub: Policy)
    | StatusWriteHub(status: Status, hub: Policy)

  datatype State = State(
    name: string, world: World,
    hub: Option<Policy>, managed: Option<Policy>, clock: nat,
    specQueued: bool, statusQueued: bool, specChannel: nat, statusChannel: nat,
    spec: SpecPc, stat: StatusPc)

  /** The status that getDetails and updateStatuses compute for a managed policy. */
  function Computed(s: State, managed: Policy): Status {
    Recompute(s.world, managed.uid, s.name, managed.spec.templates, managed.status)
  }

  // ---------------------------------------------------------------- spec-sync, call by call

  /** Once the managed policy is known: update it, tell status-sync, or be done. */
  function SpecCompared(s: State, hub: Policy, managed: Policy): State {
    if hub.spec != managed.spec then s.(spec := SpecUpdate(hub, managed))
    else if hub.status != managed.status then s.(spec := SpecIdle, statusChannel := s.statusChannel + 1)
    else s.(spec := SpecIdle)
  }

  function SpecStep(s: State, uid: string): State
    requires s.specQueued || !s.spec.SpecIdle?
  {
    match s.spec
    case SpecIdle =>
      s.(specQueued := false, spec := if s.hub.None? then SpecDelete else SpecRead(s.hub.value))
    case SpecDelete =>
      s.(managed := None, statusQueued := s.statusQueued || s.managed.Some?, spec := SpecIdle)
    case SpecRead(hub) =>
      if s.managed.None? then s.(spec := SpecCreate(hub)) else SpecCompared(s, hub, s.managed.value)
    case SpecCreate(hub) =>
      if s.managed.Some? then s.(spec := SpecIdle, specQueued := true)
      else
        var created := Policy(hub.spec, EMPTY_STATUS, uid, s.clock + 1);
        SpecCompared(s.(managed := Some(created), clock := s.clock + 1, statusQueued := true), hub, created)
    case SpecUpdate(hub, managed) =>
      if s.managed.None? then s.(spec := SpecIdle, specQueued := true)
      else if s.managed.value.version != managed.version then s.(spec := SpecIdle)  // a conflict is not returned
      else
        var updated := managed.(spec := hub.spec, version := s.clock + 1);
        s.(managed := Some(updated), clock := s.clock + 1, statusQueued := true, spec := SpecIdle)
  }

  function RetrySpec(s: State): State {
    s.(spec := SpecIdle, specQueued := true)
  }

  /** The next call of spec-sync fails. Only the error of an update other than not-found is not returned. */
  function SpecFail(s: State): State {
    if s.spec.SpecUpdate? then s.(spec := SpecIdle) else RetrySpec(s)
  }

  // ---------------------------------------------------------------- status-sync, call by call

  function NotifySpec(s: State): State {
    s.(stat := StatusIdle, specChannel := s.specChannel + 1)
  }

  function RetryStatus(s: State): State {
    s.(stat := StatusIdle, statusQueued := true)
  }

  /** Compare the hub's status with the one computed. */
  function StatusCompared(s: State, status: Status, hub: Policy): State {
    s.(stat := if hub.status == status then StatusIdle else StatusWriteHub(status, hub))
  }

  /** The next call of status-sync fails. Only a failing second read of the hub policy is not returned. */
  function StatusFail(s: State): State {
    if s.stat.StatusRefetch? then StatusCompared(s, s.stat.status, s.stat.hub) else RetryStatus(s)
  }

  function StatusStep(s: State): State
    requires s.statusQueued || !s.stat.StatusIdle?
  {
    match s.stat
    case StatusIdle =>
      s.(statusQueued := false, stat := if s.managed.None? then StatusMissing else StatusRead(s.managed.value))
    case StatusMissing =>
      if s.hub.None? then s.(stat := StatusIdle) else NotifySpec(s)
    case StatusRead(managed) =>
      if s.hub.None? || s.hub.value.spec != managed.spec then NotifySpec(s)
      else s.(stat := StatusCompute(managed, s.hub.value))
    case StatusCompute(managed, hub) =>
      var status := Computed(s, managed);
      s.(stat := if status != managed.status then StatusWrite(managed, status, hub) else StatusRefetch(status, hub))
    case StatusWrite(managed, status, hub) =>
      if s.managed.None? || s.managed.value.version != managed.version then RetryStatus(s)
      else
        var updated := managed.(status := status, version := s.clock + 1);
        s.(managed := Some(updated), clock := s.clock + 1, statusQueued := true, stat := StatusRefetch(status, hub))
    case StatusRefetch(status, hub) =>
      StatusCompared(s, status, if s.hub.Some? then s.hub.value else hub)
    case StatusWriteHub(status, hub) =>
      if s.hub.None? || s.hub.value.version != hub.version then RetryStatus(s)
      else
        var updated := hub.(status := status, version := s.clock + 1);
        s.(hub := Some(updated), clock := s.clock + 1, specQueued := true, stat := StatusIdle)
  }

  // ---------------------------------------------------------------- runs

  /** A step of the two controllers, or of a channel that hands a request to a queue. */
  ghost predicate Next(s: State, t: State) {
    || ((s.specQueued || !s.spec.SpecIdle?) && exists uid :: t == SpecStep(s, uid))
    || ((s.statusQueued || !s.stat.StatusIdle?) && t == StatusStep(s))
    || (s.specChannel > 0 && t == s.(specChannel := s.specChannel - 1, specQueued := true))
    || (s.statusChannel > 0 && t == s.(statusChannel := s.statusChannel - 1, statusQueued := true))
  }

  ghost predicate WellFormed(p: Option<Policy>) {
    p.Some? ==> Distinct(TNames(p.value.spec.templates))
  }

  ghost predicate Stamped(p: Option<Policy>, clock: nat) {
    p.Some? ==> p.value.version == clock
  }

  /** Anything others do: edit either policy, change events or template objects, or make a call fail. */
  ghost predicate Disturb(s: State, t: State) {
    Wakes(s, t) || DropsUpdate(s, t) || ReusesHub(s, t) || EventsExpire(s, t)
  }

  /** The disturbances that put a request in a queue: edits, new events, and failing calls whose error is returned. */
  ghost predicate Wakes(s: State, t: State) {
    EditHub(s, t) || t == RetrySpec(s) || WakesStatus(s, t)
  }

  ghost predicate WakesStatus(s: State, t: State) {
    EditManaged(s, t) || t == s.(world := t.world, statusQueued := true) || t == RetryStatus(s)
  }

  /** The update of the managed policy fails, and spec-sync keeps the error to itself. */
  ghost predicate DropsUpdate(s: State, t: State) {
    && s.spec.SpecUpdate? && (s.managed.Some? ==> s.managed.value.version == s.spec.managed.version)
    && t == SpecFail(s)
  }

  /** Events are deleted, which status-sync does not watch for. */
  ghost predicate EventsExpire(s: State, t: State) {
    exists gone :: t == s.(world := Expired(s.world, gone))
  }

  /** Reading the hub policy again fails, and status-sync goes on with the copy it has. */
  ghost predicate ReusesHub(s: State, t: State) {
    s.stat.StatusRefetch? && t == StatusFail(s)
  }

  ghost predicate EditHub(s: State, t: State) {
    WellFormed(t.hub) && Stamped(t.hub, s.clock + 1) && t == s.(hub := t.hub, clock := s.clock + 1, specQueued := true)
  }

  ghost predicate EditManaged(s: State, t: State) {
    Stamped(t.managed, s.clock + 1) && t == s.(managed := t.managed, clock := s.clock + 1, statusQueued := true)
  }

  /** The controllers have just started: every existing policy is queued where it is watched. */
  ghost predicate Started(s: State) {
    && s.spec == SpecIdle && s.stat == StatusIdle && s.specChannel == 0 && s.statusChannel == 0
    && (s.hub.Some? ==> s.specQueued && s.hub.value.version <= s.clock)
    && (s.managed.Some? ==> s.statusQueued && s.managed.value.version <= s.clock)
    && WellFormed(s.hub)
  }

  /** Nothing is queued, in a channel or under way. */
  ghost predicate Quiescent(s: State) {
    && !s.specQueued && !s.statusQueued && s.specChannel == 0 && s.statusChannel == 0
    && s.spec == SpecIdle && s.stat == StatusIdle
  }

  /** Both absent, or equal in annotations, spec and status. */
  ghost predicate Agree(s: State) {
    || (s.hub.None? && s.managed.None?)
    || (s.hub.Some? && s.managed.Some? && s.hub.value.spec == s.managed.value.spec
        && s.hub.value.status == s.managed.value.status)
  }

  /** The status takes every event and template object into account. */
  ghost predicate UpToDate(s: State) {
    s.managed.Some? ==> Computed(s, s.managed.value) == s.managed.value.status
  }

  // ---------------------------------------------------------------- versions identify contents

  ghost predicate Snapshot(p: Policy, current: Option<Policy>, clock: nat) {
    p.version <= clock && (current.Some? && current.value.version == p.version ==> current.value == p)
  }

  ghost predicate Versions(s: State) {
    && (s.hub.Some? ==> s.hub.value.version <= s.clock)
    && (s.managed.Some? ==> s.managed.value.version <= s.clock)
    && WellFormed(s.hub)
    && (match s.spec
        case SpecIdle => true
        case SpecDelete => true
        case SpecRead(hub) => Snapshot(hub, s.hub, s.clock)
        case SpecCreate(hub) => Snapshot(hub, s.hub, s.clock)
        case SpecUpdate(hub, managed) => Snapshot(hub, s.hub, s.clock) && Snapshot(managed, s.managed, s.clock)
                                         && hub.spec != managed.spec)
    && (match s.stat
        case StatusIdle => true
        case StatusMissing => true
        case StatusRead(managed) => Snapshot(managed, s.managed, s.clock)
        case StatusCompute(managed, hub) =>
          Snapshot(managed, s.managed, s.clock) && Snapshot(hub, s.hub, s.clock)
        case StatusWrite(managed, status, hub) =>
          Snapshot(managed, s.managed, s.clock) && Snapshot(hub, s.hub, s.clock) && status != managed.status
        case StatusRefetch(status, hub) => Snapshot(hub, s.hub, s.clock)
        case StatusWriteHub(status, hub) => Snapshot(hub, s.hub, s.clock) && hub.status != status)
  }

  lemma SpecStepVersions(s: State, uid: string)
    requires Versions(s) && (s.specQueued || !s.spec.SpecIdle?)
    ensures Versions(SpecStep(s, uid))
  {
    hide WellFormed;
    match s.spec
    case SpecIdle =>
    case SpecDelete =>
    case SpecRead(hub) =>
    case SpecCreate(hub) =>
    case SpecUpdate(hub, managed) =>
  }

  lemma StatusStepVersions(s: State)
    requires Versions(s) && (s.statusQueued || !s.stat.StatusIdle?)
    ensures Versions(StatusStep(s))
  {
    hide Computed, Distinct, TNames;
    match s.stat
    case StatusIdle =>
    case StatusMissing =>
    case StatusRead(managed) =>
    case StatusCompute(managed, hub) =>
    case StatusWrite(managed, status, hub) =>
    case StatusRefetch(status, hub) =>
    case StatusWriteHub(status, hub) =>
  }

  lemma DisturbVersions(s: State, t: State)
    requires Versions(s) && Disturb(s, t)
    ensures Versions(t)
  {
    hide Distinct, TNames;
    if EditHub(s, t) {
    } else if EditManaged(s, t) {
    } else if DropsUpdate(s, t) {
    } else if ReusesHub(s, t) {
    } else {
      hide Expired;
    }
  }

  lemma VersionsKept(s: State, t: State)
    requires Versions(s) && (Next(s, t) || Disturb(s, t))
    ensures Versions(t)
  {
    hide SpecStep, StatusStep, Snapshot, WellFormed, Disturb;
    if Disturb(s, t) {
      DisturbVersions(s, t);
    } else if (s.specQueued || !s.spec.SpecIdle?) && exists uid :: t == SpecStep(s, uid) {
      var uid :| t == SpecStep(s, uid);
      SpecStepVersions(s, uid);
    } else if (s.statusQueued || !s.stat.StatusIdle?) && t == StatusStep(s) {
      StatusStepVersions(s);
    }
  }

  // ---------------------------------------------------------------- whole reconciles

  /** Which calls of a spec-sync reconcile fail. */
  datatype SpecFaults = SpecFaults(getHub: bool, delete: bool, getManaged: bool, create: bool, update: bool)

  datatype StatusFaults = StatusFaults(
    getManaged: bool, getHub: bool, details: bool, writeManaged: bool, refetch: bool, writeHub: bool)

  function SpecCall(s: State, uid: string, f: SpecFaults): State
    requires s.specQueued || !s.spec.SpecIdle?
  {
    var fails :=
      match s.spec
      case SpecIdle => f.getHub
      case SpecDelete => f.delete
      case SpecRead(_) => f.getManaged
      case SpecCreate(_) => f.create
      case SpecUpdate(_, _) => f.update;
    if fails then SpecFail(s) else SpecStep(s, uid)
  }

  function StatusCall(s: State, f: StatusFaults): State
    requires s.statusQueued || !s.stat.StatusIdle?
  {
    var fails :=
      match s.stat
      case StatusIdle => f.getManaged
      case StatusMissing => f.getHub
      case StatusRead(_) => f.getHub
      case StatusCompute(_, _) => f.details
      case StatusWrite(_, _, _) => f.writeManaged
      case StatusRefetch(_, _) => f.refetch
      case StatusWriteHub(_, _) => f.writeHub;
    if fails then StatusFail(s) else StatusStep(s)
  }

  /** A call, whether it succeeds or fails, is a step of a run. */
  lemma CallsAreSteps(s: State, uid: string, f: SpecFaults, g: StatusFaults)
    ensures
      s.specQueued || !s.spec.SpecIdle? ==>
      var t := SpecCall(s, uid, f);
      Next(s, t) || Disturb(s, t)
    ensures
      s.statusQueued || !s.stat.StatusIdle? ==>
      var t := StatusCall(s, g);
      Next(s, t) || Disturb(s, t)
  {
    hide Computed;
    if s.specQueued || !s.spec.SpecIdle? {
      assert Next(s, SpecStep(s, uid));
    }
  }

  /** The remaining calls of a spec-sync reconcile that nobody interrupts. */
  function SpecFinish(s: State, uid: string, f: SpecFaults): State
    decreases match s.spec case SpecIdle => 0 case SpecRead(_) => 3 case SpecCreate(_) => 2 case _ => 1
  {
    if s.spec.SpecIdle? then s else SpecFinish(SpecCall(s, uid, f), uid, f)
  }

  function StatusFinish(s: State, f: StatusFaults): State
    decreases
      match s.stat
      case StatusIdle => 0
      case StatusMissing => 1
      case StatusRead(_) => 5
      case StatusCompute(_, _) => 4
      case StatusWrite(_, _, _) => 3
      case StatusRefetch(_, _) => 2
      case StatusWriteHub(_, _) => 1
  {
    if s.stat.StatusIdle? then s else StatusFinish(StatusCall(s, f), f)
  }

  /** The end of an uninterrupted spec-sync reconcile that has read both policies. */
  function Copied(s: State, hub: Policy, managed: Policy, f: SpecFaults): State {
    if hub.spec != managed.spec then
      if f.update then s.(spec := SpecIdle)
      else
        s.(managed := Some(managed.(spec := hub.spec, version := s.clock + 1)), clock := s.clock + 1,
           statusQueued := true, spec := SpecIdle)
    else if hub.status != managed.status then s.(statusChannel := s.statusChannel + 1, spec := SpecIdle)
    else s.(spec := SpecIdle)
  }

  lemma FinishCompared(s: State, hub: Policy, managed: Policy, uid: string, f: SpecFaults)
    requires s.managed == Some(managed)
    ensures SpecFinish(SpecCompared(s, hub, managed), uid, f) == Copied(s, hub, managed, f)
  {
    var t := SpecCompared(s, hub, managed);
    if t.spec.SpecUpdate? {
      assert SpecFinish(t, uid, f) == SpecFinish(SpecCall(t, uid, f), uid, f);
    }
  }

  lemma FinishRead(s: State, uid: string, f: SpecFaults)
    requires s.spec.SpecRead?
    ensures
      SpecFinish(s, uid, f) ==
      if f.getManaged then RetrySpec(s)
      else if s.managed.Some? then Copied(s, s.spec.hub, s.managed.value, f)
      else if f.create then RetrySpec(s)
      else
        var created := Policy(s.spec.hub.spec, EMPTY_STATUS, uid, s.clock + 1);
        Copied(s.(managed := Some(created), clock := s.clock + 1, statusQueued := true), s.spec.hub, created, f)
  {
    var t := SpecCall(s, uid, f);
    var hub := s.spec.hub;
    assert SpecFinish(s, uid, f) == SpecFinish(t, uid, f);
    if t.spec.SpecCreate? {
      var created := Policy(hub.spec, EMPTY_STATUS, uid, s.clock + 1);
      var with := t.(managed := Some(created), clock := s.clock + 1, statusQueued := true);
      assert SpecFinish(t, uid, f) == SpecFinish(SpecCall(t, uid, f), uid, f);
      hide SpecFinish;
      FinishCompared(with, hub, created, uid, f);
    } else if s.managed.Some? && !f.getManaged {
      hide SpecFinish;
      FinishCompared(s, hub, s.managed.value, uid, f);
    }
  }

  /** The end of an uninterrupted status-sync reconcile: the hub gets the status if it lacks it. */
  function Published(s: State, status: Status, f: StatusFaults): State {
    if s.hub.None? || s.hub.value.status == status then s.(stat := StatusIdle)
    else if f.writeHub then RetryStatus(s)
    else
      s.(hub := Some(s.hub.value.(status := status, version := s.clock + 1)), clock := s.clock + 1,
         specQueued := true, stat := StatusIdle)
  }

  lemma FinishRefetch(s: State, f: StatusFaults)
    requires s.stat.StatusRefetch? && s.hub == Some(s.stat.hub)
    ensures StatusFinish(s, f) == Published(s, s.stat.status, f)
  {
    var t := StatusCall(s, f);
    assert StatusFinish(s, f) == StatusFinish(t, f);
    if !t.stat.StatusIdle? {
      assert StatusFinish(t, f) == StatusFinish(StatusCall(t, f), f);
    }
  }

  lemma FinishWrite(s: State, f: StatusFaults)
    requires s.stat.StatusWrite? && s.hub == Some(s.stat.hub) && s.managed == Some(s.stat.managed)
    ensures
      var managed, status := s.stat.managed, s.stat.status;
      StatusFinish(s, f) ==
      if f.writeManaged then RetryStatus(s)
      else
        Published(s.(managed := Some(managed.(status := status, version := s.clock + 1)),
                     clock := s.clock + 1, statusQueued := true), status, f)
  {
    var t := StatusCall(s, f);
    assert StatusFinish(s, f) == StatusFinish(t, f);
    if !f.writeManaged {
      hide StatusFinish;
      FinishRefetch(t, f);
    }
  }

  lemma FinishCompute(s: State, f: StatusFaults)
    requires s.stat.StatusCompute? && s.hub == Some(s.stat.hub) && s.managed == Some(s.stat.managed)
    ensures
      var managed, status := s.stat.managed, Computed(s, s.stat.managed);
      StatusFinish(s, f) ==
      if f.details then RetryStatus(s)
      else if status == managed.status then Published(s, status, f)
      else if f.writeManaged then RetryStatus(s)
      else
        Published(s.(managed := Some(managed.(status := status, version := s.clock + 1)),
                     clock := s.clock + 1, statusQueued := true), status, f)
  {
    hide Computed;
    var t := StatusCall(s, f);
    assert StatusFinish(s, f) == StatusFinish(t, f);
    if !f.details {
      hide StatusStep, StatusFinish;
      if t.stat.StatusRefetch? {
        FinishRefetch(t, f);
      } else {
        FinishWrite(t, f);
      }
    }
  }

  /** The two stores and the requests, as the reconcilers change them in place. */
  class Clusters {
    const name: string
    var world: World
    var hub: Option<Policy>
    var managed: Option<Policy>
    var clock: nat
    var specQueued: bool
    var statusQueued: bool
    var specChannel: nat
    var statusChannel: nat

    constructor (s: State)
      ensures View() == s.(spec := SpecIdle, stat := StatusIdle)
    {
      name, world, hub, managed, clock := s.name, s.world, s.hub, s.managed, s.clock;
      specQueued, statusQueued := s.specQueued, s.statusQueued;
      specChannel, statusChannel := s.specChannel, s.statusChannel;
    }

    function View(): State
      reads this
    {
      State(name, world, hub, managed, clock,
            specQueued, statusQueued, specChannel, statusChannel, SpecIdle, StatusIdle)
    }

    /**
     * Reconcile of spec-sync: a run of its calls from the queue to the end. During an uninstallation it puts the
     * request back, so that no policy that was deleted is created again.
     */
    method SpecReconcile(uid: string, uninstalling: bool, f: SpecFaults)
      requires specQueued
      modifies this
      ensures
        var was := old(View());
        View() == if uninstalling then was else SpecFinish(SpecCall(was, uid, f), uid, f)
    {
      if uninstalling {
        return;
      }
      ghost var s1 := SpecCall(View(), uid, f);
      if s1.spec.SpecRead? { FinishRead(s1, uid, f); }
      if f.getHub {
        return;
      }
      specQueued := false;
      if hub.None? {
        if f.delete {
          specQueued := true;
          return;
        }
        statusQueued := statusQueued || managed.Some?;
        managed := None;
        return;
      }
      var instance := hub.value;
      if f.getManaged {
        specQueued := true;
        return;
      }
      if managed.None? {
        if f.create {
          specQueued := true;
          return;
        }
        managed := Some(Policy(instance.spec, EMPTY_STATUS, uid, clock + 1));
        clock := clock + 1;
        statusQueued := true;
      }
      var managedPlc := managed.value;
      if instance.spec != managedPlc.spec {
        if f.update {
          return;
        }
        managed := Some(managedPlc.(spec := instance.spec, version := clock + 1));
        clock := clock + 1;
        statusQueued := true;
      } else if instance.status != managedPlc.status {
        statusChannel := statusChannel + 1;
      }
    }

    /** Reconcile of status-sync, with getInstances and updateStatuses. */
    method StatusReconcile(uninstalling: bool, f: StatusFaults)
      requires statusQueued
      modifies this
      ensures
        var was := old(View());
        View() == if uninstalling then was else StatusFinish(StatusCall(was, f), f)
    {
      if uninstalling {
        return;
      }
      hide Recompute;
      ghost var s1 := StatusCall(View(), f);
      ghost var s2 := if s1.stat.StatusIdle? then s1 else StatusCall(s1, f);
      assert StatusFinish(s1, f) == StatusFinish(s2, f);
      if f.getManaged {
        return;
      }
      statusQueued := false;
      if managed.None? {
        if f.getHub {
          statusQueued := true;
        } else if hub.Some? {
          specChannel := specChannel + 1;
        }
        return;
      }
      var instance := managed.value;
      if f.getHub {
        statusQueued := true;
        return;
      }
      if hub.None? || hub.value.spec != instance.spec {
        specChannel := specChannel + 1;
        return;
      }
      assert View().(stat := StatusCompute(instance, hub.value)) == s2;
      UpdateStatuses(instance, hub.value, f);
    }

    /** getDetails and updateStatuses, for the two policies that were read. */
    method UpdateStatuses(instance: Policy, hubInstance: Policy, f: StatusFaults)
      requires managed == Some(instance) && hub == Some(hubInstance)
      modifies this
      ensures View() == StatusFinish(old(View()).(stat := StatusCompute(instance, hubInstance)), f)
    {
      hide Recompute;
      ghost var s2 := View().(stat := StatusCompute(instance, hubInstance));
      FinishCompute(s2, f);
      hide StatusFinish;
      if f.details {
        statusQueued := true;
        return;
      }
      var status := Recompute(world, instance.uid, name, instance.spec.templates, instance.status);
      if status != instance.status {
        if f.writeManaged {
          statusQueued := true;
          return;
        }
        managed := Some(instance.(status := status, version := clock + 1));
        clock := clock + 1;
        statusQueued := true;
      }
      var latest := if f.refetch then hubInstance else hub.value;
      if latest.status != status {
        if f.writeHub {
          statusQueued := true;
          return;
        }
        hub := Some(latest.(status := status, version := clock + 1));
        clock := clock + 1;
        specQueued := true;
      }
    }
  }
}
