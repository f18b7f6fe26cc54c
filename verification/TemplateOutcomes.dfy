/** How a pass of template-sync ends: which objects are left, whether the finalizer is right, which errors survive. */
module TemplateOutcomes {
  import opened Text
  import opened StatusSync
  import opened TemplateObjects
  import opened TemplateSync
  import opened TemplateSyncLaws
  import opened TemplatePassLaws

  // ---------------------------------------------------------------- steps of a pass

  /** The step for template i goes through. */
  ghost predicate SyncedAt(env: Env, pol: Policy, calls: seq<Calls>, start: Pass, i: nat)
    requires i < |pol.templates| == |calls|
  {
    var before, t := PassTo(env, pol, calls, start, i), TargetOf(env, pol, i);
    before.Continue? && t.Some? && Synced(env, pol, calls[i], before.pass.cluster, t.value)
  }

  /** The step for template i does not go through and leaves its object behind. */
  ghost predicate LeftBehindAt(env: Env, pol: Policy, calls: seq<Calls>, start: Pass, i: nat)
    requires i < |pol.templates| == |calls|
  {
    var before, t := PassTo(env, pol, calls, start, i), TargetOf(env, pol, i);
    before.Continue? && t.Some? && LeftBehind(env, pol, calls[i], before.pass.cluster, t.value)
  }

  ghost predicate IsClusterScoped(env: Env, pol: Policy, i: nat)
    requires i < |pol.templates|
  {
    TargetOf(env, pol, i).Some? && !TargetOf(env, pol, i).value.namespaced
  }

  /** The step for template i goes through, and its object is cluster-scoped. */
  ghost predicate MarksAt(env: Env, pol: Policy, calls: seq<Calls>, start: Pass, i: nat)
    requires i < |pol.templates| == |calls|
  {
    IsClusterScoped(env, pol, i) && SyncedAt(env, pol, calls, start, i)
  }

  lemma StepMarks(env: Env, pol: Policy, calls: seq<Calls>, start: Pass, i: nat)
    requires i < |pol.templates| == |calls|
    ensures
      PassTo(env, pol, calls, start, i + 1).pass.addFinalizer <==>
      || PassTo(env, pol, calls, start, i).pass.addFinalizer
      || MarksAt(env, pol, calls, start, i)
  {
    hide SyncTemplate, SyncTarget, TargetOf, Synced, LeftBehind;
    var before := PassTo(env, pol, calls, start, i);
    if before.Continue? {
      var prepared := StepSplits(env, pol, i, calls[i], before.pass);
      if TargetOf(env, pol, i).Some? {
        TargetOutcome(env, pol, i, calls[i], prepared, TargetOf(env, pol, i).value);
      }
    }
  }

  ghost predicate MarkedTo(env: Env, pol: Policy, calls: seq<Calls>, start: Pass, n: nat)
    requires n <= |pol.templates| == |calls|
  {
    exists i :: 0 <= i < n && MarksAt(env, pol, calls, start, i)
  }

  lemma MarkedToNext(env: Env, pol: Policy, calls: seq<Calls>, start: Pass, n: nat)
    requires n < |pol.templates| == |calls|
    ensures
      MarkedTo(env, pol, calls, start, n + 1) <==>
      MarkedTo(env, pol, calls, start, n) || MarksAt(env, pol, calls, start, n)
  {
    hide MarksAt;
  }

  /** A pass marks the finalizer exactly when the step of a cluster-scoped template goes through. */
  lemma {:induction false} PassMarks(env: Env, pol: Policy, calls: seq<Calls>, start: Pass, n: nat)
    requires n <= |pol.templates| == |calls|
    ensures
      PassTo(env, pol, calls, start, n).pass.addFinalizer <==> start.addFinalizer || MarkedTo(env, pol, calls, start, n)
    decreases n
  {
    if n > 0 {
      hide *;
      PassMarks(env, pol, calls, start, n - 1);
      StepMarks(env, pol, calls, start, n - 1);
      MarkedToNext(env, pol, calls, start, n - 1);
    }
  }

  ghost predicate SameAt(a: Cluster, b: Cluster, key: Key) {
    (key in a <==> key in b) && (key in a && key in b ==> a[key] == b[key])
  }

  lemma StepLeavesOthers(env: Env, pol: Policy, i: nat, calls: Calls, p: Pass, key: Key)
    requires i < |pol.templates| && (TargetOf(env, pol, i).Some? ==> TargetOf(env, pol, i).value.key != key)
    ensures SameAt(SyncTemplate(env, pol, i, calls, p).pass.cluster, p.cluster, key)
  {
    hide SyncTemplate, SyncTarget, TargetOf, Gated;
    var prepared := StepSplits(env, pol, i, calls, p);
    if TargetOf(env, pol, i).Some? {
      TargetWrites(env, pol, i, calls, prepared, TargetOf(env, pol, i).value);
    }
  }

  /** An object that no template stands for is not touched. */
  lemma {:induction false} PassLeavesOthers(env: Env, pol: Policy, calls: seq<Calls>, start: Pass, n: nat, key: Key)
    requires n <= |pol.templates| == |calls|
    requires forall i :: 0 <= i < n && TargetOf(env, pol, i).Some? ==> TargetOf(env, pol, i).value.key != key
    ensures SameAt(PassTo(env, pol, calls, start, n).pass.cluster, start.cluster, key)
    decreases n
  {
    hide SyncTemplate, TargetOf;
    if n > 0 {
      PassLeavesOthers(env, pol, calls, start, n - 1, key);
      var before := PassTo(env, pol, calls, start, n - 1);
      if before.Continue? {
        StepLeavesOthers(env, pol, n - 1, calls[n - 1], before.pass, key);
      }
    }
  }

  /** After a pass the object of a template is there exactly when its step went through or left it behind. */
  lemma {:induction false} PassObjects(env: Env, pol: Policy, calls: seq<Calls>, start: Pass, n: nat, i: nat)
    requires i < n <= |pol.templates| == |calls| && DistinctTargets(env, pol) && TargetOf(env, pol, i).Some?
    requires PassTo(env, pol, calls, start, n).Continue?
    ensures
      TargetOf(env, pol, i).value.key in PassTo(env, pol, calls, start, n).pass.cluster <==>
      SyncedAt(env, pol, calls, start, i) || LeftBehindAt(env, pol, calls, start, i)
    decreases n
  {
    hide SyncTemplate, SyncTarget, TargetOf, Synced, LeftBehind, DistinctTargets;
    var before := PassTo(env, pol, calls, start, n - 1);
    var prepared := StepSplits(env, pol, n - 1, calls[n - 1], before.pass);
    var t := TargetOf(env, pol, n - 1);
    if i == n - 1 {
      TargetOutcome(env, pol, i, calls[i], prepared, t.value);
    } else {
      PassObjects(env, pol, calls, start, n - 1, i);
      if t.Some? {
        TargetWrites(env, pol, n - 1, calls[n - 1], prepared, t.value);
        TargetsDiffer(env, pol, i, n - 1);
      }
    }
  }

  lemma TargetsDiffer(env: Env, pol: Policy, i: nat, j: nat)
    requires i < j < |pol.templates| && DistinctTargets(env, pol)
    requires TargetOf(env, pol, i).Some? && TargetOf(env, pol, j).Some?
    ensures TargetOf(env, pol, i).value.key != TargetOf(env, pol, j).value.key
  {
    hide TargetOf;
  }

  // ---------------------------------------------------------------- clean-up

  /** The names that clean-up spares: templates that decode, have no dependency conflict and have a name. */
  function SparedNames(env: Env, pol: Policy, n: nat): seq<string>
    requires n <= |pol.templates|
  {
    if n == 0 then []
    else
      var d := pol.templates[n - 1].definition;
      SparedNames(env, pol, n - 1)
      + if d.Definition? && !DepsOf(env, pol, n - 1).conflict && d.name != "" then [d.name] else []
  }

  lemma PrepareNames(env: Env, pol: Policy, i: nat, p: Pass)
    requires i < |pol.templates|
    ensures
      var d := pol.templates[i].definition;
      Prepare(env, pol, i, p).pass.names ==
      p.names + if d.Definition? && !DepsOf(env, pol, i).conflict && d.name != "" then [d.name] else []
  {
    hide TopLevel, AddExtra, KeyFor, IsSupported;
    var t := pol.templates[i];
    ExtraIgnoresAll(env, Collected(TopLevel(env, pol.dependencies), p.allDeps, false), map[], t.extra);
  }

  lemma {:induction false} PassNames(env: Env, pol: Policy, calls: seq<Calls>, start: Pass, n: nat)
    requires n <= |pol.templates| == |calls| && start.names == []
    ensures
      var r := PassTo(env, pol, calls, start, n);
      r.Continue? ==> r.pass.names == SparedNames(env, pol, n)
    decreases n
  {
    hide SyncTemplate, SyncTarget, TargetOf, Prepare, DepsOf, AllSatisfied;
    if n > 0 {
      PassNames(env, pol, calls, start, n - 1);
      var before := PassTo(env, pol, calls, start, n - 1);
      if before.Continue? {
        PrepareNames(env, pol, n - 1, before.pass);
        var prepared := StepSplits(env, pol, n - 1, calls[n - 1], before.pass);
        if TargetOf(env, pol, n - 1).Some? {
          TargetWrites(env, pol, n - 1, calls[n - 1], prepared, TargetOf(env, pol, n - 1).value);
        }
      }
    }
  }

  lemma {:induction false} TargetsAreSpared(env: Env, pol: Policy, n: nat, i: nat)
    requires i < n <= |pol.templates| && TargetOf(env, pol, i).Some?
    ensures TargetOf(env, pol, i).value.key.name in SparedNames(env, pol, n)
  {
    hide TargetOf, DepsOf;
    if i < n - 1 { TargetsAreSpared(env, pol, n - 1, i); }
  }

  lemma SparedBecauseTarget(env: Env, pol: Policy, key: Key)
    requires key.name !in SparedNames(env, pol, |pol.templates|)
    ensures forall i :: 0 <= i < |pol.templates| && TargetOf(env, pol, i).Some? ==>
      TargetOf(env, pol, i).value.key != key
  {
    hide TargetOf, SparedNames;
    forall i | 0 <= i < |pol.templates| && TargetOf(env, pol, i).Some? ensures TargetOf(env, pol, i).value.key != key {
      TargetsAreSpared(env, pol, |pol.templates|, i);
    }
  }

  /** The reconcile gets as far as the loop over the templates and through it. */
  ghost predicate PassesThrough(env: Env, pol: Policy, calls: seq<Calls>, o: Outer, store: Store)
    requires |calls| == |pol.templates|
  {
    && pol.templates != [] && DupNameFrom(pol.templates, 0, {}) == "" && !o.deleting && !o.uninstalling
    && PassTo(env, pol, calls, StartOfPass(env, pol, store.cluster, store.createdGk), |pol.templates|).Continue?
  }

  ghost function LoopEnd(env: Env, pol: Policy, calls: seq<Calls>, store: Store): Pass
    requires |calls| == |pol.templates|
  {
    PassTo(env, pol, calls, StartOfPass(env, pol, store.cluster, store.createdGk), |pol.templates|).pass
  }

  /**
   * Clean-up is exact. Of the objects whose names belong to no template that decodes, has no dependency conflict
   * and has a name, a reconcile removes those that are labelled with the policy, of a kind that was listed, and
   * could be deleted; all others are left as they were. Objects with such a name are left as the loop left them.
   */
  lemma CleanUpIsExact(env: Env, pol: Policy, calls: seq<Calls>, o: Outer, store: Store, key: Key)
    requires |calls| == |pol.templates| && PassesThrough(env, pol, calls, o, store) && o.crdListOk
    ensures
      var p, after := LoopEnd(env, pol, calls, store), Reconciled(env, pol, calls, o, store).cluster;
      var l := ToClean(o, p.createdGk);
      if key.name in SparedNames(env, pol, |pol.templates|) then
        (key in after <==> key in p.cluster) && (key in after ==> after[key] == p.cluster[key])
      else
        && (key in after <==>
            && key in store.cluster
            && !(Listed(pol, l, store.cluster, key) && key !in o.undeletable))
        && (key in after ==> after[key] == store.cluster[key])
  {
    hide PassTo, SparedNames, FinalizersAfter, WithoutFinalizer, TopLevel, CleanupFails, GatekeeperKinds, IsLabelled;
    var start := StartOfPass(env, pol, store.cluster, store.createdGk);
    PassNames(env, pol, calls, start, |pol.templates|);
    if key.name !in SparedNames(env, pol, |pol.templates|) {
      SparedBecauseTarget(env, pol, key);
      PassLeavesOthers(env, pol, calls, start, |pol.templates|, key);
    }
  }

  // ---------------------------------------------------------------- the finalizer

  /** The object of template i, if it is cluster-scoped, is in the cluster. */
  ghost predicate ClusterObject(env: Env, pol: Policy, i: nat, cluster: Cluster)
    requires i < |pol.templates|
  {
    IsClusterScoped(env, pol, i) && TargetOf(env, pol, i).value.key in cluster
  }

  lemma ObjectsAfterReconcile(env: Env, pol: Policy, calls: seq<Calls>, o: Outer, store: Store, i: nat)
    requires |calls| == |pol.templates| && PassesThrough(env, pol, calls, o, store) && i < |pol.templates|
    requires DistinctTargets(env, pol) && TargetOf(env, pol, i).Some?
    ensures
      var start := StartOfPass(env, pol, store.cluster, store.createdGk);
      TargetOf(env, pol, i).value.key in Reconciled(env, pol, calls, o, store).cluster <==>
      SyncedAt(env, pol, calls, start, i) || LeftBehindAt(env, pol, calls, start, i)
  {
    hide TargetOf, SparedNames, CleanedUp, ToClean, WatchSet, FinalizersAfter, SyncedAt, LeftBehindAt, PassTo,
      DistinctTargets;
    var start := StartOfPass(env, pol, store.cluster, store.createdGk);
    PassObjects(env, pol, calls, start, |pol.templates|, i);
    if o.crdListOk {
      TargetsAreSpared(env, pol, |pol.templates|, i);
      CleanUpIsExact(env, pol, calls, o, store, TargetOf(env, pol, i).value.key);
    }
  }

  /** Some cluster-scoped template's step goes through. */
  ghost predicate Marked(env: Env, pol: Policy, calls: seq<Calls>, store: Store)
    requires |calls| == |pol.templates|
  {
    MarkedTo(env, pol, calls, StartOfPass(env, pol, store.cluster, store.createdGk), |pol.templates|)
  }

  /** Some cluster-scoped template's object is left behind. */
  ghost predicate LeavesBehind(env: Env, pol: Policy, calls: seq<Calls>, store: Store)
    requires |calls| == |pol.templates|
  {
    var start := StartOfPass(env, pol, store.cluster, store.createdGk);
    exists i :: 0 <= i < |pol.templates| && IsClusterScoped(env, pol, i) && LeftBehindAt(env, pol, calls, start, i)
  }

  ghost predicate SomeClusterObject(env: Env, pol: Policy, cluster: Cluster) {
    exists i :: 0 <= i < |pol.templates| && ClusterObject(env, pol, i, cluster)
  }

  /**
   * After a reconcile whose loop ended and whose update of the policy worked, the policy has the clean-up finalizer
   * exactly when the step of some cluster-scoped template went through, and a cluster-scoped object of it exists
   * exactly when a step went through or left one behind. So the finalizer is right, there exactly when an object
   * is, if and only if some step went through or none left an object behind.
   */
  lemma FinalizerIsExact(env: Env, pol: Policy, calls: seq<Calls>, o: Outer, store: Store)
    requires |calls| == |pol.templates| && PassesThrough(env, pol, calls, o, store) && o.updateOk
    requires DistinctTargets(env, pol)
    ensures
      var after := Reconciled(env, pol, calls, o, store);
      var marked, behind := Marked(env, pol, calls, store), LeavesBehind(env, pol, calls, store);
      && (FINALIZER in after.finalizers <==> marked)
      && (SomeClusterObject(env, pol, after.cluster) <==> marked || behind)
      && ((FINALIZER in after.finalizers <==> SomeClusterObject(env, pol, after.cluster)) <==> marked || !behind)
  {
    hide PassTo, TargetOf, CleanedUp, WithoutFinalizer, FinalizersAfter, TopLevel, ToClean, SyncedAt, LeftBehindAt;
    var n := |pol.templates|;
    var start := StartOfPass(env, pol, store.cluster, store.createdGk);
    PassMarks(env, pol, calls, start, n);
    var after := Reconciled(env, pol, calls, o, store);
    forall i | 0 <= i < n
      ensures ClusterObject(env, pol, i, after.cluster) <==>
        IsClusterScoped(env, pol, i) && (SyncedAt(env, pol, calls, start, i) || LeftBehindAt(env, pol, calls, start, i))
    {
      if IsClusterScoped(env, pol, i) { ObjectsAfterReconcile(env, pol, calls, o, store, i); }
    }
    assert FINALIZER in after.finalizers <==> PassTo(env, pol, calls, start, n).pass.addFinalizer;
    hide Reconciled, PassesThrough, StartOfPass, ClusterObject, IsClusterScoped;
    assert forall i :: 0 <= i < n ==>
      (ClusterObject(env, pol, i, after.cluster) <==>
       || MarksAt(env, pol, calls, start, i)
       || (IsClusterScoped(env, pol, i) && LeftBehindAt(env, pol, calls, start, i)));
    hide MarksAt;
  }

  /**
   * The error branch matters: a ConstraintTemplate that was created but does not report itself created exists in
   * the cluster, while neither the finalizer nor the memory of created Gatekeeper objects records it.
   */
  lemma NotReadyLeavesNoTrace(env: Env, pol: Policy, i: nat, calls: Calls, p: Pass)
    requires i < |pol.templates| && TargetOf(env, pol, i).Some?
    requires
      var t := TargetOf(env, pol, i).value;
      IsConstraintTemplate(t.definition.gvk) && t.key !in p.cluster && !HasHubError(t.definition)
    requires AllSatisfied(env, p.cluster, DepsOf(env, pol, i).deps)
    requires calls.get == GetOk && calls.create == WriteOk && calls.readyOk && calls.ready != Some(true)
    ensures
      var r := SyncTemplate(env, pol, i, calls, p);
      && r.Continue? && TargetOf(env, pol, i).value.key in r.pass.cluster
      && r.pass.addFinalizer == p.addFinalizer && r.pass.createdGk == p.createdGk
  {
    hide Prepare, TargetOf, DepsOf, IsConstraintTemplate, HasHubError, AllSatisfied, Failures, Wanted, Stored;
    var t := TargetOf(env, pol, i).value;
    var prepared := StepSplits(env, pol, i, calls, p);
    PrepareKeepsMemory(env, pol, i, p);
    NoFailuresMeansSatisfied(env, p.cluster, t.deps);
  }

  lemma PrepareKeepsMemory(env: Env, pol: Policy, i: nat, p: Pass)
    requires i < |pol.templates|
    ensures Prepare(env, pol, i, p).pass.createdGk == p.createdGk
  {
    hide TopLevel, AddExtra, KeyFor, IsSupported;
  }

  // ---------------------------------------------------------------- objects of other policies

  /**
   * An object that belongs to another policy is never updated. It is deleted all the same when a dependency is not
   * met or the template has a hub error, because ownership is looked at later; otherwise the clash is reported and
   * nothing changes.
   */
  lemma ClashOutcome(env: Env, pol: Policy, i: nat, calls: Calls, p: Pass)
    requires i < |pol.templates| && TargetOf(env, pol, i).Some? && calls.get == GetOk
    requires
      var t := TargetOf(env, pol, i).value;
      t.key in p.cluster && Clashes(pol, t.namespaced, p.cluster[t.key])
    ensures
      var r, t := SyncTemplate(env, pol, i, calls, p), TargetOf(env, pol, i).value;
      var met := AllSatisfied(env, p.cluster, t.deps);
      && (r.pass.writes == p.writes || r.pass.writes == p.writes + [Delete(i, t.key)])
      && (t.key !in r.pass.cluster <==>
          && StatusRead(calls, t)
          && if met then HasHubError(t.definition) && DeletesForHubError(calls, t) else calls.deleteOk)
      && (met && !HasHubError(t.definition) ==>
            && r.pass.cluster == p.cluster && r.pass.writes == p.writes
            && (r.Continue? ==> r.pass.failed && Report(i, NameClash) in r.pass.reports))
  {
    hide Prepare, TargetOf, DepsOf, IsConstraintTemplate, HasHubError, AllSatisfied, Failures, Clashes, SyncOwned,
      PatchPruning;
    var t := TargetOf(env, pol, i).value;
    var prepared := StepSplits(env, pol, i, calls, p);
    NoFailuresMeansSatisfied(env, p.cluster, t.deps);
    hide SyncTemplate;
    ClashChecked(env, pol, i, calls, prepared, t);
    ClashChecked(env, pol, i, calls, Note(prepared, i, NotReady), t);
    ClashChecked(env, pol, i, calls, ReportReady(prepared, i, calls.readyEmitOk), t);
  }

  lemma ClashChecked(env: Env, pol: Policy, i: nat, calls: Calls, p: Pass, t: Target)
    requires t.definition.Definition? && t.key in p.cluster && Clashes(pol, t.namespaced, p.cluster[t.key])
    ensures
      var r := SyncChecked(env, pol, i, calls, p, t);
      var met := AllSatisfied(env, p.cluster, t.deps);
      && r.Continue? && (r.pass.writes == p.writes || r.pass.writes == p.writes + [Delete(i, t.key)])
      && (t.key !in r.pass.cluster <==>
          if met then HasHubError(t.definition) && DeletesForHubError(calls, t) else calls.deleteOk)
      && (met && !HasHubError(t.definition) ==>
            && r.pass.cluster == p.cluster && r.pass.writes == p.writes
            && r.pass.failed && Report(i, NameClash) in r.pass.reports)
  {
    hide HasHubError, AllSatisfied, Failures, Clashes, SyncOwned, PatchPruning, Local;
    NoFailuresMeansSatisfied(env, p.cluster, t.deps);
    PatchIsLocal(Note(p, i, HubTemplateError), t.key);
  }

  // ---------------------------------------------------------------- errors that are lost

  /**
   * The step deletes an object that turned pending, and the report of that fails: the program then keeps the
   * result of an earlier call, which is no error.
   */
  ghost predicate DropsErrors(env: Env, pol: Policy, i: nat, calls: Calls, cluster: Cluster)
    requires i < |pol.templates|
  {
    var t := TargetOf(env, pol, i);
    && t.Some? && calls.get == GetOk && t.value.key in cluster && !AllSatisfied(env, cluster, t.value.deps)
    && !calls.pendingEmitOk && calls.deleteOk
  }

  /** The step itself ends with an error, whatever happened before it. */
  ghost predicate Fails(env: Env, pol: Policy, i: nat, calls: Calls, p: Pass)
    requires i < |pol.templates|
  {
    SyncTemplate(env, pol, i, calls, p.(failed := false)).pass.failed
  }

  /** The two results differ in nothing but the error they have so far. */
  ghost predicate SameButErrors(r: Result, q: Result, failed: bool) {
    && (r.Continue? <==> q.Continue?) && r.pass == q.pass.(failed := r.pass.failed)
    && (r.Continue? ==> (r.pass.failed <==> q.pass.failed || failed))
  }

  lemma AfterCreateErrors(i: nat, calls: Calls, p: Pass, t: Target)
    requires t.definition.Definition?
    ensures SameButErrors(AfterCreate(i, calls, p, t), AfterCreate(i, calls, p.(failed := false), t), p.failed)
  {
    hide IsConstraintTemplate, IsGatekeeper;
  }

  lemma MissingErrors(env: Env, pol: Policy, i: nat, calls: Calls, p: Pass, t: Target)
    requires t.definition.Definition?
    ensures
      SameButErrors(
        SyncMissing(env, pol, i, calls, p, t), SyncMissing(env, pol, i, calls, p.(failed := false), t), p.failed)
  {
    hide Wanted, Stored, HasHubError, Failures, AfterCreate;
    if Failures(env, p.cluster, t.deps) == map[] && !HasHubError(t.definition) && calls.create == WriteOk {
      var created := Creation(env, pol, i, calls, p, t);
      assert created.(failed := false) == Creation(env, pol, i, calls, p.(failed := false), t);
      assert SyncMissing(env, pol, i, calls, p, t) == AfterCreate(i, calls, created, t);
      AfterCreateErrors(i, calls, created, t);
    }
  }

  lemma ResetErrors(pol: Policy, i: nat, calls: Calls, p: Pass, t: Target, read: Object)
    requires t.definition.Definition? && t.key in p.cluster
    ensures
      var r, q := ResetStatus(pol, i, calls, p, t, read), ResetStatus(pol, i, calls, p.(failed := false), t, read);
      r == q.(failed := r.failed) && (r.failed <==> q.failed || p.failed)
  {
    hide Contains;
  }

  lemma UpdatedErrors(pol: Policy, i: nat, calls: Calls, p: Pass, t: Target, stored: Object, existing: Object)
    requires t.definition.Definition? && t.key in p.cluster
    ensures
      var r := AfterUpdate(pol, i, calls, p, t, stored, existing);
      var q := AfterUpdate(pol, i, calls, p.(failed := false), t, stored, existing);
      r == q.(failed := r.failed) && (r.failed <==> q.failed || p.failed)
  {
    hide ResetStatus, IsConstraintTemplate, IsGatekeeper;
    var q := p.(failed := false);
    ResetErrors(pol, i, calls, p, t, existing);
    ResetErrors(pol, i, calls, ReportReady(p, i, calls.updatedEmitOk), t, existing);
    ResetErrors(pol, i, calls, ReportReady(q, i, calls.updatedEmitOk), t, existing);
    assert ReportReady(p, i, calls.updatedEmitOk).(failed := false) ==
      ReportReady(q, i, calls.updatedEmitOk).(failed := false);
  }

  lemma OwnedErrors(env: Env, pol: Policy, i: nat, calls: Calls, p: Pass, t: Target)
    requires t.definition.Definition? && t.key in p.cluster
    ensures
      SameButErrors(
        SyncOwned(env, pol, i, calls, p, t), SyncOwned(env, pol, i, calls, p.(failed := false), t), p.failed)
  {
    hide Equivalent, Wanted, WantedOwners, Stored, Updated, ResetStatus, AfterUpdate, IsGatekeeper;
    var d, existing := t.definition, p.cluster[t.key];
    ResetErrors(pol, i, calls, p, t, existing);
    var stored := Stored(d.gvk.kind, Updated(d.gvk.kind, existing,
      Wanted(env, pol, d, WantedOwners(pol, t.namespaced, existing))));
    var updated := p.(cluster := p.cluster[t.key := stored], writes := p.writes + [Update(i, t.key)]);
    UpdatedErrors(pol, i, calls, updated, t, stored, existing);
  }

  lemma PatchErrors(p: Pass, key: Key, failed: bool)
    requires key in p.cluster
    ensures PatchPruning(p.(failed := failed), key) == PatchPruning(p, key).(failed := failed)
    ensures PatchPruning(p, key).failed == p.failed
  {
    hide CanSet, SetAt;
  }

  lemma CheckedErrors(env: Env, pol: Policy, i: nat, calls: Calls, p: Pass, t: Target)
    requires t.definition.Definition? && t.key in p.cluster
    ensures
      var r, q := SyncChecked(env, pol, i, calls, p, t), SyncChecked(env, pol, i, calls, p.(failed := false), t);
      var drops := !AllSatisfied(env, p.cluster, t.deps) && !calls.pendingEmitOk;
      && SameButErrors(r, q, p.failed && !drops)
      && (r.Continue? && drops ==> if calls.deleteOk then !r.pass.failed else q.pass.failed)
  {
    NoFailuresMeansSatisfied(env, p.cluster, t.deps);
    OwnedErrors(env, pol, i, calls, p, t);
    PatchErrors(Note(p, i, HubTemplateError), t.key, false);
    hide SyncOwned, HasHubError, Clashes, Failures, AllSatisfied, PatchPruning;
    if Failures(env, p.cluster, t.deps) != map[] {
    } else if HasHubError(t.definition) {
    } else {
    }
  }

  lemma ExistingErrors(env: Env, pol: Policy, i: nat, calls: Calls, p: Pass, t: Target)
    requires t.definition.Definition? && t.key in p.cluster
    ensures
      var r, q := SyncExisting(env, pol, i, calls, p, t), SyncExisting(env, pol, i, calls, p.(failed := false), t);
      var drops := !AllSatisfied(env, p.cluster, t.deps) && !calls.pendingEmitOk;
      && SameButErrors(r, q, p.failed && !drops)
      && (r.Continue? && drops ==> if calls.deleteOk then !r.pass.failed else q.pass.failed)
  {
    hide SyncChecked, AllSatisfied, IsConstraintTemplate;
    var q := p.(failed := false);
    CheckedErrors(env, pol, i, calls, p, t);
    CheckedErrors(env, pol, i, calls, Note(p, i, NotReady), t);
    assert Note(p, i, NotReady).(failed := false) == Note(q, i, NotReady);
    CheckedErrors(env, pol, i, calls, ReportReady(p, i, calls.readyEmitOk), t);
    CheckedErrors(env, pol, i, calls, ReportReady(q, i, calls.readyEmitOk), t);
    assert ReportReady(p, i, calls.readyEmitOk).(failed := false) ==
      ReportReady(q, i, calls.readyEmitOk).(failed := false);
  }

  /** An earlier error is lost in exactly one way, and a step that loses it has none of its own. */
  lemma StepErrors(env: Env, pol: Policy, i: nat, calls: Calls, p: Pass)
    requires i < |pol.templates|
    ensures
      var r := SyncTemplate(env, pol, i, calls, p);
      var drops := DropsErrors(env, pol, i, calls, p.cluster);
      r.Continue? ==>
        && (r.pass.failed <==> Fails(env, pol, i, calls, p) || (p.failed && !drops))
        && (drops ==> !r.pass.failed)
        && (p.failed ==> (!r.pass.failed <==> drops))
  {
    hide Prepare, TargetOf, SyncExisting, SyncMissing, AllSatisfied;
    PrepareErrors(env, pol, i, p);
    PrepareMeaning(env, pol, i, p);
    var prepared := Prepare(env, pol, i, p).pass;
    var t := TargetOf(env, pol, i);
    if t.Some? {
      MissingErrors(env, pol, i, calls, prepared, t.value);
      if t.value.key in p.cluster {
        ExistingErrors(env, pol, i, calls, prepared, t.value);
      }
    }
  }

  lemma PrepareErrors(env: Env, pol: Policy, i: nat, p: Pass)
    requires i < |pol.templates|
    ensures
      var r, q := Prepare(env, pol, i, p), Prepare(env, pol, i, p.(failed := false));
      && q.pass.(failed := r.pass.failed) == r.pass
      && (q.Skipped? <==> r.Skipped?) && (q.Stopped? <==> r.Stopped?)
      && (r.Prepared? ==> r.pass.failed == p.failed && !q.pass.failed && q.target == r.target)
      && (r.Skipped? ==> (r.pass.failed <==> q.pass.failed || p.failed))
  {
    hide TopLevel, AddExtra, KeyFor, IsSupported;
  }

  ghost predicate DropsErrorsAt(env: Env, pol: Policy, calls: seq<Calls>, start: Pass, i: nat)
    requires i < |pol.templates| == |calls|
  {
    DropsErrors(env, pol, i, calls[i], PassTo(env, pol, calls, start, i).pass.cluster)
  }

  ghost predicate FailsAt(env: Env, pol: Policy, calls: seq<Calls>, start: Pass, i: nat)
    requires i < |pol.templates| == |calls|
  {
    Fails(env, pol, i, calls[i], PassTo(env, pol, calls, start, i).pass)
  }

  /** The error of template i is not followed by a step that drops it. */
  ghost predicate ErrorSurvives(env: Env, pol: Policy, calls: seq<Calls>, start: Pass, n: nat, i: nat)
    requires i < n <= |pol.templates| == |calls|
  {
    FailsAt(env, pol, calls, start, i) && forall j :: i < j < n ==> !DropsErrorsAt(env, pol, calls, start, j)
  }

  /** The loop ends with an error exactly when the error of some template is not dropped by a later one. */
  lemma {:induction false} PassErrorsIff(env: Env, pol: Policy, calls: seq<Calls>, start: Pass, n: nat)
    requires n <= |pol.templates| == |calls| && !start.failed && PassTo(env, pol, calls, start, n).Continue?
    ensures
      PassTo(env, pol, calls, start, n).pass.failed <==>
      exists i :: 0 <= i < n && ErrorSurvives(env, pol, calls, start, n, i)
    decreases n
  {
    hide SyncTemplate, DropsErrors, Fails;
    if n > 0 {
      PassErrorsIff(env, pol, calls, start, n - 1);
      var before := PassTo(env, pol, calls, start, n - 1);
      StepErrors(env, pol, n - 1, calls[n - 1], before.pass);
      var r := PassTo(env, pol, calls, start, n);
      assert r.pass.failed <==>
        || FailsAt(env, pol, calls, start, n - 1)
        || (before.pass.failed && !DropsErrorsAt(env, pol, calls, start, n - 1));
      hide PassTo;
      assert ErrorSurvives(env, pol, calls, start, n, n - 1) <==> FailsAt(env, pol, calls, start, n - 1);
      forall i | 0 <= i < n - 1
        ensures ErrorSurvives(env, pol, calls, start, n, i) <==>
          ErrorSurvives(env, pol, calls, start, n - 1, i) && !DropsErrorsAt(env, pol, calls, start, n - 1)
      {
      }
      hide ErrorSurvives, DropsErrorsAt, FailsAt;
      if r.pass.failed && !FailsAt(env, pol, calls, start, n - 1) {
        var i :| 0 <= i < n - 1 && ErrorSurvives(env, pol, calls, start, n - 1, i);
        assert ErrorSurvives(env, pol, calls, start, n, i);
      }
    }
  }

  /**
   * A pass that loses an error: the first template is unreadable, which is an error, and the second turns pending
   * while the report of that fails. The reconcile ends without an error and is not tried again.
   */
  lemma LostError(env: Env, pol: Policy, calls: seq<Calls>, o: Outer, store: Store)
    requires |pol.templates| == |calls| == 2 && pol.templates[0].definition.NotJson? && !o.deleting && !o.uninstalling
    requires DropsErrors(env, pol, 1, calls[1], store.cluster) && StatusRead(calls[1], TargetOf(env, pol, 1).value)
    requires o.watchOk && o.crdListOk && o.updateOk && o.unlistable == {} && o.undeletable == {}
    ensures
      var start := StartOfPass(env, pol, store.cluster, store.createdGk);
      && FailsAt(env, pol, calls, start, 0)
      && !ReconcileErrs(env, pol, calls, o, store)
  {
    hide SyncExisting, TargetOf, TopLevel, CleanedUp, GatekeeperKinds, AllSatisfied, FinalizerCleanupErrs;
    var start := StartOfPass(env, pol, store.cluster, store.createdGk);
    var first := PassTo(env, pol, calls, start, 1);
    assert PassTo(env, pol, calls, start, 0) == Continue(start);
    assert first == Continue(Problem(start, 0, DecodeError));
    var prepared := StepSplits(env, pol, 1, calls[1], first.pass);
    var t := TargetOf(env, pol, 1).value;
    StepErrors(env, pol, 1, calls[1], first.pass);
    PendingContinues(env, pol, 1, calls[1], prepared, t);
  }

  lemma PendingContinues(env: Env, pol: Policy, i: nat, calls: Calls, p: Pass, t: Target)
    requires t.definition.Definition? && t.key in p.cluster && StatusRead(calls, t)
    requires !AllSatisfied(env, p.cluster, t.deps)
    ensures SyncExisting(env, pol, i, calls, p, t).Continue?
  {
    hide AllSatisfied, Failures, SyncOwned, HasHubError, Clashes;
    NoFailuresMeansSatisfied(env, p.cluster, t.deps);
  }

  const CONFIGURATION_POLICY := GVK(POLICY_GROUP, "v1", "ConfigurationPolicy")

  /** Such a pass exists: the second template depends on an object of a kind that has no API. */
  lemma LostErrorHappens() returns (env: Env, pol: Policy, calls: seq<Calls>, store: Store)
    ensures |pol.templates| == |calls| == 2 && pol.templates[0].definition.NotJson?
    ensures DropsErrors(env, pol, 1, calls[1], store.cluster) && StatusRead(calls[1], TargetOf(env, pol, 1).value)
  {
    var missing := Dependency(GVK("example.com", "v1", "Missing"), "", "a", "Compliant");
    var definition := Definition(CONFIGURATION_POLICY, "b", [], map[], map[], None);
    env := Env("managed", false, map[CONFIGURATION_POLICY := Mapping("configurationpolicies", true)], {},
               {(POLICY_GROUP, "configurationpolicies")}, {}, {});
    var templates := [PolicyTemplate(NotJson, []), PolicyTemplate(definition, [missing])];
    pol := Policy("policy", "managed", "", "", "", [], templates, [], []);
    var call := Calls(GetOk, WriteOk, WriteOk, true, true, true, false, true, true, true, None);
    calls := [call, call];
    var key := Key(POLICY_GROUP, "configurationpolicies", "managed", "b");
    store := Store(map[key := Object([], map[], map[], None, NO_STATUS)], [], {}, None);
    var id := DependencyId(env, missing);
    assert id.gvk == missing.gvk;
    assert pol.templates[1].extra == [missing] && [missing][1..] == [];
    assert TopLevel(env, []) == map[];
    var none := Collected(map[], map[], false);
    var one := Collected(map[id := "Compliant"], map[id := "Compliant"], false);
    assert AddExtra(env, one, []) == one;
    assert AddExtra(env, none, [missing]) == AddExtra(env, one, []);
    assert DepsOf(env, pol, 1) == one;
    assert TargetOf(env, pol, 1).Some? && TargetOf(env, pol, 1).value.key == key;
    assert missing.gvk !in env.discovery;
    assert !Satisfied(env, store.cluster, id, "Compliant");
  }
}
