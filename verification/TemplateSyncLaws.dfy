/** What a pass of template-sync guarantees about dependencies, ownership, watches and finalizers. */
module TemplateSyncLaws {
  import opened Text
  import opened StatusSync
  import opened TemplateObjects
  import opened TemplateSync

  // ---------------------------------------------------------------- dependencies

  /** Position of the first dependency on an object, or the length of the list. */
  function FirstOn(env: Env, list: seq<Dependency>, id: ObjectId): (k: nat)
    ensures k <= |list| && (k < |list| ==> DependencyId(env, list[k]) == id)
    ensures forall j :: 0 <= j < k ==> DependencyId(env, list[j]) != id
  {
    if list == [] || DependencyId(env, list[0]) == id then 0 else 1 + FirstOn(env, list[1..], id)
  }

  /** Every object listed is a dependency, with the compliance of its first mention. */
  lemma {:induction false} FirstMentionWins(env: Env, list: seq<Dependency>, id: ObjectId)
    ensures
      var k := FirstOn(env, list, id);
      if k < |list| then id in TopLevel(env, list) && TopLevel(env, list)[id] == list[k].compliance
      else id !in TopLevel(env, list)
  {
    if list != [] {
      var n := |list| - 1;
      FirstMentionWins(env, list[..n], id);
      var k, before := FirstOn(env, list, id), FirstOn(env, list[..n], id);
      assert forall j :: 0 <= j < n ==> list[..n][j] == list[j];
      assert k == if before < n then before else if DependencyId(env, list[n]) == id then n else n + 1;
    }
  }

  /** The group-specific rule for a dependency to be met. */
  ghost predicate Satisfied(env: Env, cluster: Cluster, id: ObjectId, wanted: string) {
    && id.gvk in env.discovery && id.gvk !in env.discoveryFails
    && var m := env.discovery[id.gvk];
       var key := Key(id.gvk.group, m.resource, if m.namespaced then id.namespace else "", id.name);
       && key !in env.unreadable
       && (id.gvk.group == CONSTRAINT_TEMPLATE_GROUP ==> (key in cluster <==> wanted == "Compliant"))
       && (id.gvk.group == CONSTRAINT_GROUP ==>
             && key in cluster
             && var violations := cluster[key].status.totalViolations;
                violations.Some? && (violations.value == 0 <==> wanted == "Compliant"))
       && (id.gvk.group != CONSTRAINT_TEMPLATE_GROUP && id.gvk.group != CONSTRAINT_GROUP ==>
             key in cluster && cluster[key].status.compliant == Some(wanted))
  }

  ghost predicate AllSatisfied(env: Env, cluster: Cluster, deps: map<ObjectId, string>) {
    forall id :: id in deps ==> Satisfied(env, cluster, id, deps[id])
  }

  lemma GroupsDiffer()
    ensures CONSTRAINT_TEMPLATE_GROUP != CONSTRAINT_GROUP
  {
    assert CONSTRAINT_TEMPLATE_GROUP[0] == 't';
  }

  lemma FailureMeaning(env: Env, cluster: Cluster, id: ObjectId, wanted: string)
    ensures FailureOf(env, cluster, id, wanted).None? <==> Satisfied(env, cluster, id, wanted)
  {
    GroupsDiffer();
  }

  /** processDependencies finds nothing exactly when every dependency is met. */
  lemma NoFailuresMeansSatisfied(env: Env, cluster: Cluster, deps: map<ObjectId, string>)
    ensures Failures(env, cluster, deps) == map[] <==> AllSatisfied(env, cluster, deps)
  {
    hide FailureOf, Satisfied;
    var failures := Failures(env, cluster, deps);
    forall id | id in deps ensures id in failures <==> !Satisfied(env, cluster, id, deps[id]) {
      FailureMeaning(env, cluster, id, deps[id]);
    }
    if failures != map[] {
      assert failures.Keys != {};
      var id :| id in failures;
      assert !Satisfied(env, cluster, id, deps[id]);
    }
  }

  /** The dependencies of template i, unless they conflict. */
  function DepsOf(env: Env, pol: Policy, i: nat): Collected
    requires i < |pol.templates|
  {
    AddExtra(env, Collected(TopLevel(env, pol.dependencies), map[], false), pol.templates[i].extra)
  }

  lemma {:induction false} ExtraIgnoresAll(env: Env, c: Collected, all: map<ObjectId, string>, list: seq<Dependency>)
    ensures
      var a, b := AddExtra(env, c, list), AddExtra(env, c.(all := all), list);
      && a.deps == b.deps && a.conflict == b.conflict
      && (c.all.Keys <= c.deps.Keys + all.Keys ==> a.all.Keys <= a.deps.Keys + b.all.Keys)
    decreases |list|
  {
    if list != [] && !c.conflict {
      var id, wanted := DependencyId(env, list[0]), list[0].compliance;
      if !(id in c.deps && c.deps[id] != wanted) {
        var next := c.(deps := c.deps[id := wanted], all := c.all[id := wanted]);
        ExtraIgnoresAll(env, next, all[id := wanted], list[1..]);
      }
    }
  }

  function Ids(env: Env, list: seq<Dependency>): set<ObjectId> {
    set j | 0 <= j < |list| :: DependencyId(env, list[j])
  }

  lemma IdsTail(env: Env, list: seq<Dependency>)
    requires list != []
    ensures Ids(env, list) == {DependencyId(env, list[0])} + Ids(env, list[1..])
  {
    var tail := list[1..];
    assert forall j :: 0 <= j < |tail| ==> tail[j] == list[j + 1];
    forall id | id in Ids(env, list) ensures id in {DependencyId(env, list[0])} + Ids(env, tail) {
      var j :| 0 <= j < |list| && DependencyId(env, list[j]) == id;
      if j > 0 { assert DependencyId(env, tail[j - 1]) == id; }
    }
  }

  /** Extra dependencies add the objects they name to the template and to the watch set, up to a conflict. */
  lemma {:induction false} ExtraKeys(env: Env, c: Collected, list: seq<Dependency>)
    requires !c.conflict
    ensures
      var r := AddExtra(env, c, list);
      && c.deps.Keys <= r.deps.Keys <= c.deps.Keys + Ids(env, list)
      && c.all.Keys <= r.all.Keys <= c.all.Keys + Ids(env, list)
      && r.deps.Keys <= c.deps.Keys + r.all.Keys
      && (!r.conflict ==> r.deps.Keys == c.deps.Keys + Ids(env, list))
    decreases |list|
  {
    if list != [] {
      var id, wanted := DependencyId(env, list[0]), list[0].compliance;
      IdsTail(env, list);
      hide DependencyId, Ids;
      if !(id in c.deps && c.deps[id] != wanted) {
        ExtraKeys(env, c.(deps := c.deps[id := wanted], all := c.all[id := wanted]), list[1..]);
      }
    }
  }

  /** Without a conflict every dependency, of the policy or of the template, keeps its own compliance. */
  lemma {:induction false} ExtraValues(env: Env, c: Collected, list: seq<Dependency>)
    requires !c.conflict
    ensures
      var r := AddExtra(env, c, list);
      && (forall id :: id in c.deps ==> id in r.deps && r.deps[id] == c.deps[id])
      && (!r.conflict ==> forall j :: 0 <= j < |list| ==>
            DependencyId(env, list[j]) in r.deps && r.deps[DependencyId(env, list[j])] == list[j].compliance)
    decreases |list|
  {
    if list != [] {
      var id, wanted := DependencyId(env, list[0]), list[0].compliance;
      hide DependencyId;
      if !(id in c.deps && c.deps[id] != wanted) {
        var tail := list[1..];
        ExtraValues(env, c.(deps := c.deps[id := wanted], all := c.all[id := wanted]), tail);
        assert forall j :: 0 < j < |list| ==> list[j] == tail[j - 1];
      }
    }
  }

  // ---------------------------------------------------------------- one step

  /** The object of template i, when it can be synced at all. */
  function TargetOf(env: Env, pol: Policy, i: nat): (t: Option<Target>)
    requires i < |pol.templates|
    ensures t.Some? ==>
      && t.value.definition == pol.templates[i].definition && t.value.definition.Definition?
      && t.value.definition.name != "" && t.value.key.name == t.value.definition.name
      && t.value.deps == DepsOf(env, pol, i).deps && !DepsOf(env, pol, i).conflict
  {
    var d := pol.templates[i].definition;
    if !d.Definition? || DepsOf(env, pol, i).conflict || d.name == "" then None
    else if d.gvk in env.discoveryFails || d.gvk !in env.discovery then None
    else
      var m := env.discovery[d.gvk];
      var crd := (d.gvk.group, m.resource);
      if crd in env.crdFails || !IsSupported(env, d.gvk, crd) then None
      else Some(Target(d, DepsOf(env, pol, i).deps, KeyFor(m, d.gvk.group, pol.namespace, d.name), m.namespaced))
  }

  ghost predicate PreparedWell(env: Env, pol: Policy, i: nat, p: Pass, r: Prepared)
    requires i < |pol.templates|
  {
    var target := TargetOf(env, pol, i);
    && r.pass.cluster == p.cluster && r.pass.writes == p.writes && r.pass.addFinalizer == p.addFinalizer
    && p.reports <= r.pass.reports
    && (r.Prepared? <==> target.Some?)
    && (r.Prepared? ==>
          && r.target == target.value
          && r.pass.reports == p.reports
          && r.pass.names == p.names + [r.target.definition.name]
          && r.pass.children == p.children + [ChildId(r.target)])
    && (r.Skipped? ==> |p.reports| < |r.pass.reports| && r.pass.children == p.children)
  }

  function ChildId(t: Target): ObjectId
    requires t.definition.Definition?
  {
    ObjectId(t.definition.gvk, t.key.namespace, t.definition.name)
  }

  lemma PrepareNamedMeaning(env: Env, pol: Policy, i: nat, p: Pass, d: Definition, c: Collected)
    requires i < |pol.templates| && d == pol.templates[i].definition && d.Definition?
    requires c.deps == DepsOf(env, pol, i).deps && c.conflict == DepsOf(env, pol, i).conflict
    ensures PreparedWell(env, pol, i, p, PrepareNamed(env, pol, i, p, d, c))
  {
    hide DepsOf, KeyFor, IsSupported;
  }

  /** The checks before the fetch: they find the target, or report a problem, and touch no object. */
  lemma PrepareMeaning(env: Env, pol: Policy, i: nat, p: Pass)
    requires i < |pol.templates|
    ensures PreparedWell(env, pol, i, p, Prepare(env, pol, i, p))
  {
    hide TopLevel, AddExtra, PrepareNamed;
    var t := pol.templates[i];
    if t.definition.Definition? {
      var c := Collected(TopLevel(env, pol.dependencies), p.allDeps, false);
      ExtraIgnoresAll(env, c, map[], t.extra);
      var extra := AddExtra(env, c, t.extra);
      PrepareNamedMeaning(env, pol, i, p.(allDeps := extra.all), t.definition, extra);
    }
  }

  /** What the calls for a prepared template do. */
  function SyncTarget(env: Env, pol: Policy, i: nat, calls: Calls, p: Pass, t: Target): Result
    requires t.definition.Definition?
  {
    if calls.get == GetCanceled then Return(p.(failed := true))
    else if calls.get == GetFailed then Continue(Problem(p, i, GetError))
    else if t.key in p.cluster then SyncExisting(env, pol, i, calls, p, t)
    else SyncMissing(env, pol, i, calls, p, t)
  }

  /** Only the object at `key` may differ, and reports are only added. */
  ghost predicate Local(p: Pass, q: Pass, key: Key) {
    && (forall k :: k != key ==> (k in q.cluster <==> k in p.cluster))
    && (forall k :: k != key && k in p.cluster ==> q.cluster[k] == p.cluster[k])
    && q.names == p.names && q.children == p.children && q.allDeps == p.allDeps
    && p.reports <= q.reports
  }

  /** At most one write, to this object; creating or updating it takes met dependencies. */
  ghost predicate Gated(env: Env, p: Pass, q: Pass, i: nat, t: Target) {
    || q.writes == p.writes
    || q.writes == p.writes + [Delete(i, t.key)]
    || (AllSatisfied(env, p.cluster, t.deps) && t.key !in p.cluster && q.writes == p.writes + [Create(i, t.key)])
    || (AllSatisfied(env, p.cluster, t.deps) && t.key in p.cluster && q.writes == p.writes + [Update(i, t.key)])
  }

  lemma LocalSame(p: Pass, q: Pass, key: Key)
    requires q.cluster == p.cluster && q.names == p.names && q.children == p.children && q.allDeps == p.allDeps
    requires p.reports <= q.reports
    ensures Local(p, q, key)
  {
  }

  lemma LocalPut(p: Pass, key: Key, o: Object, writes: seq<Write>)
    ensures Local(p, p.(cluster := p.cluster[key := o], writes := writes), key)
    ensures Local(p, p.(cluster := p.cluster - {key}, writes := writes), key)
  {
  }

  lemma LocalTransitive(p: Pass, q: Pass, r: Pass, key: Key)
    requires Local(p, q, key) && Local(q, r, key)
    ensures Local(p, r, key)
  {
  }

  lemma AfterCreateIsLocal(i: nat, calls: Calls, p: Pass, t: Target)
    requires t.definition.Definition?
    ensures
      var r := AfterCreate(i, calls, p, t);
      && Local(p, r.pass, t.key) && r.pass.cluster == p.cluster && r.pass.writes == p.writes
  {
    hide IsConstraintTemplate, Finalized, ReportReady, Local;
    var done := Finalized(p, t);
    FinalizedIsLocal(p, t);
    ReportIsLocal(done, i, calls.readyEmitOk, t);
    LocalTransitive(p, done, ReportReady(done, i, calls.readyEmitOk), t.key);
    LocalSame(p, p, t.key);
    LocalSame(p, Note(p, i, NotReady), t.key);
  }

  lemma MissingWrites(env: Env, pol: Policy, i: nat, calls: Calls, p: Pass, t: Target)
    requires t.definition.Definition? && t.key !in p.cluster
    ensures
      var q := SyncMissing(env, pol, i, calls, p, t).pass;
      Local(p, q, t.key) && Gated(env, p, q, i, t)
  {
    NoFailuresMeansSatisfied(env, p.cluster, t.deps);
    hide Stored, Wanted, HasHubError, AllSatisfied, Failures, AfterCreate, Local;
    var q := SyncMissing(env, pol, i, calls, p, t).pass;
    if Failures(env, p.cluster, t.deps) != map[] || HasHubError(t.definition) || calls.create != WriteOk {
      LocalSame(p, q, t.key);
    } else {
      var created := Creation(env, pol, i, calls, p, t);
      LocalPut(p, t.key, created.cluster[t.key], created.writes);
      AfterCreateIsLocal(i, calls, created, t);
      LocalTransitive(p, created, q, t.key);
    }
  }

  /** The Create call of SyncMissing. */
  function Creation(env: Env, pol: Policy, i: nat, calls: Calls, p: Pass, t: Target): Pass
    requires t.definition.Definition?
  {
    var sent := Wanted(env, pol, t.definition, if t.namespaced then [ControllerRef(pol)] else t.definition.owners);
    var stored := Stored(t.definition.gvk.kind, sent).(status := NO_STATUS.(created := calls.ready));
    p.(cluster := p.cluster[t.key := stored], writes := p.writes + [Create(i, t.key)])
  }

  lemma ResetIsLocal(pol: Policy, i: nat, calls: Calls, p: Pass, t: Target, read: Object)
    requires t.definition.Definition? && t.key in p.cluster
    ensures
      var q := ResetStatus(pol, i, calls, p, t, read);
      && Local(p, q, t.key) && q.writes == p.writes && q.addFinalizer == p.addFinalizer && q.reports == p.reports
      && t.key in q.cluster && q.cluster[t.key] == p.cluster[t.key].(status := q.cluster[t.key].status)
  {
    hide Contains;
  }

  lemma OwnedWrites(env: Env, pol: Policy, i: nat, calls: Calls, p: Pass, t: Target)
    requires t.definition.Definition? && t.key in p.cluster
    ensures
      var q := SyncOwned(env, pol, i, calls, p, t).pass;
      Local(p, q, t.key) && (q.writes == p.writes || q.writes == p.writes + [Update(i, t.key)])
  {
    hide Equivalent, Stored, Wanted, Updated, WantedOwners, ResetStatus, IsConstraintTemplate, IsGatekeeper, Local;
    var d, existing := t.definition, p.cluster[t.key];
    var wanted := Wanted(env, pol, d, WantedOwners(pol, t.namespaced, existing));
    var q := SyncOwned(env, pol, i, calls, p, t).pass;
    if Equivalent(d.gvk.kind, existing, wanted) {
      var reset := ResetStatus(pol, i, calls, p, t, existing);
      ResetIsLocal(pol, i, calls, p, t, existing);
      LocalSame(reset, q, t.key);
      LocalTransitive(p, reset, q, t.key);
    } else if calls.update != WriteOk {
      LocalSame(p, q, t.key);
    } else {
      var stored := Stored(d.gvk.kind, Updated(d.gvk.kind, existing, wanted));
      var updated := p.(cluster := p.cluster[t.key := stored], writes := p.writes + [Update(i, t.key)]);
      LocalPut(p, t.key, stored, updated.writes);
      UpdatedIsLocal(pol, i, calls, updated, t, stored, existing);
      LocalTransitive(p, updated, q, t.key);
    }
  }

  lemma FinalizedIsLocal(p: Pass, t: Target)
    requires t.definition.Definition?
    ensures
      var q := Finalized(p, t);
      && Local(p, q, t.key) && q.cluster == p.cluster && q.writes == p.writes
      && q.addFinalizer == (p.addFinalizer || !t.namespaced)
  {
    hide IsGatekeeper;
  }

  lemma ReportIsLocal(p: Pass, i: nat, emitOk: bool, t: Target)
    ensures
      var q := ReportReady(p, i, emitOk);
      Local(p, q, t.key) && q.cluster == p.cluster && q.writes == p.writes && q.addFinalizer == p.addFinalizer
  {
  }

  lemma UpdatedIsLocal(pol: Policy, i: nat, calls: Calls, p: Pass, t: Target, stored: Object, existing: Object)
    requires t.definition.Definition? && t.key in p.cluster
    ensures
      var q := AfterUpdate(pol, i, calls, p, t, stored, existing);
      && Local(p, q, t.key) && q.writes == p.writes
      && t.key in q.cluster && q.cluster[t.key] == p.cluster[t.key].(status := q.cluster[t.key].status)
      && q.addFinalizer == (p.addFinalizer || !t.namespaced)
  {
    hide ResetStatus, IsConstraintTemplate, Local, Finalized, ReportReady;
    var ready := stored != existing && IsConstraintTemplate(t.definition.gvk) && !t.namespaced;
    var noted := if ready then ReportReady(p, i, calls.updatedEmitOk) else p;
    ReportIsLocal(p, i, calls.updatedEmitOk, t);
    LocalSame(p, p, t.key);
    LocalSame(noted, noted, t.key);
    ResetIsLocal(pol, i, calls, noted, t, existing);
    var reset := if stored == existing then noted else ResetStatus(pol, i, calls, noted, t, existing);
    LocalTransitive(p, noted, reset, t.key);
    FinalizedIsLocal(reset, t);
    LocalTransitive(p, reset, Finalized(reset, t), t.key);
  }

  lemma DeleteIsLocal(i: nat, calls: Calls, p: Pass, t: Target)
    ensures
      var q := DeleteObject(i, calls, p, t);
      Local(p, q, t.key) && (q.writes == p.writes || q.writes == p.writes + [Delete(i, t.key)])
  {
    LocalPut(p, t.key, Object([], map[], map[], None, NO_STATUS), p.writes + [Delete(i, t.key)]);
  }

  lemma CheckedWrites(env: Env, pol: Policy, i: nat, calls: Calls, p: Pass, t: Target)
    requires t.definition.Definition? && t.key in p.cluster
    ensures
      var q := SyncChecked(env, pol, i, calls, p, t).pass;
      Local(p, q, t.key) && Gated(env, p, q, i, t)
  {
    NoFailuresMeansSatisfied(env, p.cluster, t.deps);
    hide SyncOwned, HasHubError, Clashes, AllSatisfied, Failures, PatchPruning, DeleteObject, Local;
    var q := SyncChecked(env, pol, i, calls, p, t).pass;
    if Failures(env, p.cluster, t.deps) != map[] {
      var noted := Note(p, i, PendingDependencies).(failed := p.failed && calls.pendingEmitOk);
      LocalSame(p, noted, t.key);
      DeleteIsLocal(i, calls, noted, t);
      LocalTransitive(p, noted, q, t.key);
    } else if HasHubError(t.definition) {
      var noted := Note(p, i, HubTemplateError);
      LocalSame(p, noted, t.key);
      LocalSame(p, noted.(failed := true), t.key);
      DeleteIsLocal(i, calls, noted, t);
      PatchIsLocal(noted, t.key);
      var patched := PatchPruning(noted, t.key);
      LocalTransitive(p, noted, patched, t.key);
      DeleteIsLocal(i, calls, patched, t);
      LocalTransitive(p, noted, DeleteObject(i, calls, noted, t), t.key);
      LocalTransitive(p, patched, DeleteObject(i, calls, patched, t), t.key);
    } else if Clashes(pol, t.namespaced, p.cluster[t.key]) {
      LocalSame(p, q, t.key);
    } else {
      OwnedWrites(env, pol, i, calls, p, t);
    }
  }

  lemma PatchIsLocal(p: Pass, key: Key)
    requires key in p.cluster
    ensures Local(p, PatchPruning(p, key), key) && PatchPruning(p, key).writes == p.writes
    ensures key in PatchPruning(p, key).cluster && PatchPruning(p, key).reports == p.reports
    ensures PatchPruning(p, key).addFinalizer == p.addFinalizer
  {
    hide CanSet, SetAt;
  }

  lemma TargetWrites(env: Env, pol: Policy, i: nat, calls: Calls, p: Pass, t: Target)
    requires t.definition.Definition?
    ensures
      var q := SyncTarget(env, pol, i, calls, p, t).pass;
      Local(p, q, t.key) && Gated(env, p, q, i, t)
  {
    hide SyncMissing, SyncChecked, AllSatisfied;
    if calls.get == GetOk {
      if t.key !in p.cluster {
        MissingWrites(env, pol, i, calls, p, t);
      } else {
        CheckedWrites(env, pol, i, calls, p, t);
        CheckedWrites(env, pol, i, calls, Note(p, i, NotReady), t);
        CheckedWrites(env, pol, i, calls, ReportReady(p, i, calls.readyEmitOk), t);
      }
    }
  }

  // ---------------------------------------------------------------- what a step leaves behind

  /** The next step for this template would not update its object. */
  ghost predicate InSync(env: Env, pol: Policy, t: Target, cluster: Cluster)
    requires t.definition.Definition?
  {
    t.key in cluster && !HasHubError(t.definition) && !Clashes(pol, t.namespaced, cluster[t.key]) ==>
      Matches(env, pol, t, cluster[t.key])
  }

  ghost predicate Matches(env: Env, pol: Policy, t: Target, o: Object)
    requires t.definition.Definition?
  {
    Equivalent(t.definition.gvk.kind, o, Wanted(env, pol, t.definition, WantedOwners(pol, t.namespaced, o)))
  }

  /** Equivalence does not look at the status. */
  lemma StatusDoesNotMatter(env: Env, pol: Policy, t: Target, o: Object, status: ObjectStatus)
    requires t.definition.Definition?
    ensures Matches(env, pol, t, o.(status := status)) <==> Matches(env, pol, t, o)
    ensures Clashes(pol, t.namespaced, o.(status := status)) <==> Clashes(pol, t.namespaced, o)
  {
    hide Defaults, DefaultLabels, OverrideRemediation, ParentLabel;
  }

  /** The labels a template object gets: five set by the controller, the rest from the template. */
  lemma DefaultLabelsMeaning(env: Env, pol: Policy, labels: map<string, string>)
    ensures
      var r := DefaultLabels(env, pol, labels);
      && PARENT_POLICY_LABEL in r && r[PARENT_POLICY_LABEL] == pol.name
      && "cluster-name" in r && r["cluster-name"] == pol.clusterName
      && CLUSTER_NAME_LABEL in r && r[CLUSTER_NAME_LABEL] == pol.clusterName
      && "cluster-namespace" in r && r["cluster-namespace"] == env.clusterNamespace
      && CLUSTER_NAMESPACE_LABEL in r && r[CLUSTER_NAMESPACE_LABEL] == env.clusterNamespace
      && labels.Keys <= r.Keys
      && forall key :: key in labels && r[key] != labels[key] ==>
           || key == PARENT_POLICY_LABEL || key == "cluster-name" || key == CLUSTER_NAME_LABEL
           || key == "cluster-namespace" || key == CLUSTER_NAMESPACE_LABEL
  {
    assert |"cluster-name"| == 12 && |"cluster-namespace"| == 17 && |PARENT_POLICY_LABEL| == 40;
    assert |CLUSTER_NAME_LABEL| == 46 && |CLUSTER_NAMESPACE_LABEL| == 51;
  }

  lemma ParentLabelSet(env: Env, pol: Policy, labels: map<string, string>)
    ensures ParentLabel(DefaultLabels(env, pol, labels)) == pol.name
  {
    DefaultLabelsMeaning(env, pol, labels);
  }

  /** A created object matches its template. */
  lemma CreatedMatches(env: Env, pol: Policy, t: Target, status: ObjectStatus)
    requires t.definition.Definition?
    ensures
      var owners := if t.namespaced then [ControllerRef(pol)] else t.definition.owners;
      Matches(env, pol, t, Stored(t.definition.gvk.kind, Wanted(env, pol, t.definition, owners)).(status := status))
  {
    var owners := if t.namespaced then [ControllerRef(pol)] else t.definition.owners;
    var wanted := Wanted(env, pol, t.definition, owners);
    var stored := Stored(t.definition.gvk.kind, wanted);
    ParentLabelSet(env, pol, t.definition.labels);
    hide Defaults, DefaultLabels, OverrideRemediation, ParentLabel;
    StoredIsEquivalent(t.definition.gvk.kind, wanted, wanted);
    assert WantedOwners(pol, t.namespaced, stored) == owners;
    StatusDoesNotMatter(env, pol, t, stored, status);
  }

  /** So does an updated one, also when its owner reference was recovered from the label. */
  lemma UpdatedMatches(env: Env, pol: Policy, t: Target, existing: Object)
    requires t.definition.Definition? && !Clashes(pol, t.namespaced, existing)
    ensures
      var wanted := Wanted(env, pol, t.definition, WantedOwners(pol, t.namespaced, existing));
      Matches(env, pol, t, Stored(t.definition.gvk.kind, Updated(t.definition.gvk.kind, existing, wanted)))
  {
    var kind := t.definition.gvk.kind;
    var wanted := Wanted(env, pol, t.definition, WantedOwners(pol, t.namespaced, existing));
    var stored := Stored(kind, Updated(kind, existing, wanted));
    ParentLabelSet(env, pol, t.definition.labels);
    hide Defaults, DefaultLabels, OverrideRemediation, ParentLabel;
    StoredIsEquivalent(kind, existing, wanted);
    assert WantedOwners(pol, t.namespaced, stored) == wanted.owners;
  }

  /** Reading, updating and deleting succeed. Creating may fail: nothing is left behind then. */
  ghost predicate Works(calls: Calls) {
    calls.get == GetOk && calls.update == WriteOk && calls.deleteOk
  }

  lemma MissingLeavesInSync(env: Env, pol: Policy, i: nat, calls: Calls, p: Pass, t: Target)
    requires t.definition.Definition? && t.key !in p.cluster
    ensures InSync(env, pol, t, SyncMissing(env, pol, i, calls, p, t).pass.cluster)
  {
    CreatedMatches(env, pol, t, NO_STATUS.(created := calls.ready));
    hide Matches, Stored, Wanted, HasHubError, Failures, AfterCreate, Clashes, ControllerRef, Local;
    if Failures(env, p.cluster, t.deps) == map[] && !HasHubError(t.definition) && calls.create == WriteOk {
      var created := Creation(env, pol, i, calls, p, t);
      assert SyncMissing(env, pol, i, calls, p, t) == AfterCreate(i, calls, created, t);
      AfterCreateIsLocal(i, calls, created, t);
    }
  }

  lemma OwnedLeavesInSync(env: Env, pol: Policy, i: nat, calls: Calls, p: Pass, t: Target)
    requires t.definition.Definition? && t.key in p.cluster && Works(calls)
    requires !Clashes(pol, t.namespaced, p.cluster[t.key])
    ensures InSync(env, pol, t, SyncOwned(env, pol, i, calls, p, t).pass.cluster)
  {
    var d, existing := t.definition, p.cluster[t.key];
    var wanted := Wanted(env, pol, d, WantedOwners(pol, t.namespaced, existing));
    var q := SyncOwned(env, pol, i, calls, p, t).pass;
    hide Stored, Updated, Wanted, WantedOwners, HasHubError, Equivalent, Clashes, IsConstraintTemplate, ResetStatus,
      Local, AfterUpdate;
    if Equivalent(d.gvk.kind, existing, wanted) {
      ResetIsLocal(pol, i, calls, p, t, existing);
      StatusDoesNotMatter(env, pol, t, existing, q.cluster[t.key].status);
    } else {
      var stored := Stored(d.gvk.kind, Updated(d.gvk.kind, existing, wanted));
      var updated := p.(cluster := p.cluster[t.key := stored], writes := p.writes + [Update(i, t.key)]);
      UpdatedMatches(env, pol, t, existing);
      UpdatedIsLocal(pol, i, calls, updated, t, stored, existing);
      assert q == AfterUpdate(pol, i, calls, updated, t, stored, existing);
      StatusDoesNotMatter(env, pol, t, stored, q.cluster[t.key].status);
    }
  }

  // ---------------------------------------------------------------- how a step ends

  /** A ConstraintTemplate's status could be read. */
  predicate StatusRead(calls: Calls, t: Target)
    requires t.definition.Definition?
  {
    IsConstraintTemplate(t.definition.gvk) ==> calls.readyOk
  }

  /**
   * The step goes through: dependencies are met, there is no hub error, and the object was missing and is created,
   * ready if it is a ConstraintTemplate, or was there, belongs to the policy and matches or is updated.
   */
  ghost predicate Synced(env: Env, pol: Policy, calls: Calls, cluster: Cluster, t: Target)
    requires t.definition.Definition?
  {
    && calls.get == GetOk && AllSatisfied(env, cluster, t.deps) && !HasHubError(t.definition) && StatusRead(calls, t)
    && if t.key in cluster then
         && !Clashes(pol, t.namespaced, cluster[t.key])
         && (Matches(env, pol, t, cluster[t.key]) || calls.update == WriteOk)
       else
         calls.create == WriteOk && (IsConstraintTemplate(t.definition.gvk) ==> calls.ready == Some(true))
  }

  /** Deleting the object of a template with a hub error takes a patch first if it is a ConfigurationPolicy. */
  predicate DeletesForHubError(calls: Calls, t: Target) {
    calls.deleteOk && (t.key.resource == "configurationpolicies" ==> calls.patchOk)
  }

  /**
   * The step does not go through and yet leaves an object: it could not be fetched, deleted or updated, belongs to
   * another policy, or is a ConstraintTemplate that was created and is not ready.
   */
  ghost predicate LeftBehind(env: Env, pol: Policy, calls: Calls, cluster: Cluster, t: Target)
    requires t.definition.Definition?
  {
    if t.key in cluster then
      calls.get == GetOk ==>
        if !AllSatisfied(env, cluster, t.deps) then !calls.deleteOk
        else if HasHubError(t.definition) then !DeletesForHubError(calls, t)
        else
          || Clashes(pol, t.namespaced, cluster[t.key])
          || (!Matches(env, pol, t, cluster[t.key]) && calls.update != WriteOk)
    else
      && calls.get == GetOk && AllSatisfied(env, cluster, t.deps) && !HasHubError(t.definition)
      && calls.create == WriteOk && IsConstraintTemplate(t.definition.gvk) && calls.ready != Some(true)
  }

  /** The finalizer is marked exactly when the step goes through; the object is there when it does or is left. */
  ghost predicate Outcome(env: Env, pol: Policy, calls: Calls, p: Pass, t: Target, r: Result)
    requires t.definition.Definition?
  {
    && (r.pass.addFinalizer <==> p.addFinalizer || (!t.namespaced && Synced(env, pol, calls, p.cluster, t)))
    && (r.Continue? ==>
          (t.key in r.pass.cluster <==>
           Synced(env, pol, calls, p.cluster, t) || LeftBehind(env, pol, calls, p.cluster, t)))
  }

  lemma AfterCreateMarks(i: nat, calls: Calls, p: Pass, t: Target)
    requires t.definition.Definition?
    ensures
      var r := AfterCreate(i, calls, p, t);
      var ready := StatusRead(calls, t) && (IsConstraintTemplate(t.definition.gvk) ==> calls.ready == Some(true));
      && (r.pass.addFinalizer <==> p.addFinalizer || (!t.namespaced && ready))
      && (r.Continue? ==> StatusRead(calls, t)) && r.pass.cluster == p.cluster
  {
    hide IsConstraintTemplate, IsGatekeeper;
  }

  lemma MissingOutcome(env: Env, pol: Policy, i: nat, calls: Calls, p: Pass, t: Target)
    requires t.definition.Definition? && t.key !in p.cluster && calls.get == GetOk
    ensures Outcome(env, pol, calls, p, t, SyncMissing(env, pol, i, calls, p, t))
  {
    NoFailuresMeansSatisfied(env, p.cluster, t.deps);
    hide Wanted, Stored, HasHubError, Failures, AllSatisfied, IsConstraintTemplate, AfterCreate, StatusRead;
    AfterCreateMarks(i, calls, Creation(env, pol, i, calls, p, t), t);
  }

  lemma OwnedOutcome(env: Env, pol: Policy, i: nat, calls: Calls, p: Pass, t: Target)
    requires t.definition.Definition? && t.key in p.cluster
    ensures
      var r := SyncOwned(env, pol, i, calls, p, t);
      var through := Matches(env, pol, t, p.cluster[t.key]) || calls.update == WriteOk;
      && t.key in r.pass.cluster
      && (r.pass.addFinalizer <==> p.addFinalizer || (!t.namespaced && through))
  {
    hide Equivalent, Stored, Wanted, Updated, WantedOwners, ResetStatus, AfterUpdate, Local;
    var d, existing := t.definition, p.cluster[t.key];
    var wanted := Wanted(env, pol, d, WantedOwners(pol, t.namespaced, existing));
    var stored := Stored(d.gvk.kind, Updated(d.gvk.kind, existing, wanted));
    ResetIsLocal(pol, i, calls, p, t, existing);
    UpdatedIsLocal(pol, i, calls,
      p.(cluster := p.cluster[t.key := stored], writes := p.writes + [Update(i, t.key)]), t, stored, existing);
  }

  lemma CheckedOutcome(env: Env, pol: Policy, i: nat, calls: Calls, p: Pass, t: Target)
    requires t.definition.Definition? && t.key in p.cluster && calls.get == GetOk && StatusRead(calls, t)
    ensures Outcome(env, pol, calls, p, t, SyncChecked(env, pol, i, calls, p, t))
  {
    NoFailuresMeansSatisfied(env, p.cluster, t.deps);
    hide SyncOwned, HasHubError, Clashes, Failures, AllSatisfied, PatchPruning, Matches, IsConstraintTemplate, Local;
    PatchIsLocal(Note(p, i, HubTemplateError), t.key);
    OwnedOutcome(env, pol, i, calls, p, t);
  }

  /** What a step does with its object and with the finalizer, read off the cluster and the results of its calls. */
  lemma TargetOutcome(env: Env, pol: Policy, i: nat, calls: Calls, p: Pass, t: Target)
    requires t.definition.Definition?
    ensures Outcome(env, pol, calls, p, t, SyncTarget(env, pol, i, calls, p, t))
  {
    hide SyncMissing, SyncChecked, AllSatisfied, IsConstraintTemplate, Clashes, Matches, HasHubError;
    if calls.get == GetOk {
      if t.key !in p.cluster {
        MissingOutcome(env, pol, i, calls, p, t);
      } else if StatusRead(calls, t) {
        CheckedOutcome(env, pol, i, calls, p, t);
        CheckedOutcome(env, pol, i, calls, Note(p, i, NotReady), t);
        CheckedOutcome(env, pol, i, calls, ReportReady(p, i, calls.readyEmitOk), t);
      }
    }
  }

  // ---------------------------------------------------------------- in sync after a step

  lemma TargetLeavesInSync(env: Env, pol: Policy, i: nat, calls: Calls, p: Pass, t: Target)
    requires t.definition.Definition? && Works(calls)
    ensures
      var r := SyncTarget(env, pol, i, calls, p, t);
      r.Continue? ==> InSync(env, pol, t, r.pass.cluster)
  {
    hide SyncMissing, SyncChecked, InSync, IsConstraintTemplate;
    if t.key !in p.cluster {
      MissingLeavesInSync(env, pol, i, calls, p, t);
    } else {
      CheckedLeavesInSync(env, pol, i, calls, p, t);
      CheckedLeavesInSync(env, pol, i, calls, Note(p, i, NotReady), t);
      CheckedLeavesInSync(env, pol, i, calls, ReportReady(p, i, calls.readyEmitOk), t);
    }
  }

  lemma CheckedLeavesInSync(env: Env, pol: Policy, i: nat, calls: Calls, p: Pass, t: Target)
    requires t.definition.Definition? && Works(calls) && t.key in p.cluster
    ensures
      var r := SyncChecked(env, pol, i, calls, p, t);
      r.Continue? ==> InSync(env, pol, t, r.pass.cluster)
  {
    hide SyncOwned, HasHubError, Clashes, Failures, PatchPruning, Matches;
    if !Clashes(pol, t.namespaced, p.cluster[t.key]) {
      OwnedLeavesInSync(env, pol, i, calls, p, t);
    }
  }

  /** An object in sync is not updated, and neither is one that belongs to somebody else. */
  lemma InSyncIsNotUpdated(env: Env, pol: Policy, i: nat, calls: Calls, p: Pass, t: Target)
    requires t.definition.Definition? && InSync(env, pol, t, p.cluster)
    ensures SyncTarget(env, pol, i, calls, p, t).pass.writes != p.writes + [Update(i, t.key)]
  {
    hide AllSatisfied, SyncChecked, SyncMissing, InSync, IsConstraintTemplate, Local;
    if t.key !in p.cluster {
      MissingWrites(env, pol, i, calls, p, t);
      assert (p.writes + [Create(i, t.key)])[|p.writes|] != (p.writes + [Update(i, t.key)])[|p.writes|];
      assert (p.writes + [Delete(i, t.key)])[|p.writes|] != (p.writes + [Update(i, t.key)])[|p.writes|];
    } else {
      CheckedIsNotUpdated(env, pol, i, calls, p, t);
      CheckedIsNotUpdated(env, pol, i, calls, Note(p, i, NotReady), t);
      CheckedIsNotUpdated(env, pol, i, calls, ReportReady(p, i, calls.readyEmitOk), t);
    }
  }

  lemma CheckedIsNotUpdated(env: Env, pol: Policy, i: nat, calls: Calls, p: Pass, t: Target)
    requires t.definition.Definition? && t.key in p.cluster && InSync(env, pol, t, p.cluster)
    ensures SyncChecked(env, pol, i, calls, p, t).pass.writes != p.writes + [Update(i, t.key)]
  {
    hide HasHubError, Clashes, Failures, PatchPruning, Wanted, WantedOwners, Equivalent, ResetStatus, Local;
    assert (p.writes + [Delete(i, t.key)])[|p.writes|] != (p.writes + [Update(i, t.key)])[|p.writes|];
    PatchIsLocal(Note(p, i, HubTemplateError), t.key);
    ResetIsLocal(pol, i, calls, p, t, p.cluster[t.key]);
  }
}
