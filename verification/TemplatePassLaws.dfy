/** Properties of whole passes of template-sync, and of one pass after another. */
module TemplatePassLaws {
  import opened Text
  import opened EventCodec
  import opened StatusSync
  import opened TemplateObjects
  import opened TemplateSync
  import opened TemplateSyncLaws

  // ---------------------------------------------------------------- steps of a pass

  /** A template without a target changes no object; one with a target is synced from the same cluster. */
  lemma StepSplits(env: Env, pol: Policy, i: nat, calls: Calls, p: Pass) returns (prepared: Pass)
    requires i < |pol.templates|
    ensures
      var r := SyncTemplate(env, pol, i, calls, p);
      var target := TargetOf(env, pol, i);
      && prepared == Prepare(env, pol, i, p).pass
      && prepared.cluster == p.cluster && prepared.writes == p.writes && prepared.addFinalizer == p.addFinalizer
      && (target.None? ==> r.pass == prepared && (r.Continue? ==> |p.reports| < |prepared.reports|))
      && (target.Some? ==> r == SyncTarget(env, pol, i, calls, prepared, target.value) && prepared.reports == p.reports)
  {
    hide Prepare, TargetOf, SyncExisting, SyncMissing;
    PrepareMeaning(env, pol, i, p);
    prepared := Prepare(env, pol, i, p).pass;
  }

  /** Templates that stand for objects stand for different ones. */
  ghost predicate DistinctTargets(env: Env, pol: Policy) {
    forall i, j :: 0 <= i < j < |pol.templates| && TargetOf(env, pol, i).Some? && TargetOf(env, pol, j).Some? ==>
      TargetOf(env, pol, i).value.key != TargetOf(env, pol, j).value.key
  }

  /**
   * The duplicate check finds every repeated name, as long as no template is unreadable or nameless: either ends
   * the search early.
   */
  lemma {:induction false} NoDupNameMeansDistinct(templates: seq<PolicyTemplate>, i: nat, seen: set<string>)
    requires i <= |templates| && DupNameFrom(templates, i, seen) == ""
    requires forall k :: i <= k < |templates| ==>
      !templates[k].definition.NotJson? && NameOf(templates[k].definition) != ""
    ensures forall k :: i <= k < |templates| ==> NameOf(templates[k].definition) !in seen
    ensures forall j, k :: i <= j < k < |templates| ==>
      NameOf(templates[j].definition) != NameOf(templates[k].definition)
    decreases |templates| - i
  {
    if i < |templates| {
      NoDupNameMeansDistinct(templates, i + 1, seen + {NameOf(templates[i].definition)});
    }
  }

  predicate Readable(templates: seq<PolicyTemplate>, n: nat)
    requires n <= |templates|
  {
    forall l :: 0 <= l < n ==> !templates[l].definition.NotJson?
  }

  ghost predicate Repeats(templates: seq<PolicyTemplate>, k: nat)
    requires k < |templates| && Readable(templates, k + 1)
  {
    exists j :: 0 <= j < k && NameOf(templates[j].definition) == NameOf(templates[k].definition)
  }

  /** Template k is the first to repeat a name, and no template up to it is unreadable. */
  ghost predicate FirstRepeat(templates: seq<PolicyTemplate>, k: nat) {
    && k < |templates| && Readable(templates, k + 1) && Repeats(templates, k)
    && forall l: nat :: l < k ==> !Repeats(templates, l)
  }

  function NamesTo(templates: seq<PolicyTemplate>, n: nat): set<string>
    requires n <= |templates| && Readable(templates, n)
  {
    set l | 0 <= l < n :: NameOf(templates[l].definition)
  }

  lemma {:induction false} DupNameFromHere(templates: seq<PolicyTemplate>, i: nat)
    requires i <= |templates| && Readable(templates, i) && forall l: nat :: l < i ==> !Repeats(templates, l)
    ensures forall k: nat :: FirstRepeat(templates, k) ==>
      DupNameFrom(templates, i, NamesTo(templates, i)) == NameOf(templates[k].definition)
    ensures DupNameFrom(templates, i, NamesTo(templates, i)) != "" ==> exists k: nat :: FirstRepeat(templates, k)
    decreases |templates| - i
  {
    if i < |templates| && !templates[i].definition.NotJson? {
      if Repeats(templates, i) {
        assert FirstRepeat(templates, i);
      } else {
        assert NameOf(templates[i].definition) !in NamesTo(templates, i);
        assert NamesTo(templates, i + 1) == NamesTo(templates, i) + {NameOf(templates[i].definition)};
        DupNameFromHere(templates, i + 1);
      }
    }
  }

  /** The duplicate check reports a name exactly when the first repetition is of a name that is not empty. */
  lemma DupNameIsFirstRepeat(templates: seq<PolicyTemplate>)
    ensures
      DupNameFrom(templates, 0, {}) != "" <==>
      exists k: nat :: FirstRepeat(templates, k) && NameOf(templates[k].definition) != ""
    ensures forall k: nat :: FirstRepeat(templates, k) ==>
      DupNameFrom(templates, 0, {}) == NameOf(templates[k].definition)
  {
    assert NamesTo(templates, 0) == {};
    DupNameFromHere(templates, 0);
  }

  lemma DistinctNamesDistinctTargets(env: Env, pol: Policy)
    requires DupNameFrom(pol.templates, 0, {}) == ""
    requires forall k :: 0 <= k < |pol.templates| ==>
      !pol.templates[k].definition.NotJson? && NameOf(pol.templates[k].definition) != ""
    ensures DistinctTargets(env, pol)
  {
    hide TargetOf, DepsOf;
    NoDupNameMeansDistinct(pol.templates, 0, {});
  }

  // ---------------------------------------------------------------- dependencies gate every write

  /**
   * Over a whole pass, an object is created or updated only for a template whose dependencies were all met in the
   * cluster as it was when its turn came.
   */
  lemma {:induction false} WritesAreGated(env: Env, pol: Policy, calls: seq<Calls>, start: Pass, n: nat, k: nat)
    requires n <= |pol.templates| == |calls| && start.writes == []
    requires k < |PassTo(env, pol, calls, start, n).pass.writes|
    ensures
      var w := PassTo(env, pol, calls, start, n).pass.writes[k];
      && w.index < n && TargetOf(env, pol, w.index).Some? && TargetOf(env, pol, w.index).value.key == w.key
      && var before := PassTo(env, pol, calls, start, w.index);
         before.Continue? && (!w.Delete? ==> AllSatisfied(env, before.pass.cluster, DepsOf(env, pol, w.index).deps))
    decreases n
  {
    hide SyncTemplate, AllSatisfied, SyncTarget, Local, IsSupported, KeyFor, DepsOf;
    if n > 0 {
      var before := PassTo(env, pol, calls, start, n - 1);
      if before.Continue? && k >= |before.pass.writes| {
        var prepared := StepSplits(env, pol, n - 1, calls[n - 1], before.pass);
        if TargetOf(env, pol, n - 1).Some? {
          TargetWrites(env, pol, n - 1, calls[n - 1], prepared, TargetOf(env, pol, n - 1).value);
        }
      } else {
        WritesAreGated(env, pol, calls, start, n - 1, k);
        if before.Continue? {
          StepGrows(env, pol, n - 1, calls[n - 1], before.pass);
        }
      }
    }
  }

  /** Steps only add writes. */
  lemma StepGrows(env: Env, pol: Policy, i: nat, calls: Calls, p: Pass)
    requires i < |pol.templates|
    ensures p.writes <= SyncTemplate(env, pol, i, calls, p).pass.writes
  {
    hide SyncTemplate, SyncTarget, TargetOf, DepsOf, AllSatisfied;
    var prepared := StepSplits(env, pol, i, calls, p);
    if TargetOf(env, pol, i).Some? {
      TargetWrites(env, pol, i, calls, prepared, TargetOf(env, pol, i).value);
    }
  }

  /** When a dependency is not met and the calls work, the object is absent after the template's turn. */
  lemma UnmetMeansAbsent(env: Env, pol: Policy, i: nat, calls: Calls, p: Pass)
    requires i < |pol.templates| && TargetOf(env, pol, i).Some?
    requires !AllSatisfied(env, p.cluster, DepsOf(env, pol, i).deps) && calls.get == GetOk && calls.deleteOk
    ensures
      var r := SyncTemplate(env, pol, i, calls, p);
      r.Continue? ==> TargetOf(env, pol, i).value.key !in r.pass.cluster
  {
    hide SyncTemplate, SyncTarget, AllSatisfied, IsSupported, KeyFor, DepsOf, Clashes, Matches;
    var prepared := StepSplits(env, pol, i, calls, p);
    TargetOutcome(env, pol, i, calls, prepared, TargetOf(env, pol, i).value);
  }

  // ---------------------------------------------------------------- the watch set

  /** Everything the policy lists: its dependencies, and those of its templates. */
  function ListedIds(env: Env, pol: Policy, n: nat): set<ObjectId>
    requires n <= |pol.templates|
  {
    if n == 0 then Ids(env, pol.dependencies) else ListedIds(env, pol, n - 1) + Ids(env, pol.templates[n - 1].extra)
  }

  /** The objects of the templates that can be synced. */
  function TargetIds(env: Env, pol: Policy, n: nat): seq<ObjectId>
    requires n <= |pol.templates|
  {
    if n == 0 then []
    else
      var t := TargetOf(env, pol, n - 1);
      TargetIds(env, pol, n - 1) + if t.Some? then [ChildId(t.value)] else []
  }

  lemma TopLevelIds(env: Env, list: seq<Dependency>)
    ensures TopLevel(env, list).Keys == Ids(env, list)
  {
    hide DependencyId, TopLevel;
    forall id ensures id in TopLevel(env, list) <==> id in Ids(env, list) {
      FirstMentionWins(env, list, id);
      var k := FirstOn(env, list, id);
      if k < |list| { assert DependencyId(env, list[k]) in Ids(env, list); }
    }
  }

  /** What a step adds to the watched dependencies and children. */
  lemma StepWatches(env: Env, pol: Policy, i: nat, calls: Calls, p: Pass)
    requires i < |pol.templates| && TopLevel(env, pol.dependencies).Keys <= p.allDeps.Keys
    ensures
      var r := SyncTemplate(env, pol, i, calls, p);
      var target := TargetOf(env, pol, i);
      && p.allDeps.Keys <= r.pass.allDeps.Keys <= p.allDeps.Keys + Ids(env, pol.templates[i].extra)
      && (target.Some? ==> DepsOf(env, pol, i).deps.Keys <= r.pass.allDeps.Keys)
      && (r.Continue? ==> r.pass.children == p.children + if target.Some? then [ChildId(target.value)] else [])
  {
    hide SyncTarget, TargetOf, AllSatisfied, Ids, TopLevel, AddExtra, SyncTemplate;
    var prepared := StepSplits(env, pol, i, calls, p);
    PrepareMeaning(env, pol, i, p);
    PrepareWatches(env, pol, i, p);
    if TargetOf(env, pol, i).Some? {
      TargetWrites(env, pol, i, calls, prepared, TargetOf(env, pol, i).value);
    } else {
      SkippedStep(env, pol, i, calls, p);
    }
  }

  lemma SkippedStep(env: Env, pol: Policy, i: nat, calls: Calls, p: Pass)
    requires i < |pol.templates| && TargetOf(env, pol, i).None?
    ensures
      var r := SyncTemplate(env, pol, i, calls, p);
      r.Continue? ==> r.pass.children == p.children
  {
    hide TargetOf, Prepare, SyncExisting, SyncMissing;
    PrepareMeaning(env, pol, i, p);
  }

  lemma PrepareAllDeps(env: Env, pol: Policy, i: nat, p: Pass)
    requires i < |pol.templates|
    ensures
      var t := pol.templates[i];
      Prepare(env, pol, i, p).pass.allDeps ==
      if t.definition.Definition? then
        AddExtra(env, Collected(TopLevel(env, pol.dependencies), p.allDeps, false), t.extra).all
      else p.allDeps
  {
    hide TopLevel, AddExtra, KeyFor, IsSupported;
  }

  lemma PrepareWatches(env: Env, pol: Policy, i: nat, p: Pass)
    requires i < |pol.templates| && TopLevel(env, pol.dependencies).Keys <= p.allDeps.Keys
    ensures
      var all := Prepare(env, pol, i, p).pass.allDeps;
      && p.allDeps.Keys <= all.Keys <= p.allDeps.Keys + Ids(env, pol.templates[i].extra)
      && (pol.templates[i].definition.Definition? ==> DepsOf(env, pol, i).deps.Keys <= all.Keys)
  {
    hide TopLevel, AddExtra, Ids, Prepare;
    PrepareAllDeps(env, pol, i, p);
    var c := Collected(TopLevel(env, pol.dependencies), p.allDeps, false);
    var extra := pol.templates[i].extra;
    ExtraKeys(env, c, extra);
    ExtraIgnoresAll(env, c, map[], extra);
  }

  lemma {:induction false} PassWatches(env: Env, pol: Policy, calls: seq<Calls>, start: Pass, n: nat)
    requires n <= |pol.templates| == |calls| && start.children == [] && start.allDeps == TopLevel(env, pol.dependencies)
    ensures
      var r := PassTo(env, pol, calls, start, n);
      r.Continue? ==>
        && r.pass.children == TargetIds(env, pol, n)
        && TopLevel(env, pol.dependencies).Keys <= r.pass.allDeps.Keys <= ListedIds(env, pol, n)
        && forall i :: 0 <= i < n && TargetOf(env, pol, i).Some? ==>
             DepsOf(env, pol, i).deps.Keys <= r.pass.allDeps.Keys
    decreases n
  {
    hide SyncTemplate, TargetOf, DepsOf, TopLevel, Ids;
    if n == 0 {
      TopLevelIds(env, pol.dependencies);
    } else {
      PassWatches(env, pol, calls, start, n - 1);
      var before := PassTo(env, pol, calls, start, n - 1);
      if before.Continue? {
        StepWatches(env, pol, n - 1, calls[n - 1], before.pass);
      }
    }
  }

  /**
   * When a pass reaches its end, the watcher gets every dependency it consulted and every object it fetched, and
   * nothing but the dependencies and template objects of the policy.
   */
  lemma WatchCoversReads(env: Env, pol: Policy, calls: seq<Calls>, cluster: Cluster, createdGk: Option<bool>)
    requires |calls| == |pol.templates|
    ensures
      var n := |pol.templates|;
      var r := PassTo(env, pol, calls, StartOfPass(env, pol, cluster, createdGk), n);
      r.Continue? ==>
        && (forall i :: 0 <= i < n && TargetOf(env, pol, i).Some? ==>
              && DepsOf(env, pol, i).deps.Keys <= WatchSet(r.pass)
              && ChildId(TargetOf(env, pol, i).value) in WatchSet(r.pass))
        && (forall id :: id in WatchSet(r.pass) ==> id in ListedIds(env, pol, n) || id in TargetIds(env, pol, n))
  {
    hide PassTo, TargetOf, DepsOf, TopLevel, ListedIds, TargetIds;
    var n := |pol.templates|;
    PassWatches(env, pol, calls, StartOfPass(env, pol, cluster, createdGk), n);
    forall i | 0 <= i < n && TargetOf(env, pol, i).Some?
      ensures ChildId(TargetOf(env, pol, i).value) in TargetIds(env, pol, n)
    {
      TargetIdsHold(env, pol, n, i);
    }
  }

  lemma {:induction false} TargetIdsHold(env: Env, pol: Policy, n: nat, i: nat)
    requires i < n <= |pol.templates| && TargetOf(env, pol, i).Some?
    ensures ChildId(TargetOf(env, pol, i).value) in TargetIds(env, pol, n)
  {
    hide TargetOf;
    if i < n - 1 { TargetIdsHold(env, pol, n - 1, i); }
  }

  // ---------------------------------------------------------------- a second pass

  ghost predicate AllInSync(env: Env, pol: Policy, cluster: Cluster, from: nat, to: nat)
    requires from <= to <= |pol.templates|
  {
    forall i :: from <= i < to && TargetOf(env, pol, i).Some? ==> InSync(env, pol, TargetOf(env, pol, i).value, cluster)
  }

  /** A step for template i keeps every other template as it was. */
  lemma StepKeepsOthers(env: Env, pol: Policy, i: nat, calls: Calls, p: Pass, j: nat)
    requires i < |pol.templates| && j < |pol.templates| && i != j && DistinctTargets(env, pol)
    requires TargetOf(env, pol, j).Some?
    ensures
      var q := SyncTemplate(env, pol, i, calls, p).pass;
      InSync(env, pol, TargetOf(env, pol, j).value, q.cluster) <==>
        InSync(env, pol, TargetOf(env, pol, j).value, p.cluster)
  {
    hide SyncTemplate, SyncTarget, TargetOf, AllSatisfied, DepsOf, HasHubError, Clashes, Matches;
    var prepared := StepSplits(env, pol, i, calls, p);
    if TargetOf(env, pol, i).Some? {
      TargetWrites(env, pol, i, calls, prepared, TargetOf(env, pol, i).value);
      assert if i < j then TargetOf(env, pol, i).value.key != TargetOf(env, pol, j).value.key
             else TargetOf(env, pol, j).value.key != TargetOf(env, pol, i).value.key;
    }
  }

  lemma {:induction false} PassLeavesAllInSync(env: Env, pol: Policy, calls: seq<Calls>, start: Pass, n: nat)
    requires n <= |pol.templates| == |calls| && DistinctTargets(env, pol)
    requires forall i :: 0 <= i < n ==> Works(calls[i])
    ensures
      var r := PassTo(env, pol, calls, start, n);
      r.Continue? ==> AllInSync(env, pol, r.pass.cluster, 0, n)
    decreases n
  {
    hide SyncTemplate, SyncTarget, TargetOf, DepsOf, InSync, DistinctTargets;
    if n > 0 {
      PassLeavesAllInSync(env, pol, calls, start, n - 1);
      var before, r := PassTo(env, pol, calls, start, n - 1), PassTo(env, pol, calls, start, n);
      if r.Continue? {
        forall i | 0 <= i < n && TargetOf(env, pol, i).Some?
          ensures InSync(env, pol, TargetOf(env, pol, i).value, r.pass.cluster)
        {
          if i < n - 1 {
            StepKeepsOthers(env, pol, n - 1, calls[n - 1], before.pass, i);
          } else {
            var prepared := StepSplits(env, pol, i, calls[i], before.pass);
            TargetLeavesInSync(env, pol, i, calls[i], prepared, TargetOf(env, pol, i).value);
          }
        }
      }
    }
  }

  ghost predicate NoUpdates(writes: seq<Write>) {
    forall k :: 0 <= k < |writes| ==> !writes[k].Update?
  }

  lemma SyncedStepDoesNotUpdate(env: Env, pol: Policy, i: nat, calls: Calls, p: Pass)
    requires i < |pol.templates| && NoUpdates(p.writes)
    requires TargetOf(env, pol, i).Some? ==> InSync(env, pol, TargetOf(env, pol, i).value, p.cluster)
    ensures NoUpdates(SyncTemplate(env, pol, i, calls, p).pass.writes)
  {
    hide SyncTemplate, SyncTarget, TargetOf, DepsOf, AllSatisfied, Local, HasHubError, Clashes, Matches;
    var prepared := StepSplits(env, pol, i, calls, p);
    if TargetOf(env, pol, i).Some? {
      var t := TargetOf(env, pol, i).value;
      TargetWrites(env, pol, i, calls, prepared, t);
      InSyncIsNotUpdated(env, pol, i, calls, prepared, t);
    }
  }

  lemma SyncedStepKeepsRest(env: Env, pol: Policy, i: nat, calls: Calls, p: Pass)
    requires i < |pol.templates| && NoUpdates(p.writes) && DistinctTargets(env, pol)
    requires AllInSync(env, pol, p.cluster, i, |pol.templates|)
    ensures
      var q := SyncTemplate(env, pol, i, calls, p).pass;
      NoUpdates(q.writes) && AllInSync(env, pol, q.cluster, i + 1, |pol.templates|)
  {
    hide SyncTemplate, TargetOf, InSync, DistinctTargets, NoUpdates;
    SyncedStepDoesNotUpdate(env, pol, i, calls, p);
    var q := SyncTemplate(env, pol, i, calls, p).pass;
    forall j | i + 1 <= j < |pol.templates| && TargetOf(env, pol, j).Some?
      ensures InSync(env, pol, TargetOf(env, pol, j).value, q.cluster)
    {
      StepKeepsOthers(env, pol, i, calls, p, j);
    }
  }

  /** A pass over a cluster in sync updates nothing, and stays in sync for the templates to come. */
  lemma {:induction false} SyncedPassDoesNotUpdate(env: Env, pol: Policy, calls: seq<Calls>, start: Pass, n: nat)
    requires n <= |pol.templates| == |calls| && DistinctTargets(env, pol) && start.writes == []
    requires AllInSync(env, pol, start.cluster, 0, |pol.templates|)
    ensures
      var r := PassTo(env, pol, calls, start, n);
      NoUpdates(r.pass.writes) && (r.Continue? ==> AllInSync(env, pol, r.pass.cluster, n, |pol.templates|))
    decreases n
  {
    assert NoUpdates([]);
    if n > 0 {
      var before, r := PassTo(env, pol, calls, start, n - 1), PassTo(env, pol, calls, start, n);
      assert r == if before.Return? then before else SyncTemplate(env, pol, n - 1, calls[n - 1], before.pass);
      hide *;
      SyncedPassDoesNotUpdate(env, pol, calls, start, n - 1);
      if before.Continue? {
        SyncedStepKeepsRest(env, pol, n - 1, calls[n - 1], before.pass);
      }
    }
  }

  lemma CleanUpOnlyRemoves(pol: Policy, names: seq<string>, l: Listing, cluster: Cluster)
    ensures
      var after := CleanedUp(pol, names, l, cluster);
      forall key :: key in after ==> key in cluster && after[key] == cluster[key]
  {
  }

  /** Clean-up only removes objects, which leaves nothing to update. */
  lemma CleanUpKeepsSync(env: Env, pol: Policy, cluster: Cluster, after: Cluster)
    requires AllInSync(env, pol, cluster, 0, |pol.templates|)
    requires forall key :: key in after ==> key in cluster && after[key] == cluster[key]
    ensures AllInSync(env, pol, after, 0, |pol.templates|)
  {
    hide TargetOf, HasHubError, Clashes, Matches;
    forall i | 0 <= i < |pol.templates| && TargetOf(env, pol, i).Some?
      ensures InSync(env, pol, TargetOf(env, pol, i).value, after)
    {
      assert InSync(env, pol, TargetOf(env, pol, i).value, cluster);
    }
  }

  /** Only the parts of the policy that its author writes decide what its templates ask for. */
  lemma SameTemplatesSameSync(env: Env, pol: Policy, later: Policy, cluster: Cluster)
    requires later == pol.(finalizers := later.finalizers, latest := later.latest)
    requires AllInSync(env, pol, cluster, 0, |pol.templates|) && DistinctTargets(env, pol)
    ensures AllInSync(env, later, cluster, 0, |pol.templates|) && DistinctTargets(env, later)
  {
    hide AddExtra, TopLevel, IsSupported, KeyFor, Equivalent, OverrideRemediation, HasHubError, ParentLabel;
    forall i | 0 <= i < |pol.templates| ensures TargetOf(env, later, i) == TargetOf(env, pol, i) {}
    hide TargetOf;
    forall i | 0 <= i < |pol.templates| && TargetOf(env, later, i).Some?
      ensures InSync(env, later, TargetOf(env, later, i).value, cluster)
    {
      assert InSync(env, pol, TargetOf(env, pol, i).value, cluster);
    }
  }

  /**
   * Template-sync settles: after a reconcile whose calls worked, the next reconcile of the same policy issues no
   * update, whatever happens to its calls and however the finalizers and the status changed in between.
   */
  lemma SecondPassUpdatesNothing(
    env: Env, pol: Policy, calls: seq<Calls>, o: Outer, store: Store, later: Policy, calls2: seq<Calls>)
    requires |calls| == |calls2| == |pol.templates| > 0 && DupNameFrom(pol.templates, 0, {}) == ""
    requires DistinctTargets(env, pol) && !o.deleting && !o.uninstalling
    requires forall i :: 0 <= i < |calls| ==> Works(calls[i])
    requires later == pol.(finalizers := later.finalizers, latest := later.latest)
    requires PassTo(env, pol, calls, StartOfPass(env, pol, store.cluster, store.createdGk), |pol.templates|).Continue?
    ensures
      var after := Reconciled(env, pol, calls, o, store);
      var start := StartOfPass(env, later, after.cluster, after.createdGk);
      var second := PassTo(env, later, calls2, start, |pol.templates|);
      NoUpdates(second.pass.writes)
  {
    hide PassTo, AllInSync, DistinctTargets, CleanedUp, FinalizersAfter, WithoutFinalizer, ToClean, TopLevel, Excess,
      Works;
    var n := |pol.templates|;
    var start := StartOfPass(env, pol, store.cluster, store.createdGk);
    var p := PassTo(env, pol, calls, start, n).pass;
    PassLeavesAllInSync(env, pol, calls, start, n);
    var after := Reconciled(env, pol, calls, o, store);
    CleanUpOnlyRemoves(pol, p.names, ToClean(o, p.createdGk), p.cluster);
    CleanUpKeepsSync(env, pol, p.cluster, after.cluster);
    SameTemplatesSameSync(env, pol, later, after.cluster);
    SyncedPassDoesNotUpdate(env, later, calls2, StartOfPass(env, later, after.cluster, after.createdGk), n);
  }

  // ---------------------------------------------------------------- ownership

  /** The name that template-sync compares with the policy, for an object whose owner is not being recovered. */
  function ClaimedBy(o: Object): string {
    if FirstOwner(o) == "" then ParentLabel(o.labels) else FirstOwner(o)
  }

  lemma ClashMeaning(pol: Policy, namespaced: bool, o: Object)
    ensures Clashes(pol, namespaced, o) <==> ClaimedBy(o) != pol.name
  {
    hide ParentLabel;
  }

  /**
   * Template-sync reports a name clash exactly when status-sync judges the object not owned, if the first owner
   * reference, where there is one, is of kind Policy.
   */
  lemma ClashIffNotOwned(pol: Policy, namespaced: bool, o: Object, history: seq<RawHistory>)
    requires pol.name != "" && (o.owners == [] || o.owners[0].kind == POLICY_KIND)
    ensures Clashes(pol, namespaced, o) <==> !OwnedByPolicy(Live(o.owners, o.labels, history), pol.name)
  {
    ClashMeaning(pol, namespaced, o);
    hide ParentLabel;
  }

  /**
   * The owner references and the label name one policy, whichever of them is read: the first reference is of kind
   * Policy, or it bears the name of the first one that is, or of the label where one of the two has no name.
   */
  predicate NamesOnePolicy(o: Object) {
    || o.owners == [] || o.owners[0].kind == POLICY_KIND
    || NamesAgree(o.owners[0].name, FirstPolicyOwner(o.owners), ParentLabel(o.labels))
  }

  predicate NamesAgree(first: string, policy: string, labelled: string) {
    if first == "" then policy == "" || policy == labelled
    else if policy == "" then first == labelled
    else first == policy
  }

  lemma SameOwnerIff(o: Object)
    ensures ClaimedBy(o) == StatusOwner(o.owners, o.labels) <==> NamesOnePolicy(o)
  {
    hide ParentLabel;
  }

  /** In general the two agree about every policy exactly when the object names one policy. */
  lemma OwnersAgreeIff(o: Object, history: seq<RawHistory>)
    ensures
      (forall pol: Policy, namespaced :: pol.name != "" ==>
         (Clashes(pol, namespaced, o) <==> !OwnedByPolicy(Live(o.owners, o.labels, history), pol.name)))
      <==> NamesOnePolicy(o)
  {
    hide ParentLabel, FirstPolicyOwner, Clashes, NamesOnePolicy;
    SameOwnerIff(o);
    var status := StatusOwner(o.owners, o.labels);
    forall pol: Policy, namespaced | pol.name != ""
      ensures Clashes(pol, namespaced, o) <==> ClaimedBy(o) != pol.name
    {
      ClashMeaning(pol, namespaced, o);
    }
    if ClaimedBy(o) != status {
      var name := if ClaimedBy(o) != "" then ClaimedBy(o) else status;
      var pol := Policy(name, "", "", "", "", [], [], [], []);
      ClashMeaning(pol, true, o);
      assert Clashes(pol, true, o) <==> OwnedByPolicy(Live(o.owners, o.labels, history), pol.name);
    }
  }

  /** They do disagree: an owner of another kind counts for template-sync and not for status-sync. */
  lemma OtherKindsDivideThem(pol: Policy, namespaced: bool, kind: string, uid: string)
    requires pol.name != "" && kind != POLICY_KIND
    ensures
      var o := Object([OwnerRef(kind, pol.name, uid)], map[], map[], None, NO_STATUS);
      !Clashes(pol, namespaced, o) && !OwnedByPolicy(Live(o.owners, o.labels, []), pol.name)
  {
    var o := Object([OwnerRef(kind, pol.name, uid)], map[], map[], None, NO_STATUS);
    assert o.owners[1..] == [];
    assert FirstPolicyOwner([]) == "";
    assert FirstPolicyOwner(o.owners) == "";
    ClashMeaning(pol, namespaced, o);
  }

  // ---------------------------------------------------------------- deletion

  lemma {:induction false} CleanupDeletesAll(
    env: Env, uninstalling: bool, failing: set<Key>, templates: seq<PolicyTemplate>, cluster: Cluster, i: nat)
    requires i < |templates| && !CleanupFails(env, uninstalling, failing, templates[i].definition)
    requires CleanupKey(env, templates[i].definition).Some?
    ensures
      var after := FinalizerCleaned(env, uninstalling, failing, templates, cluster);
      CleanupKey(env, templates[i].definition).value !in after
  {
    hide CleanupFails, CleanupKey;
    if i < |templates| - 1 {
      CleanupDeletesAll(env, uninstalling, failing, templates[..|templates| - 1], cluster, i);
    }
  }

  /** Clean-up of a deleted policy touches nothing but the cluster-scoped objects its templates name. */
  lemma {:induction false} CleanupTouchesOnlyTargets(
    env: Env, uninstalling: bool, failing: set<Key>, templates: seq<PolicyTemplate>, cluster: Cluster, key: Key)
    requires forall i :: 0 <= i < |templates| ==> CleanupKey(env, templates[i].definition) != Some(key)
    ensures
      var after := FinalizerCleaned(env, uninstalling, failing, templates, cluster);
      (key in after <==> key in cluster) && (key in cluster ==> after[key] == cluster[key])
  {
    hide CleanupFails, CleanupKey;
    if templates != [] {
      assert CleanupKey(env, templates[|templates| - 1].definition) != Some(key);
      CleanupTouchesOnlyTargets(env, uninstalling, failing, templates[..|templates| - 1], cluster, key);
    }
  }

  /**
   * The deletion path gives up the finalizer only after every cluster-scoped object named by a readable template
   * with an API mapping is gone.
   */
  lemma FinalizerOutlivesObjects(env: Env, pol: Policy, calls: seq<Calls>, o: Outer, store: Store, i: nat)
    requires |calls| == |pol.templates| && i < |pol.templates| && DupNameFrom(pol.templates, 0, {}) == "" && o.deleting
    requires FINALIZER in store.finalizers && FINALIZER !in Reconciled(env, pol, calls, o, store).finalizers
    requires CleanupKey(env, pol.templates[i].definition).Some?
    ensures CleanupKey(env, pol.templates[i].definition).value !in Reconciled(env, pol, calls, o, store).cluster
  {
    hide PassTo, CleanupFails, CleanupKey, FinalizerCleaned, WithoutFinalizer;
    CleanupDeletesAll(env, o.uninstalling, o.undeletable, pol.templates, store.cluster, i);
  }
}
