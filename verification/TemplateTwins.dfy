/** Two templates that stand for one object, which the duplicate check misses behind an unreadable template. */
module TemplateTwins {
  import opened Text
  import opened StatusSync
  import opened TemplateObjects
  import opened TemplateSync
  import opened TemplateSyncLaws
  import opened TemplatePassLaws
  import opened TemplateOutcomes

  /** The template asks for an ordinary object, without dependencies and without a hub error. */
  ghost predicate Plain(t: Target) {
    && t.definition.Definition? && t.deps == map[]
    && !HasHubError(t.definition) && !IsConstraintTemplate(t.definition.gvk)
  }

  /** What the template asks for, apart from the owners. */
  function Asked(env: Env, pol: Policy, t: Target): Object
    requires t.definition.Definition?
  {
    Wanted(env, pol, t.definition, [])
  }

  function AskedSpec(env: Env, pol: Policy, t: Target): Json
    requires t.definition.Definition?
  {
    SpecJson(Defaults(t.definition.gvk.kind, Asked(env, pol, t).spec))
  }

  /** The object is as this template makes it, and the policy's own. */
  ghost predicate MadeFrom(env: Env, pol: Policy, t: Target, o: Object)
    requires t.definition.Definition?
  {
    var asked := Asked(env, pol, t);
    && !Clashes(pol, t.namespaced, o) && WantedOwners(pol, t.namespaced, o) == o.owners
    && SpecJson(o.spec) == AskedSpec(env, pol, t)
    && o.annotations == asked.annotations && o.labels == asked.labels
  }

  /** An object made from the first template satisfies the second. */
  ghost predicate Serves(env: Env, pol: Policy, a: Target, b: Target)
    requires a.definition.Definition? && b.definition.Definition?
  {
    var x, y := Asked(env, pol, a), Asked(env, pol, b);
    && AskedSpec(env, pol, a) == AskedSpec(env, pol, b)
    && Covers(x.annotations, y.annotations) && Covers(x.labels, y.labels)
  }

  lemma MatchesIffServes(env: Env, pol: Policy, a: Target, b: Target, o: Object)
    requires a.definition.Definition? && b.definition.Definition? && a.namespaced == b.namespaced
    requires MadeFrom(env, pol, a, o)
    ensures Matches(env, pol, b, o) <==> Serves(env, pol, a, b)
  {
    hide Defaults, DefaultLabels, OverrideRemediation, Covers, Clashes;
  }

  lemma UpdatedIsMade(env: Env, pol: Policy, t: Target, existing: Object, status: ObjectStatus)
    requires t.definition.Definition? && !Clashes(pol, t.namespaced, existing) && pol.name != ""
    ensures
      var kind := t.definition.gvk.kind;
      var wanted := Wanted(env, pol, t.definition, WantedOwners(pol, t.namespaced, existing));
      MadeFrom(env, pol, t, Stored(kind, Updated(kind, existing, wanted)).(status := status))
  {
    var kind := t.definition.gvk.kind;
    var wanted := Wanted(env, pol, t.definition, WantedOwners(pol, t.namespaced, existing));
    ParentLabelSet(env, pol, t.definition.labels);
    DefaultsIdempotent(kind, wanted.spec);
    hide Defaults, DefaultLabels, OverrideRemediation, ParentLabel;
  }

  lemma MadeIgnoresStatus(env: Env, pol: Policy, t: Target, o: Object, status: ObjectStatus)
    requires t.definition.Definition? && MadeFrom(env, pol, t, o)
    ensures MadeFrom(env, pol, t, o.(status := status))
  {
    hide Defaults, DefaultLabels, OverrideRemediation, ParentLabel;
  }

  lemma OwnedStep(env: Env, pol: Policy, i: nat, calls: Calls, p: Pass, t: Target)
    requires t.definition.Definition? && t.key in p.cluster && Works(calls) && pol.name != ""
    requires !Clashes(pol, t.namespaced, p.cluster[t.key])
    ensures
      var r, o := SyncOwned(env, pol, i, calls, p, t), p.cluster[t.key];
      && r.Continue? && t.key in r.pass.cluster
      && if Matches(env, pol, t, o) then
           r.pass.writes == p.writes && r.pass.cluster[t.key] == o.(status := r.pass.cluster[t.key].status)
         else
           r.pass.writes == p.writes + [Update(i, t.key)] && MadeFrom(env, pol, t, r.pass.cluster[t.key])
  {
    hide Equivalent, Stored, Wanted, Updated, WantedOwners, ResetStatus, AfterUpdate, Local, MadeFrom;
    hide Clashes, Finalized;
    var d, existing := t.definition, p.cluster[t.key];
    var wanted := Wanted(env, pol, d, WantedOwners(pol, t.namespaced, existing));
    ResetIsLocal(pol, i, calls, p, t, existing);
    FinalizedIsLocal(ResetStatus(pol, i, calls, p, t, existing), t);
    if !Equivalent(d.gvk.kind, existing, wanted) {
      var stored := Stored(d.gvk.kind, Updated(d.gvk.kind, existing, wanted));
      var updated := p.(cluster := p.cluster[t.key := stored], writes := p.writes + [Update(i, t.key)]);
      UpdatedIsLocal(pol, i, calls, updated, t, stored, existing);
      var q := AfterUpdate(pol, i, calls, updated, t, stored, existing);
      UpdatedIsMade(env, pol, t, existing, q.cluster[t.key].status);
    }
  }

  /** One step for a plain template whose object is there and belongs to the policy. */
  lemma PlainStep(env: Env, pol: Policy, i: nat, calls: Calls, p: Pass, t: Target)
    requires i < |pol.templates| && TargetOf(env, pol, i) == Some(t) && Plain(t) && Works(calls) && pol.name != ""
    requires t.key in p.cluster && !Clashes(pol, t.namespaced, p.cluster[t.key])
    ensures
      var r, o := SyncTemplate(env, pol, i, calls, p), p.cluster[t.key];
      && r.Continue? && t.key in r.pass.cluster
      && if Matches(env, pol, t, o) then
           r.pass.writes == p.writes && r.pass.cluster[t.key] == o.(status := r.pass.cluster[t.key].status)
         else
           r.pass.writes == p.writes + [Update(i, t.key)] && MadeFrom(env, pol, t, r.pass.cluster[t.key])
  {
    hide Prepare, TargetOf, SyncOwned, SyncMissing, Matches, MadeFrom, Clashes;
    hide HasHubError, IsConstraintTemplate, Failures;
    var prepared := StepSplits(env, pol, i, calls, p);
    NoFailuresMeansSatisfied(env, p.cluster, t.deps);
    OwnedStep(env, pol, i, calls, prepared, t);
  }

  /** A policy with an unreadable template and, behind it, two plain ones for the same object. */
  ghost predicate Twins(env: Env, pol: Policy, a: Target, b: Target) {
    && |pol.templates| == 3 && pol.templates[0].definition.NotJson? && pol.name != ""
    && TargetOf(env, pol, 1) == Some(a) && TargetOf(env, pol, 2) == Some(b) && Plain(a) && Plain(b)
    && a.key == b.key && a.namespaced == b.namespaced
  }

  ghost predicate AllWork(calls: seq<Calls>) {
    |calls| == 3 && forall i :: 0 <= i < 3 ==> Works(calls[i])
  }

  lemma FirstStep(env: Env, pol: Policy, calls: seq<Calls>, start: Pass)
    requires |pol.templates| == 3 == |calls| && pol.templates[0].definition.NotJson?
    ensures
      var r := PassTo(env, pol, calls, start, 1);
      r.Continue? && r.pass.cluster == start.cluster && r.pass.writes == start.writes
  {
    assert PassTo(env, pol, calls, start, 0) == Continue(start);
  }

  /** The step of one twin on an object made from the other, or from itself. */
  lemma TwinStep(env: Env, pol: Policy, i: nat, calls: Calls, p: Pass, maker: Target, t: Target)
    requires i < |pol.templates| && TargetOf(env, pol, i) == Some(t) && Plain(t) && Works(calls) && pol.name != ""
    requires maker.definition.Definition? && maker.namespaced == t.namespaced
    requires t.key in p.cluster && MadeFrom(env, pol, maker, p.cluster[t.key])
    ensures
      var r := SyncTemplate(env, pol, i, calls, p);
      && r.Continue? && t.key in r.pass.cluster
      && if Serves(env, pol, maker, t) then
           r.pass.writes == p.writes && MadeFrom(env, pol, maker, r.pass.cluster[t.key])
         else
           r.pass.writes == p.writes + [Update(i, t.key)] && MadeFrom(env, pol, t, r.pass.cluster[t.key])
  {
    MadeDoesNotClash(env, pol, maker, p.cluster[t.key]);
    hide SyncTemplate, TargetOf, Plain, Matches, MadeFrom, Clashes, Serves;
    var o := p.cluster[t.key];
    PlainStep(env, pol, i, calls, p, t);
    MatchesIffServes(env, pol, maker, t, o);
    MadeIgnoresStatus(env, pol, maker, o, SyncTemplate(env, pol, i, calls, p).pass.cluster[t.key].status);
  }

  lemma MadeDoesNotClash(env: Env, pol: Policy, t: Target, o: Object)
    requires t.definition.Definition? && MadeFrom(env, pol, t, o)
    ensures !Clashes(pol, t.namespaced, o)
  {
  }

  lemma ServesItself(env: Env, pol: Policy, t: Target)
    requires t.definition.Definition?
    ensures Serves(env, pol, t, t)
  {
  }

  /** One pass over twins, from an object made from the second: which of them update it, and what is left. */
  lemma TwinPass(env: Env, pol: Policy, calls: seq<Calls>, start: Pass, a: Target, b: Target, maker: Target)
    requires Twins(env, pol, a, b) && AllWork(calls) && start.writes == [] && (maker == a || maker == b)
    requires a.key in start.cluster && MadeFrom(env, pol, maker, start.cluster[a.key])
    ensures
      var r := PassTo(env, pol, calls, start, 3);
      var afterA := if Serves(env, pol, maker, a) then maker else a;
      var afterB := if Serves(env, pol, afterA, b) then afterA else b;
      && r.Continue? && a.key in r.pass.cluster && MadeFrom(env, pol, afterB, r.pass.cluster[a.key])
      && r.pass.writes ==
         (if Serves(env, pol, maker, a) then [] else [Update(1, a.key)])
         + (if Serves(env, pol, afterA, b) then [] else [Update(2, a.key)])
  {
    hide SyncTemplate, TargetOf, Plain, MadeFrom, Serves, Works;
    FirstStep(env, pol, calls, start);
    PlainIsDefinition(a);
    PlainIsDefinition(b);
    var first, second := PassTo(env, pol, calls, start, 1), PassTo(env, pol, calls, start, 2);
    TwinStep(env, pol, 1, calls[1], first.pass, maker, a);
    assert second == SyncTemplate(env, pol, 1, calls[1], first.pass);
    var afterA := if Serves(env, pol, maker, a) then maker else a;
    TwinStep(env, pol, 2, calls[2], second.pass, afterA, b);
    assert PassTo(env, pol, calls, start, 3) == SyncTemplate(env, pol, 2, calls[2], second.pass);
  }

  lemma PlainIsDefinition(t: Target)
    requires Plain(t)
    ensures t.definition.Definition?
  {
  }

  /** A whole reconcile leaves the object as the pass does, because clean-up spares its name. */
  lemma TwinReconcile(
    env: Env, pol: Policy, calls: seq<Calls>, o: Outer, store: Store, a: Target, b: Target, maker: Target)
    requires Twins(env, pol, a, b) && AllWork(calls) && !o.deleting && !o.uninstalling && (maker == a || maker == b)
    requires a.key in store.cluster && MadeFrom(env, pol, maker, store.cluster[a.key])
    ensures
      var writes, after := LoopEnd(env, pol, calls, store).writes, Reconciled(env, pol, calls, o, store).cluster;
      var afterA := if Serves(env, pol, maker, a) then maker else a;
      var afterB := if Serves(env, pol, afterA, b) then afterA else b;
      && a.key in after && MadeFrom(env, pol, afterB, after[a.key])
      && writes == (if Serves(env, pol, maker, a) then [] else [Update(1, a.key)])
                   + (if Serves(env, pol, afterA, b) then [] else [Update(2, a.key)])
  {
    hide PassTo, TargetOf, Plain, MadeFrom, Serves, CleanedUp, SparedNames, Works, TopLevel, ToClean;
    PlainIsDefinition(a);
    PlainIsDefinition(b);
    TwinPass(env, pol, calls, StartOfPass(env, pol, store.cluster, store.createdGk), a, b, maker);
    NoDuplicateFound(pol);
    if o.crdListOk {
      TargetsAreSpared(env, pol, 3, 1);
      CleanUpIsExact(env, pol, calls, o, store, a.key);
    }
  }

  lemma NoDuplicateFound(pol: Policy)
    requires pol.templates != [] && pol.templates[0].definition.NotJson?
    ensures DupNameFrom(pol.templates, 0, {}) == ""
  {
  }

  /**
   * Twins of which neither serves the other never settle: every reconcile updates the object twice and leaves it as
   * the second asks for, which the first will change again.
   */
  lemma TwinsNeverSettle(env: Env, pol: Policy, calls: seq<Calls>, o: Outer, store: Store, a: Target, b: Target)
    requires Twins(env, pol, a, b) && AllWork(calls) && !o.deleting && !o.uninstalling
    requires !Serves(env, pol, a, b) && !Serves(env, pol, b, a)
    requires a.key in store.cluster && MadeFrom(env, pol, b, store.cluster[a.key])
    ensures
      var after := Reconciled(env, pol, calls, o, store).cluster;
      && LoopEnd(env, pol, calls, store).writes == [Update(1, a.key), Update(2, a.key)]
      && a.key in after && MadeFrom(env, pol, b, after[a.key])
  {
    hide Twins, AllWork, MadeFrom, Serves, LoopEnd, Reconciled;
    TwinReconcile(env, pol, calls, o, store, a, b, b);
  }

  /** From an object made from the second, the second reconcile updates nothing exactly when one serves the other. */
  lemma TwinsSettleIff(
    env: Env, pol: Policy, calls: seq<Calls>, o: Outer, store: Store, calls2: seq<Calls>, a: Target, b: Target)
    requires Twins(env, pol, a, b) && AllWork(calls) && AllWork(calls2) && !o.deleting && !o.uninstalling
    requires a.key in store.cluster && MadeFrom(env, pol, b, store.cluster[a.key])
    ensures
      LoopEnd(env, pol, calls2, Reconciled(env, pol, calls, o, store)).writes == [] <==>
      Serves(env, pol, a, b) || Serves(env, pol, b, a)
  {
    TwinsAreDefinitions(env, pol, a, b);
    hide Twins, AllWork, MadeFrom, Serves, LoopEnd, Reconciled;
    ServesItself(env, pol, a);
    ServesItself(env, pol, b);
    TwinReconcile(env, pol, calls, o, store, a, b, b);
    var after := Reconciled(env, pol, calls, o, store);
    var afterA := if Serves(env, pol, b, a) then b else a;
    TwinReconcile(env, pol, calls2, o, after, a, b, if Serves(env, pol, afterA, b) then afterA else b);
  }

  lemma TwinsAreDefinitions(env: Env, pol: Policy, a: Target, b: Target)
    requires Twins(env, pol, a, b)
    ensures a.definition.Definition? && b.definition.Definition?
  {
    hide TargetOf, HasHubError;
  }

  const CERTIFICATE_POLICY := GVK(POLICY_GROUP, "v1", "CertificatePolicy")

  function Severity(s: string): Option<Json> {
    Some(Obj(map["severity" := Str(s)]))
  }

  /** Such twins exist. */
  lemma TwinsHappen() returns (env: Env, pol: Policy, a: Target, b: Target, o: Object)
    ensures Twins(env, pol, a, b) && !Serves(env, pol, a, b) && !Serves(env, pol, b, a) && MadeFrom(env, pol, b, o)
  {
    var low := Definition(CERTIFICATE_POLICY, "c", [], map[], map[], Severity("low"));
    var high := low.(spec := Severity("high"));
    var templates := [PolicyTemplate(NotJson, []), PolicyTemplate(low, []), PolicyTemplate(high, [])];
    env := Env("managed", false, map[CERTIFICATE_POLICY := Mapping("certificatepolicies", true)], {},
               {(POLICY_GROUP, "certificatepolicies")}, {}, {});
    pol := Policy("policy", "managed", "", "", "", [], templates, [], []);
    var key := Key(POLICY_GROUP, "certificatepolicies", "managed", "c");
    a, b := Target(low, map[], key, true), Target(high, map[], key, true);
    assert TopLevel(env, []) == map[];
    assert TargetOf(env, pol, 1) == Some(a) && TargetOf(env, pol, 2) == Some(b);
    SeverityStays(env, pol, a, "low");
    SeverityStays(env, pol, b, "high");
    assert "low"[0] == 'l' && "high"[0] == 'h';
    assert map["severity" := Str("low")]["severity"] == Str("low");
    assert map["severity" := Str("high")]["severity"] == Str("high");
    o := Asked(env, pol, b).(owners := [ControllerRef(pol)]);
  }

  lemma SeverityStays(env: Env, pol: Policy, t: Target, s: string)
    requires t.definition.Definition? && t.definition.gvk == CERTIFICATE_POLICY && pol.remediation == ""
    requires t.definition.spec == Severity(s)
    ensures Asked(env, pol, t).spec == Severity(s) && AskedSpec(env, pol, t) == Severity(s).value
  {
    assert CERTIFICATE_POLICY.kind[0] == 'C' && CERTIFICATE_POLICY.kind[1] == 'e';
    assert "ConfigurationPolicy"[1] == 'o' && "OperatorPolicy"[0] == 'O';
    assert POLICY_GROUP[0] == 'p' && CONSTRAINT_GROUP[0] == 'c' && CONSTRAINT_TEMPLATE_GROUP[0] == 't';
    var fields := Severity(s).value.fields;
    assert "remediationAction"[0] == 'r' && "severity"[0] == 's';
    assert "remediationAction" !in fields;
  }

  /**
   * The finalizer can be wrong too: a step that goes through marks it, and the step of its twin deletes the object.
   */
  lemma TwinLosesObject(env: Env, pol: Policy, calls: seq<Calls>, start: Pass, i: nat, j: nat)
    requires i < j < |pol.templates| == |calls| && PassTo(env, pol, calls, start, j + 1).Continue?
    requires IsClusterScoped(env, pol, i) && TargetOf(env, pol, j).Some?
    requires TargetOf(env, pol, i).value.key == TargetOf(env, pol, j).value.key
    requires SyncedAt(env, pol, calls, start, i)
    requires !SyncedAt(env, pol, calls, start, j) && !LeftBehindAt(env, pol, calls, start, j)
    ensures
      var p := PassTo(env, pol, calls, start, j + 1).pass;
      p.addFinalizer && TargetOf(env, pol, i).value.key !in p.cluster
  {
    hide SyncTemplate, SyncTarget, TargetOf, Synced, LeftBehind;
    assert MarksAt(env, pol, calls, start, i);
    PassMarks(env, pol, calls, start, j + 1);
    var before := PassTo(env, pol, calls, start, j);
    var prepared := StepSplits(env, pol, j, calls[j], before.pass);
    TargetOutcome(env, pol, j, calls[j], prepared, TargetOf(env, pol, j).value);
  }
}
