/** The template-sync controller: one pass over the templates of a policy. */
module TemplateSync {
  import opened Text
  import opened StatusSync
  import opened TemplateObjects

  datatype GVK = GVK(group: string, version: string, kind: string)

  datatype ObjectId = ObjectId(gvk: GVK, namespace: string, name: string)

  /** Where an object lives; the version it was asked for does not matter. */
  datatype Key = Key(group: string, resource: string, namespace: string, name: string)

  datatype Mapping = Mapping(resource: string, namespaced: bool)

  datatype Dependency = Dependency(gvk: GVK, namespace: string, name: string, compliance: string)

  /** A template that is no JSON, one whose JSON has no kind, or an object definition. */
  datatype Definition =
    | NotJson
    | NoKind(name: string)
    | Definition(
        gvk: GVK, name: string, owners: seq<OwnerRef>,
        labels: map<string, string>, annotations: map<string, string>, spec: Option<Json>)

  datatype PolicyTemplate = PolicyTemplate(definition: Definition, extra: seq<Dependency>)

  /** The policy as read at the start of the pass; `latest` holds the newest status message of each template. */
  datatype Policy = Policy(
    name: string, namespace: string, uid: string, clusterName: string, remediation: string,
    dependencies: seq<Dependency>, templates: seq<PolicyTemplate>, finalizers: seq<string>, latest: seq<string>)

  type Cluster = map<Key, Object>

  /** Settings of the controller, and what discovery and the CRDs answer during the pass. */
  datatype Env = Env(
    clusterNamespace: string, disableGkSync: bool,
    discovery: map<GVK, Mapping>, discoveryFails: set<GVK>,
    templateCrds: set<(string, string)>, crdFails: set<(string, string)>,
    unreadable: set<Key>)

  datatype GetFault = GetOk | GetFailed | GetCanceled
  datatype WriteFault = WriteOk | WriteInvalid | WriteConflict | WriteFailed

  /**
   * How the API calls made for one template turn out, each report by itself. `ready` is status.created of a
   * ConstraintTemplate.
   */
  datatype Calls = Calls(
    get: GetFault, create: WriteFault, update: WriteFault, deleteOk: bool, patchOk: bool, resetOk: bool,
    pendingEmitOk: bool, readyEmitOk: bool, updatedEmitOk: bool, readyOk: bool, ready: Option<bool>)

  datatype ReportKind =
    | DecodeError | DependencyConflict | MissingName | NoMapping | Unsupported | PendingDependencies
    | HubTemplateError | CreateError | NotReady | Ready | GetError | NameClash | UpdateError

  datatype Report = Report(index: nat, kind: ReportKind)

  datatype Write = Create(index: nat, key: Key) | Update(index: nat, key: Key) | Delete(index: nat, key: Key)

  /** The variables of Reconcile that the loop over the templates changes. */
  datatype Pass = Pass(
    cluster: Cluster, allDeps: map<ObjectId, string>, names: seq<string>, children: seq<ObjectId>,
    addFinalizer: bool, createdGk: Option<bool>, failed: bool, reports: seq<Report>, writes: seq<Write>)

  const HUB_TEMPLATE_ERROR := "policy.open-cluster-management.io/hub-templates-error"
  const CLUSTER_NAME_LABEL := "policy.open-cluster-management.io/cluster-name"
  const CLUSTER_NAMESPACE_LABEL := "policy.open-cluster-management.io/cluster-namespace"
  const FINALIZER := "policy.open-cluster-management.io/cleanup-cluster-scoped-policies"

  // ---------------------------------------------------------------- dependencies

  function DependencyId(env: Env, d: Dependency): ObjectId {
    var namespace :=
      if d.gvk.group == POLICY_GROUP && HasSuffix(d.gvk.kind, "Policy") then env.clusterNamespace else d.namespace;
    ObjectId(d.gvk, namespace, d.name)
  }

  function AddTopLevel(env: Env, deps: map<ObjectId, string>, d: Dependency): map<ObjectId, string> {
    var id := DependencyId(env, d);
    if id in deps && deps[id] != d.compliance then deps else deps[id := d.compliance]
  }

  /** The accepted dependencies of the policy: the first one listed for an object wins. */
  function TopLevel(env: Env, list: seq<Dependency>): map<ObjectId, string> {
    if list == [] then map[] else AddTopLevel(env, TopLevel(env, list[..|list| - 1]), list[|list| - 1])
  }

  method CollectTopLevel(env: Env, list: seq<Dependency>) returns (deps: map<ObjectId, string>)
    ensures deps == TopLevel(env, list)
  {
    deps := map[];
    for i := 0 to |list|
      invariant deps == TopLevel(env, list[..i])
    {
      assert list[..i + 1][..i] == list[..i];
      deps := AddTopLevel(env, deps, list[i]);
    }
    assert list[..|list|] == list;
  }

  /** The dependencies of one template, those added to the watch set, and whether two of them conflict. */
  datatype Collected = Collected(deps: map<ObjectId, string>, all: map<ObjectId, string>, conflict: bool)

  function AddExtra(env: Env, c: Collected, list: seq<Dependency>): Collected
    decreases |list|
  {
    if list == [] || c.conflict then c
    else
      var id := DependencyId(env, list[0]);
      if id in c.deps && c.deps[id] != list[0].compliance then c.(conflict := true)
      else
        AddExtra(env, c.(deps := c.deps[id := list[0].compliance], all := c.all[id := list[0].compliance]), list[1..])
  }

  function Mapped(env: Env, gvk: GVK): Option<Mapping> {
    if gvk in env.discovery && gvk !in env.discoveryFails then Some(env.discovery[gvk]) else None
  }

  function KeyFor(m: Mapping, group: string, namespace: string, name: string): Key {
    Key(group, m.resource, if m.namespaced then namespace else "", name)
  }

  datatype Reason = NoApiMapping | ObjectNotFound | CannotGet | NoCompliance | WrongCompliance

  /** The body of the loop of processDependencies. */
  function FailureOf(env: Env, cluster: Cluster, id: ObjectId, wanted: string): Option<Reason> {
    var m := Mapped(env, id.gvk);
    if m.None? then Some(NoApiMapping)
    else
      var key := KeyFor(m.value, id.gvk.group, id.namespace, id.name);
      if key in env.unreadable then Some(CannotGet)
      else if key !in cluster then
        if id.gvk.group == CONSTRAINT_TEMPLATE_GROUP && wanted != "Compliant" then None else Some(ObjectNotFound)
      else if id.gvk.group == CONSTRAINT_TEMPLATE_GROUP then
        if wanted != "Compliant" then Some(WrongCompliance) else None
      else if id.gvk.group == CONSTRAINT_GROUP then
        var violations := cluster[key].status.totalViolations;
        if violations.None? then Some(NoCompliance)
        else if (violations.value == 0) != (wanted == "Compliant") then Some(WrongCompliance)
        else None
      else
        var compliant := cluster[key].status.compliant;
        if compliant.None? then Some(NoCompliance)
        else if compliant.value != wanted then Some(WrongCompliance)
        else None
  }

  function Failures(env: Env, cluster: Cluster, deps: map<ObjectId, string>): map<ObjectId, Reason> {
    map id | id in deps && FailureOf(env, cluster, id, deps[id]).Some? :: FailureOf(env, cluster, id, deps[id]).value
  }

  method ProcessDependencies(env: Env, cluster: Cluster, deps: map<ObjectId, string>)
    returns (failures: map<ObjectId, Reason>)
    ensures failures == Failures(env, cluster, deps)
  {
    hide FailureOf;
    failures := map[];
    var todo := deps.Keys;
    while todo != {}
      invariant todo <= deps.Keys
      invariant forall id :: id in failures <==>
        id in deps && id !in todo && FailureOf(env, cluster, id, deps[id]).Some?
      invariant forall id :: id in failures ==> Some(failures[id]) == FailureOf(env, cluster, id, deps[id])
      decreases |todo|
    {
      var id :| id in todo;
      todo := todo - {id};
      var failure := FailureOf(env, cluster, id, deps[id]);
      if failure.Some? {
        failures := failures[id := failure.value];
      }
    }
  }

  // ---------------------------------------------------------------- one template

  predicate IsConstraintTemplate(gvk: GVK) {
    gvk.group == CONSTRAINT_TEMPLATE_GROUP && gvk.kind == CONSTRAINT_TEMPLATE_KIND
  }

  predicate IsGatekeeper(gvk: GVK) {
    IsConstraintTemplate(gvk) || gvk.group == CONSTRAINT_GROUP
  }

  /** The object a template stands for, once it is known to be one that can be synced. */
  datatype Target = Target(
    definition: Definition, deps: map<ObjectId, string>, key: Key, namespaced: bool)

  datatype Prepared =
    | Skipped(pass: Pass)
    | Stopped(pass: Pass)
    | Prepared(pass: Pass, target: Target)

  function Problem(p: Pass, i: nat, kind: ReportKind): Pass {
    p.(failed := true, reports := p.reports + [Report(i, kind)])
  }

  function Note(p: Pass, i: nat, kind: ReportKind): Pass {
    p.(reports := p.reports + [Report(i, kind)])
  }

  /** The checks before the template object is fetched. */
  function Prepare(env: Env, pol: Policy, i: nat, p: Pass): Prepared
    requires i < |pol.templates|
  {
    var t := pol.templates[i];
    if t.definition.NoKind? then Skipped(Note(p, i, DecodeError))
    else if t.definition.NotJson? then Skipped(Problem(p, i, DecodeError))
    else
      var c := AddExtra(env, Collected(TopLevel(env, pol.dependencies), p.allDeps, false), t.extra);
      PrepareNamed(env, pol, i, p.(allDeps := c.all), t.definition, c)
  }

  function PrepareNamed(env: Env, pol: Policy, i: nat, p: Pass, d: Definition, c: Collected): Prepared
    requires d.Definition?
  {
    if c.conflict then Skipped(Problem(p, i, DependencyConflict))
    else if d.name == "" then Skipped(Problem(p, i, MissingName))
    else
      var p := p.(names := p.names + [d.name]);
      if d.gvk in env.discoveryFails then Stopped(p)
      else if d.gvk !in env.discovery then Skipped(Problem(p, i, NoMapping))
      else
        var m := env.discovery[d.gvk];
        var crd := (d.gvk.group, m.resource);
        if crd in env.crdFails then Stopped(p)
        else if !IsSupported(env, d.gvk, crd) then Skipped(Problem(p, i, Unsupported))
        else
          var key := KeyFor(m, d.gvk.group, pol.namespace, d.name);
          Prepared(p.(children := p.children + [ObjectId(d.gvk, key.namespace, d.name)]),
                   Target(d, c.deps, key, m.namespaced))
  }

  predicate IsSupported(env: Env, gvk: GVK, crd: (string, string)) {
    (crd in env.templateCrds || IsGatekeeper(gvk)) && !(IsGatekeeper(gvk) && env.disableGkSync)
  }

  function DefaultLabels(env: Env, pol: Policy, labels: map<string, string>): map<string, string> {
    labels + map[
      PARENT_POLICY_LABEL := pol.name,
      "cluster-name" := pol.clusterName,
      CLUSTER_NAME_LABEL := pol.clusterName,
      "cluster-namespace" := env.clusterNamespace,
      CLUSTER_NAMESPACE_LABEL := env.clusterNamespace]
  }

  function ControllerRef(pol: Policy): OwnerRef {
    OwnerRef(POLICY_KIND, pol.name, pol.uid)
  }

  /** The object a template asks for, with the given owner references. */
  function Wanted(env: Env, pol: Policy, d: Definition, owners: seq<OwnerRef>): Object
    requires d.Definition?
  {
    Object(owners, DefaultLabels(env, pol, d.labels), d.annotations,
           OverrideRemediation(d.gvk.group, pol.remediation, d.spec), NO_STATUS)
  }

  function FirstOwner(o: Object): string {
    if o.owners == [] then "" else o.owners[0].name
  }

  /** The owner reference was lost, and the label still names this policy. */
  predicate RecoversOwner(pol: Policy, namespaced: bool, o: Object) {
    namespaced && FirstOwner(o) == "" && ParentLabel(o.labels) == pol.name
  }

  function WantedOwners(pol: Policy, namespaced: bool, o: Object): seq<OwnerRef> {
    if RecoversOwner(pol, namespaced, o) then [ControllerRef(pol)] else o.owners
  }

  /** The policy that template-sync takes an object to belong to. */
  function TemplateOwner(pol: Policy, namespaced: bool, o: Object): string {
    var name := if RecoversOwner(pol, namespaced, o) then pol.name else FirstOwner(o);
    if name == "" then ParentLabel(o.labels) else name
  }

  predicate Clashes(pol: Policy, namespaced: bool, o: Object) {
    TemplateOwner(pol, namespaced, o) != pol.name
  }

  predicate HasHubError(d: Definition)
    requires d.Definition?
  {
    HUB_TEMPLATE_ERROR in d.annotations && d.annotations[HUB_TEMPLATE_ERROR] != ""
  }

  /** Continue with the next template, or end the reconcile with an error. */
  datatype Result = Continue(pass: Pass) | Return(pass: Pass)

  function Finalized(p: Pass, t: Target): Pass
    requires t.definition.Definition?
  {
    if t.namespaced then p
    else p.(addFinalizer := true, createdGk := if IsGatekeeper(t.definition.gvk) then Some(true) else p.createdGk)
  }

  function ReportReady(p: Pass, i: nat, emitOk: bool): Pass {
    Note(p, i, Ready).(failed := p.failed || !emitOk)
  }

  /** The object is not in the cluster. */
  function SyncMissing(env: Env, pol: Policy, i: nat, calls: Calls, p: Pass, t: Target): Result
    requires t.definition.Definition?
  {
    var d := t.definition;
    if Failures(env, p.cluster, t.deps) != map[] then
      Continue(Note(p, i, PendingDependencies).(failed := p.failed || !calls.pendingEmitOk))
    else if HasHubError(d) then Continue(Note(p, i, HubTemplateError))
    else if calls.create != WriteOk then
      Continue(if calls.create == WriteInvalid then Note(p, i, CreateError) else Problem(p, i, CreateError))
    else
      var sent := Wanted(env, pol, d, if t.namespaced then [ControllerRef(pol)] else d.owners);
      var stored := Stored(d.gvk.kind, sent).(status := NO_STATUS.(created := calls.ready));
      AfterCreate(i, calls, p.(cluster := p.cluster[t.key := stored], writes := p.writes + [Create(i, t.key)]), t)
  }

  function AfterCreate(i: nat, calls: Calls, p: Pass, t: Target): Result
    requires t.definition.Definition?
  {
    if !IsConstraintTemplate(t.definition.gvk) then Continue(Finalized(p, t))
    else if !calls.readyOk then Return(p)
    else if calls.ready != Some(true) then Continue(Note(p, i, NotReady))
    else if t.namespaced then Continue(p)
    else Continue(ReportReady(Finalized(p, t), i, calls.readyEmitOk))
  }

  /** The object is in the cluster. */
  function SyncExisting(env: Env, pol: Policy, i: nat, calls: Calls, p: Pass, t: Target): Result
    requires t.definition.Definition? && t.key in p.cluster
  {
    if !IsConstraintTemplate(t.definition.gvk) then SyncChecked(env, pol, i, calls, p, t)
    else if !calls.readyOk then Return(p)
    else if p.cluster[t.key].status.created != Some(true) then SyncChecked(env, pol, i, calls, Note(p, i, NotReady), t)
    else SyncChecked(env, pol, i, calls, ReportReady(p, i, calls.readyEmitOk), t)
  }

  function DeleteObject(i: nat, calls: Calls, p: Pass, t: Target): Pass {
    if calls.deleteOk then p.(cluster := p.cluster - {t.key}, writes := p.writes + [Delete(i, t.key)])
    else p.(failed := true)
  }

  function SyncChecked(env: Env, pol: Policy, i: nat, calls: Calls, p: Pass, t: Target): Result
    requires t.definition.Definition? && t.key in p.cluster
  {
    var d := t.definition;
    if Failures(env, p.cluster, t.deps) != map[] then
      // A failed report assigns the nil error of the preceding Get, which drops the errors of earlier templates.
      var noted := Note(p, i, PendingDependencies).(failed := p.failed && calls.pendingEmitOk);
      Continue(DeleteObject(i, calls, noted, t))
    else if HasHubError(d) then
      var noted := Note(p, i, HubTemplateError);
      if t.key.resource != "configurationpolicies" then Continue(DeleteObject(i, calls, noted, t))
      else if !calls.patchOk then Continue(noted.(failed := true))
      else Continue(DeleteObject(i, calls, PatchPruning(noted, t.key), t))
    else if Clashes(pol, t.namespaced, p.cluster[t.key]) then Continue(Problem(p, i, NameClash))
    else SyncOwned(env, pol, i, calls, p, t)
  }

  /** The patch that keeps a ConfigurationPolicy from pruning what it created. */
  function PatchPruning(p: Pass, key: Key): Pass
    requires key in p.cluster
  {
    var o := p.cluster[key];
    if !CanSet(o.spec, PRUNE) then p
    else p.(cluster := p.cluster[key := o.(spec := Some(SetAt(o.spec, PRUNE, Str("None"))))])
  }

  function SyncOwned(env: Env, pol: Policy, i: nat, calls: Calls, p: Pass, t: Target): Result
    requires t.definition.Definition? && t.key in p.cluster
  {
    var d, existing := t.definition, p.cluster[t.key];
    var wanted := Wanted(env, pol, d, WantedOwners(pol, t.namespaced, existing));
    if Equivalent(d.gvk.kind, existing, wanted) then
      Continue(Finalized(ResetStatus(pol, i, calls, p, t, existing), t))
    else if calls.update == WriteConflict then Return(p)
    else if calls.update != WriteOk then
      Continue(if calls.update == WriteInvalid then Note(p, i, UpdateError) else Problem(p, i, UpdateError))
    else
      var stored := Stored(d.gvk.kind, Updated(d.gvk.kind, existing, wanted));
      var p := p.(cluster := p.cluster[t.key := stored], writes := p.writes + [Update(i, t.key)]);
      Continue(AfterUpdate(pol, i, calls, p, t, stored, existing))
  }

  function AfterUpdate(pol: Policy, i: nat, calls: Calls, p: Pass, t: Target, stored: Object, existing: Object): Pass
    requires t.definition.Definition? && t.key in p.cluster
  {
    var ready := stored != existing && IsConstraintTemplate(t.definition.gvk) && !t.namespaced;
    var p := if ready then ReportReady(p, i, calls.updatedEmitOk) else p;
    Finalized(if stored == existing then p else ResetStatus(pol, i, calls, p, t, existing), t)
  }

  /** handleSyncSuccess: clear the compliance of a policy template whose last status was an error or pending. */
  function ResetStatus(pol: Policy, i: nat, calls: Calls, p: Pass, t: Target, read: Object): Pass
    requires t.definition.Definition? && t.key in p.cluster
  {
    var latest := if i < |pol.latest| then pol.latest[i] else "";
    if || t.definition.gvk.group != POLICY_GROUP
       || (!Contains(latest, "template-error;") && !Contains(latest, "Pending;"))
       || read.status.compliant.None? || read.status.compliant.value == ""
    then p
    else if !calls.resetOk then p.(failed := true)
    else
      var o := p.cluster[t.key];
      p.(cluster := p.cluster[t.key := o.(status := o.status.(compliant := None))])
  }

  /** The body of the loop over the templates. */
  function SyncTemplate(env: Env, pol: Policy, i: nat, calls: Calls, p: Pass): Result
    requires i < |pol.templates|
  {
    match Prepare(env, pol, i, p)
    case Skipped(p) => Continue(p)
    case Stopped(p) => Return(p)
    case Prepared(p, t) =>
      if calls.get == GetCanceled then Return(p.(failed := true))
      else if calls.get == GetFailed then Continue(Problem(p, i, GetError))
      else if t.key in p.cluster then SyncExisting(env, pol, i, calls, p, t)
      else SyncMissing(env, pol, i, calls, p, t)
  }

  function StartOfPass(env: Env, pol: Policy, cluster: Cluster, createdGk: Option<bool>): Pass {
    Pass(cluster, TopLevel(env, pol.dependencies), [], [], false, createdGk, false, [], [])
  }

  /** The first n templates of a pass. */
  function PassTo(env: Env, pol: Policy, calls: seq<Calls>, start: Pass, n: nat): Result
    requires n <= |pol.templates| == |calls|
  {
    if n == 0 then Continue(start)
    else
      var r := PassTo(env, pol, calls, start, n - 1);
      if r.Return? then r else SyncTemplate(env, pol, n - 1, calls[n - 1], r.pass)
  }

  // ---------------------------------------------------------------- after the loop

  /** The objects the policy is woken for; none removes the watch. */
  function WatchSet(p: Pass): set<ObjectId> {
    p.allDeps.Keys + set id | id in p.children
  }

  /** A kind that clean-up lists, and the namespace it lists it in. */
  datatype ListedKind = ListedKind(group: string, resource: string, namespace: string)

  function KindOf(key: Key): ListedKind {
    ListedKind(key.group, key.resource, key.namespace)
  }

  predicate IsLabelled(pol: Policy, o: Object) {
    PARENT_POLICY_LABEL in o.labels && o.labels[PARENT_POLICY_LABEL] == pol.name
  }

  /** What clean-up lists and what fails: `kinds` are asked for, not all can be listed nor all objects deleted. */
  datatype Listing = Listing(kinds: seq<ListedKind>, unlistable: set<ListedKind>, undeletable: set<Key>)

  /** Clean-up comes across this object of the policy. */
  predicate Listed(pol: Policy, l: Listing, cluster: Cluster, key: Key)
    requires key in cluster
  {
    KindOf(key) in l.kinds && KindOf(key) !in l.unlistable && IsLabelled(pol, cluster[key])
  }

  predicate Excess(pol: Policy, names: seq<string>, l: Listing, cluster: Cluster, key: Key)
    requires key in cluster
  {
    Listed(pol, l, cluster, key) && key.name !in names
  }

  /**
   * The Gatekeeper kinds that clean-up lists: none once no constraint is known to have been created or when the
   * ConstraintTemplates cannot be listed, and the constraints only of those that report themselves created.
   */
  function GatekeeperKinds(createdGk: Option<bool>, listed: Option<seq<(string, bool)>>): seq<ListedKind> {
    if createdGk == Some(false) || listed.None? || listed.value == [] then []
    else [ListedKind(CONSTRAINT_TEMPLATE_GROUP, "constrainttemplates", "")] + ConstraintKinds(listed.value)
  }

  function ConstraintKinds(listed: seq<(string, bool)>): seq<ListedKind> {
    if listed == [] then []
    else
      var first := if listed[0].1 then [ListedKind(CONSTRAINT_GROUP, ToLower(listed[0].0), "")] else [];
      first + ConstraintKinds(listed[1..])
  }

  /** The cluster after cleanUpExcessTemplates. */
  function CleanedUp(pol: Policy, names: seq<string>, l: Listing, cluster: Cluster): Cluster {
    map key | key in cluster && (key in l.undeletable || !Excess(pol, names, l, cluster, key)) :: cluster[key]
  }

  /** A kind could not be listed or an object could not be deleted. */
  predicate CleanUpErrs(pol: Policy, names: seq<string>, l: Listing, cluster: Cluster) {
    || (exists kind :: kind in l.kinds && kind in l.unlistable)
    || (exists key :: key in cluster && Excess(pol, names, l, cluster, key) && key in l.undeletable)
  }

  method CleanUpExcessTemplates(pol: Policy, names: seq<string>, l: Listing, cluster: Cluster)
    returns (after: Cluster, errors: nat)
    ensures after == CleanedUp(pol, names, l, cluster)
    ensures errors > 0 <==> CleanUpErrs(pol, names, l, cluster)
  {
    after, errors := cluster, 0;
    for k := 0 to |l.kinds|
      invariant after == CleanedUp(pol, names, l.(kinds := l.kinds[..k]), cluster)
      invariant errors > 0 <==> CleanUpErrs(pol, names, l.(kinds := l.kinds[..k]), cluster)
    {
      var kind := l.kinds[k];
      CleanUpSnoc(pol, names, l, cluster, k);
      if kind in l.unlistable {
        errors := errors + 1;
        continue;
      }
      var children := set key | key in after && KindOf(key) == kind && IsLabelled(pol, after[key]);
      var excess, more := DeleteChildren(names, children, l.undeletable);
      after := after - excess;
      errors := errors + more;
    }
    assert l.kinds[..|l.kinds|] == l.kinds;
  }

  /** What one more kind adds to the work of clean-up. */
  lemma CleanUpSnoc(pol: Policy, names: seq<string>, l: Listing, cluster: Cluster, k: nat)
    requires k < |l.kinds|
    ensures
      var kind, before, now := l.kinds[k], l.(kinds := l.kinds[..k]), l.(kinds := l.kinds[..k + 1]);
      && (forall key :: key in cluster ==>
            (Excess(pol, names, now, cluster, key) <==>
             || Excess(pol, names, before, cluster, key)
             || (KindOf(key) == kind && kind !in l.unlistable && IsLabelled(pol, cluster[key]) && key.name !in names)))
      && ((exists x :: x in now.kinds && x in l.unlistable) <==>
          (exists x :: x in before.kinds && x in l.unlistable) || kind in l.unlistable)
  {
    assert forall x :: x in l.kinds[..k + 1] <==> x in l.kinds[..k] || x == l.kinds[k];
    hide IsLabelled;
  }

  /** The inner loop of clean-up: which of the listed objects are deleted, and how many deletes fail. */
  method DeleteChildren(names: seq<string>, children: set<Key>, failing: set<Key>)
    returns (deleted: set<Key>, errors: nat)
    ensures deleted == set key | key in children && key.name !in names && key !in failing
    ensures errors == 0 <==> forall key :: key in children && key.name !in names ==> key !in failing
  {
    deleted, errors := {}, 0;
    var todo := children;
    while todo != {}
      invariant todo <= children
      invariant deleted == set key | key in children - todo && key.name !in names && key !in failing
      invariant errors == 0 <==> forall key :: key in children - todo && key.name !in names ==> key !in failing
      decreases |todo|
    {
      var key :| key in todo;
      todo := todo - {key};
      var found := key.name in names;
      if !found {
        if key in failing {
          errors := errors + 1;
        } else {
          deleted := deleted + {key};
        }
      }
    }
  }

  function WithoutFinalizer(finalizers: seq<string>, f: string): (r: seq<string>)
    ensures f !in r && (forall x :: x in r <==> x in finalizers && x != f)
  {
    if finalizers == [] then []
    else (if finalizers[0] == f then [] else [finalizers[0]]) + WithoutFinalizer(finalizers[1..], f)
  }

  lemma {:induction false} WithoutConcat(a: seq<string>, b: seq<string>, f: string)
    ensures WithoutFinalizer(a + b, f) == WithoutFinalizer(a, f) + WithoutFinalizer(b, f)
  {
    if a == [] {
      assert a + b == b;
    } else {
      assert (a + b)[1..] == a[1..] + b && (a + b)[0] == a[0];
      WithoutConcat(a[1..], b, f);
      var head := if a[0] == f then [] else [a[0]];
      assert WithoutFinalizer(a + b, f) == head + WithoutFinalizer(a[1..] + b, f);
    }
  }

  lemma {:induction false} WithoutNothing(a: seq<string>, f: string)
    requires f !in a
    ensures WithoutFinalizer(a, f) == a
  {
    if a != [] { WithoutNothing(a[1..], f); }
  }

  lemma WithoutHead(a: seq<string>, f: string)
    ensures WithoutFinalizer([f] + a, f) == WithoutFinalizer(a, f)
  {
    assert ([f] + a)[1..] == a;
  }

  lemma WithoutSkips(a: seq<string>, i: nat, f: string)
    requires i < |a| && a[i] == f
    ensures WithoutFinalizer(a[..i] + a[i + 1..], f) == WithoutFinalizer(a, f)
  {
    hide WithoutFinalizer;
    var rest := a[i + 1..];
    assert a == a[..i] + ([f] + rest);
    WithoutConcat(a[..i], [f] + rest, f);
    WithoutConcat(a[..i], rest, f);
    WithoutHead(rest, f);
  }

  /** removeFinalizer: every occurrence goes, the others keep their order. */
  method RemoveFinalizer(finalizers: seq<string>, f: string) returns (r: seq<string>)
    ensures r == WithoutFinalizer(finalizers, f)
  {
    hide WithoutFinalizer;
    r := finalizers;
    var i := 0;
    var length := |r|;
    while i < length
      invariant 0 <= i <= length == |r|
      invariant f !in r[..i]
      invariant WithoutFinalizer(r, f) == WithoutFinalizer(finalizers, f)
      decreases length - i
    {
      if r[i] == f {
        WithoutSkips(r, i, f);
        r := r[..i] + r[i + 1..];
        length := length - 1;
      } else {
        i := i + 1;
      }
    }
    assert r[..i] == r;
    WithoutNothing(r, f);
  }

  /** The finalizers after a pass that reached its end and could update the policy. */
  function FinalizersAfter(finalizers: seq<string>, addFinalizer: bool): (r: seq<string>)
    ensures FINALIZER in r <==> addFinalizer
    ensures forall x :: x != FINALIZER ==> (x in r <==> x in finalizers)
  {
    if FINALIZER !in finalizers then if addFinalizer then finalizers + [FINALIZER] else finalizers
    else if addFinalizer then finalizers
    else WithoutFinalizer(finalizers, FINALIZER)
  }

  // ---------------------------------------------------------------- before the loop

  function NameOf(d: Definition): string
    requires !d.NotJson?
  {
    d.name
  }

  function DupNameFrom(templates: seq<PolicyTemplate>, i: nat, seen: set<string>): string
    requires i <= |templates|
    decreases |templates| - i
  {
    if i == |templates| || templates[i].definition.NotJson? then ""
    else
      var name := NameOf(templates[i].definition);
      if name in seen then name else DupNameFrom(templates, i + 1, seen + {name})
  }

  method GetDupName(templates: seq<PolicyTemplate>) returns (name: string)
    ensures name == DupNameFrom(templates, 0, {})
  {
    var found: set<string> := {};
    for i := 0 to |templates|
      invariant DupNameFrom(templates, 0, {}) == DupNameFrom(templates, i, found)
    {
      if templates[i].definition.NotJson? {
        return "";
      }
      name := NameOf(templates[i].definition);
      if name in found {
        return name;
      }
      found := found + {name};
    }
    name := "";
  }

  /** The object that finalizer clean-up deletes for a template, if any. */
  function CleanupKey(env: Env, d: Definition): Option<Key> {
    if d.Definition? && d.gvk in env.discovery && d.gvk !in env.discoveryFails && !env.discovery[d.gvk].namespaced
    then Some(Key(d.gvk.group, env.discovery[d.gvk].resource, "", d.name)) else None
  }

  predicate CleanupFails(env: Env, uninstalling: bool, failing: set<Key>, d: Definition) {
    if !d.Definition? then !uninstalling
    else
      || d.gvk in env.discoveryFails
      || (CleanupKey(env, d).Some? && (CleanupKey(env, d).value in failing || d.name == ""))
  }

  function FinalizerCleaned(
    env: Env, uninstalling: bool, failing: set<Key>, templates: seq<PolicyTemplate>, cluster: Cluster): Cluster
  {
    if templates == [] then cluster
    else
      var before := FinalizerCleaned(env, uninstalling, failing, templates[..|templates| - 1], cluster);
      var d := templates[|templates| - 1].definition;
      if CleanupFails(env, uninstalling, failing, d) || CleanupKey(env, d).None? then before
      else before - {CleanupKey(env, d).value}
  }

  method FinalizerCleanup(
    env: Env, uninstalling: bool, failing: set<Key>, templates: seq<PolicyTemplate>, cluster: Cluster)
    returns (after: Cluster, errors: nat)
    ensures after == FinalizerCleaned(env, uninstalling, failing, templates, cluster)
    ensures errors == 0 <==>
      forall i :: 0 <= i < |templates| ==> !CleanupFails(env, uninstalling, failing, templates[i].definition)
  {
    after, errors := cluster, 0;
    for i := 0 to |templates|
      invariant after == FinalizerCleaned(env, uninstalling, failing, templates[..i], cluster)
      invariant errors == 0 <==>
        forall j :: 0 <= j < i ==> !CleanupFails(env, uninstalling, failing, templates[j].definition)
    {
      assert templates[..i + 1][..i] == templates[..i];
      var d := templates[i].definition;
      if CleanupFails(env, uninstalling, failing, d) {
        errors := errors + 1;
        continue;
      }
      if CleanupKey(env, d).Some? {
        after := after - {CleanupKey(env, d).value};
      }
    }
    assert templates[..|templates|] == templates;
  }

  // ---------------------------------------------------------------- a whole reconcile

  /** How the calls outside the loop over the templates turn out, and what they list. */
  datatype Outer = Outer(
    deleting: bool, uninstalling: bool, watchOk: bool, crdListOk: bool,
    constraintTemplates: Option<seq<(string, bool)>>, crds: seq<ListedKind>,
    unlistable: set<ListedKind>, undeletable: set<Key>, updateOk: bool)

  /** What a reconcile changes: objects, the policy's finalizers, its watch, and the memory of the controller. */
  datatype Store = Store(cluster: Cluster, finalizers: seq<string>, watch: set<ObjectId>, createdGk: Option<bool>)

  predicate FinalizerCleanupErrs(env: Env, pol: Policy, o: Outer) {
    exists i :: 0 <= i < |pol.templates|
                && CleanupFails(env, o.uninstalling, o.undeletable, pol.templates[i].definition)
  }

  function ToClean(o: Outer, createdGk: Option<bool>): Listing {
    Listing(GatekeeperKinds(createdGk, o.constraintTemplates) + o.crds, o.unlistable, o.undeletable)
  }

  /** The end of a pass whose loop was not left early. */
  function PassEnd(pol: Policy, o: Outer, p: Pass, store: Store): Store {
    Store(
      if o.crdListOk then CleanedUp(pol, p.names, ToClean(o, p.createdGk), p.cluster) else p.cluster,
      if o.updateOk then FinalizersAfter(store.finalizers, p.addFinalizer) else store.finalizers,
      if o.watchOk then WatchSet(p) else store.watch,
      if p.createdGk != Some(false) && o.constraintTemplates == Some([]) then Some(false) else p.createdGk)
  }

  /** The pass reports an error: one that is left from the templates, or one of the calls after them. */
  predicate PassErrs(pol: Policy, o: Outer, p: Pass, store: Store) {
    || p.failed || !o.watchOk
    || !o.crdListOk || CleanUpErrs(pol, p.names, ToClean(o, p.createdGk), p.cluster)
    || ((FINALIZER in store.finalizers) != p.addFinalizer && !o.updateOk)
  }

  /** The reconcile returns an error and is tried again. */
  predicate ReconcileErrs(env: Env, pol: Policy, calls: seq<Calls>, o: Outer, store: Store)
    requires |calls| == |pol.templates|
  {
    if pol.templates == [] then FINALIZER in store.finalizers && !o.updateOk
    else if DupNameFrom(pol.templates, 0, {}) != "" then false
    else if o.deleting then
      FINALIZER in store.finalizers && (!o.updateOk || FinalizerCleanupErrs(env, pol, o))
    else if o.uninstalling then false
    else
      var r := PassTo(env, pol, calls, StartOfPass(env, pol, store.cluster, store.createdGk), |pol.templates|);
      r.Return? || PassErrs(pol, o, r.pass, store)
  }

  function Reconciled(env: Env, pol: Policy, calls: seq<Calls>, o: Outer, store: Store): Store
    requires |calls| == |pol.templates|
  {
    var removed := store.(finalizers := WithoutFinalizer(store.finalizers, FINALIZER));
    if pol.templates == [] then if o.updateOk then removed else store
    else if DupNameFrom(pol.templates, 0, {}) != "" then store
    else if o.deleting then
      if FINALIZER !in store.finalizers then store
      else
        var cleaned := FinalizerCleaned(env, o.uninstalling, o.undeletable, pol.templates, store.cluster);
        if FinalizerCleanupErrs(env, pol, o) || !o.updateOk then store.(cluster := cleaned)
        else removed.(cluster := cleaned)
    else if o.uninstalling then store
    else
      var r := PassTo(env, pol, calls, StartOfPass(env, pol, store.cluster, store.createdGk), |pol.templates|);
      if r.Return? then store.(cluster := r.pass.cluster, createdGk := r.pass.createdGk)
      else PassEnd(pol, o, r.pass, store)
  }

  /** The controller with the state it shares with the cluster. */
  class TemplateReconciler {
    const env: Env
    var cluster: Cluster
    var finalizers: seq<string>
    var watch: set<ObjectId>
    var createdGk: Option<bool>

    constructor (env: Env, store: Store)
      ensures this.env == env && View() == store
    {
      this.env := env;
      cluster, finalizers, watch, createdGk := store.cluster, store.finalizers, store.watch, store.createdGk;
    }

    function View(): Store
      reads this
    {
      Store(cluster, finalizers, watch, createdGk)
    }

    method Reconcile(pol: Policy, calls: seq<Calls>, o: Outer) returns (err: bool)
      requires |calls| == |pol.templates|
      modifies this
      ensures View() == Reconciled(env, pol, calls, o, old(View()))
      ensures err == ReconcileErrs(env, pol, calls, o, old(View()))
    {
      hide SyncTemplate, CleanedUp, CleanUpErrs, FinalizerCleaned, CleanupFails, ToClean;
      if pol.templates == [] {
        WithoutNothingKept(finalizers);
        if FINALIZER in finalizers {
          if !o.updateOk {
            return true;
          }
          finalizers := RemoveFinalizer(finalizers, FINALIZER);
        }
        return false;
      }
      var dupName := GetDupName(pol.templates);
      if dupName != "" {
        return false;
      }
      if o.deleting {
        if FINALIZER !in finalizers {
          return false;
        }
        var errors;
        cluster, errors := FinalizerCleanup(env, o.uninstalling, o.undeletable, pol.templates, cluster);
        if errors > 0 || !o.updateOk {
          return true;
        }
        finalizers := RemoveFinalizer(finalizers, FINALIZER);
        return false;
      }
      if o.uninstalling {
        return false;
      }
      err := RunPass(pol, calls, o);
    }

    /** The loop over the templates and what follows it. */
    method RunPass(pol: Policy, calls: seq<Calls>, o: Outer) returns (err: bool)
      requires |calls| == |pol.templates|
      modifies this
      ensures
        var was := old(View());
        var r := PassTo(env, pol, calls, StartOfPass(env, pol, was.cluster, was.createdGk), |pol.templates|);
        if r.Return? then err && View() == was.(cluster := r.pass.cluster, createdGk := r.pass.createdGk)
        else err == PassErrs(pol, o, r.pass, was) && View() == PassEnd(pol, o, r.pass, was)
    {
      hide SyncTemplate, CleanedUp, CleanUpErrs, TopLevel, ToClean;
      ghost var start := StartOfPass(env, pol, cluster, createdGk);
      var topLevel := CollectTopLevel(env, pol.dependencies);
      var p := Pass(cluster, topLevel, [], [], false, createdGk, false, [], []);
      for i := 0 to |pol.templates|
        invariant PassTo(env, pol, calls, start, i) == Continue(p)
        invariant View() == old(View())
      {
        var r := SyncTemplate(env, pol, i, calls[i], p);
        p := r.pass;
        if r.Return? {
          PassStops(env, pol, calls, start, i + 1, |pol.templates|);
          cluster, createdGk := p.cluster, p.createdGk;
          return true;
        }
      }
      err := EndPass(pol, o, p);
    }

    /** Watching, cleaning up and updating the finalizer after the loop. */
    method EndPass(pol: Policy, o: Outer, p: Pass) returns (err: bool)
      modifies this
      ensures err == PassErrs(pol, o, p, old(View())) && View() == PassEnd(pol, o, p, old(View()))
    {
      hide CleanedUp, CleanUpErrs, ToClean;
      cluster := p.cluster;
      err := p.failed;
      if o.watchOk {
        watch := p.allDeps.Keys + set id | id in p.children;
      } else {
        err := true;
      }
      var errors := 1;
      if o.crdListOk {
        cluster, errors := CleanUpExcessTemplates(pol, p.names, ToClean(o, p.createdGk), cluster);
      }
      if errors > 0 {
        err := true;
      }
      createdGk := if p.createdGk != Some(false) && o.constraintTemplates == Some([]) then Some(false) else p.createdGk;
      if (FINALIZER in finalizers) != p.addFinalizer {
        if !o.updateOk {
          err := true;
        } else if p.addFinalizer {
          finalizers := finalizers + [FINALIZER];
        } else {
          finalizers := RemoveFinalizer(finalizers, FINALIZER);
        }
      }
    }
  }

  lemma WithoutNothingKept(finalizers: seq<string>)
    ensures FINALIZER !in finalizers ==> WithoutFinalizer(finalizers, FINALIZER) == finalizers
  {
    if FINALIZER !in finalizers { WithoutNothing(finalizers, FINALIZER); }
  }

  lemma {:induction false} PassStops(env: Env, pol: Policy, calls: seq<Calls>, start: Pass, i: nat, n: nat)
    requires i <= n <= |pol.templates| == |calls| && PassTo(env, pol, calls, start, i).Return?
    ensures PassTo(env, pol, calls, start, n) == PassTo(env, pol, calls, start, i)
    decreases n
  {
    hide SyncTemplate;
    if i < n { PassStops(env, pol, calls, start, i, n - 1); }
  }
}
