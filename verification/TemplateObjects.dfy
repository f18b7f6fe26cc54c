/** Template objects as template-sync builds, compares and stores them. */
module TemplateObjects {
  import opened Text
  import opened StatusSync

  datatype Json =
    | Null
    | Bool(b: bool)
    | Num(n: int)
    | Str(s: string)
    | Arr(items: seq<Json>)
    | Obj(fields: map<string, Json>)

  const POLICY_GROUP := "policy.open-cluster-management.io"
  const CONSTRAINT_GROUP := "constraints.gatekeeper.sh"
  const CONSTRAINT_TEMPLATE_GROUP := "templates.gatekeeper.sh"
  const CONSTRAINT_TEMPLATE_KIND := "ConstraintTemplate"

  datatype ObjectStatus = ObjectStatus(compliant: Option<string>, totalViolations: Option<int>, created: Option<bool>)

  const NO_STATUS := ObjectStatus(None, None, None)

  /** An object in the cluster. The spec is missing when the object has no such field. */
  datatype Object = Object(
    owners: seq<OwnerRef>, labels: map<string, string>, annotations: map<string, string>,
    spec: Option<Json>, status: ObjectStatus)

  // ---------------------------------------------------------------- nested fields

  /** unstructured.NestedString below a value: "" when the path is missing or leads to something else. */
  function StringAt(v: Option<Json>, path: seq<string>): string
    decreases |path|
  {
    if v.None? then ""
    else if path == [] then if v.value.Str? then v.value.s else ""
    else if v.value.Obj? && path[0] in v.value.fields then StringAt(Some(v.value.fields[path[0]]), path[1..])
    else ""
  }

  /** unstructured.SetNestedField fails only where the path runs into something that is not an object. */
  predicate CanSet(v: Option<Json>, path: seq<string>)
    decreases |path|
  {
    path == [] || v.None? ||
    (v.value.Obj? && (path[0] !in v.value.fields || CanSet(Some(v.value.fields[path[0]]), path[1..])))
  }

  function SetAt(v: Option<Json>, path: seq<string>, value: Json): Json
    requires CanSet(v, path)
    decreases |path|
  {
    if path == [] then value
    else
      var fields := if v.None? then map[] else v.value.fields;
      var inner := if path[0] in fields then Some(fields[path[0]]) else None;
      Obj(fields[path[0] := SetAt(inner, path[1..], value)])
  }

  /** Fill in a string that is missing or empty; an error from SetNestedField is only logged. */
  function DefaultString(v: Option<Json>, path: seq<string>, value: string): Option<Json> {
    if StringAt(v, path) == "" && CanSet(v, path) then Some(SetAt(v, path, Str(value))) else v
  }

  /** The field has a value, or cannot be given one. */
  predicate Filled(v: Option<Json>, path: seq<string>) {
    StringAt(v, path) != "" || !CanSet(v, path)
  }

  lemma {:induction false} SetThenGet(v: Option<Json>, path: seq<string>, value: string)
    requires CanSet(v, path)
    ensures StringAt(Some(SetAt(v, path, Str(value))), path) == value
    decreases |path|
  {
    if path != [] {
      var fields := if v.None? then map[] else v.value.fields;
      var inner := if path[0] in fields then Some(fields[path[0]]) else None;
      SetThenGet(inner, path[1..], value);
    }
  }

  /** The paths share every object they go through and part at the last step. */
  predicate Siblings(p: seq<string>, q: seq<string>) {
    p != [] && q != [] &&
    if |p| == 1 || |q| == 1 then |p| == |q| && p != q else p[0] == q[0] && Siblings(p[1..], q[1..])
  }

  lemma {:induction false} SetKeepsSibling(v: Option<Json>, p: seq<string>, q: seq<string>, value: string)
    requires CanSet(v, p) && Siblings(p, q)
    ensures CanSet(v, q)
    ensures StringAt(Some(SetAt(v, p, Str(value))), q) == StringAt(v, q)
    decreases |p|
  {
    var fields := if v.None? then map[] else v.value.fields;
    var inner := if p[0] in fields then Some(fields[p[0]]) else None;
    if |p| == 1 {
      assert p == [p[0]] && q == [q[0]];
      assert q[1..] == [];
      assert p[0] != q[0];
    } else {
      SetKeepsSibling(inner, p[1..], q[1..], value);
    }
  }

  lemma DefaultFills(v: Option<Json>, path: seq<string>, value: string)
    requires value != ""
    ensures Filled(DefaultString(v, path, value), path)
  {
    if StringAt(v, path) == "" && CanSet(v, path) { SetThenGet(v, path, value); }
  }

  lemma {:induction false} SiblingsSymmetric(p: seq<string>, q: seq<string>)
    requires Siblings(p, q)
    ensures Siblings(q, p)
  {
    if |p| > 1 && |q| > 1 { SiblingsSymmetric(p[1..], q[1..]); }
  }

  lemma DefaultKeepsFilled(v: Option<Json>, p: seq<string>, q: seq<string>, value: string)
    requires Siblings(p, q) && Filled(v, q)
    ensures Filled(DefaultString(v, p, value), q)
  {
    if StringAt(v, p) == "" && CanSet(v, p) {
      SetKeepsSibling(v, p, q, value);
    }
  }

  // ---------------------------------------------------------------- defaults

  function RecreateDefault(item: Json): Json {
    if item.Obj? && "recreateOption" !in item.fields then Obj(item.fields["recreateOption" := Str("None")]) else item
  }

  function RecreateDefaults(items: seq<Json>): (r: seq<Json>)
    ensures |r| == |items| && forall i :: 0 <= i < |r| ==> r[i] == RecreateDefault(items[i])
  {
    seq(|items|, i requires 0 <= i < |items| => RecreateDefault(items[i]))
  }

  function ObjectTemplateDefaults(spec: Option<Json>): Option<Json> {
    if spec.Some? && spec.value.Obj? && "object-templates" in spec.value.fields
       && spec.value.fields["object-templates"].Arr?
    then
      var fields := spec.value.fields;
      Some(Obj(fields["object-templates" := Arr(RecreateDefaults(fields["object-templates"].items))]))
    else spec
  }

  const PRUNE := ["pruneObjectBehavior"]
  const CATALOG := ["complianceConfig", "catalogSourceUnhealthy"]
  const DEPLOYMENTS := ["complianceConfig", "deploymentsUnavailable"]
  const UPGRADES := ["complianceConfig", "upgradesAvailable"]

  /** The defaults equivalentTemplates knows of, which are those the API server fills in. */
  function Defaults(kind: string, spec: Option<Json>): Option<Json> {
    if kind == "ConfigurationPolicy" then ObjectTemplateDefaults(DefaultString(spec, PRUNE, "None"))
    else if kind == "OperatorPolicy" then
      DefaultString(
        DefaultString(DefaultString(spec, CATALOG, "Compliant"), DEPLOYMENTS, "NonCompliant"), UPGRADES, "Compliant")
    else spec
  }

  lemma ObjectTemplatesOnlyTouchOwnField(spec: Option<Json>)
    ensures StringAt(ObjectTemplateDefaults(spec), PRUNE) == StringAt(spec, PRUNE)
    ensures CanSet(ObjectTemplateDefaults(spec), PRUNE) == CanSet(spec, PRUNE)
    ensures ObjectTemplateDefaults(ObjectTemplateDefaults(spec)) == ObjectTemplateDefaults(spec)
  {
    var r := ObjectTemplateDefaults(spec);
    assert PRUNE[1..] == [];
    if r != spec {
      var items := spec.value.fields["object-templates"].items;
      assert RecreateDefaults(RecreateDefaults(items)) == RecreateDefaults(items);
      assert ObjectTemplateDefaults(r).value.fields == r.value.fields;
    }
  }

  /** Filling in the defaults of a filled spec changes nothing: what the server stored compares equal. */
  lemma DefaultsIdempotent(kind: string, spec: Option<Json>)
    ensures Defaults(kind, Defaults(kind, spec)) == Defaults(kind, spec)
  {
    if kind == "ConfigurationPolicy" {
      var pruned := DefaultString(spec, PRUNE, "None");
      DefaultFills(spec, PRUNE, "None");
      ObjectTemplatesOnlyTouchOwnField(pruned);
    } else if kind == "OperatorPolicy" {
      OperatorDefaultsFill(spec);
    }
  }

  lemma OperatorPathsAreSiblings()
    ensures Siblings(DEPLOYMENTS, CATALOG) && Siblings(UPGRADES, CATALOG) && Siblings(UPGRADES, DEPLOYMENTS)
  {
    assert CATALOG[1..] == ["catalogSourceUnhealthy"] && DEPLOYMENTS[1..] == ["deploymentsUnavailable"];
    assert UPGRADES[1..] == ["upgradesAvailable"];
    var c, d, u := "catalogSourceUnhealthy"[0], "deploymentsUnavailable"[0], "upgradesAvailable"[0];
    assert c != d && c != u && d != u;
    assert ["catalogSourceUnhealthy"][0] != ["deploymentsUnavailable"][0];
    assert ["catalogSourceUnhealthy"][0] != ["upgradesAvailable"][0];
    assert ["deploymentsUnavailable"][0] != ["upgradesAvailable"][0];
  }

  lemma OperatorDefaultsFill(spec: Option<Json>)
    ensures
      var r := Defaults("OperatorPolicy", spec);
      Filled(r, CATALOG) && Filled(r, DEPLOYMENTS) && Filled(r, UPGRADES) && Defaults("OperatorPolicy", r) == r
  {
    hide StringAt, CanSet, SetAt;
    var a := DefaultString(spec, CATALOG, "Compliant");
    var b := DefaultString(a, DEPLOYMENTS, "NonCompliant");
    var c := DefaultString(b, UPGRADES, "Compliant");
    OperatorPathsAreSiblings();
    DefaultFills(spec, CATALOG, "Compliant");
    DefaultFills(a, DEPLOYMENTS, "NonCompliant");
    DefaultFills(b, UPGRADES, "Compliant");
    DefaultKeepsFilled(a, DEPLOYMENTS, CATALOG, "NonCompliant");
    DefaultKeepsFilled(b, UPGRADES, CATALOG, "Compliant");
    DefaultKeepsFilled(b, UPGRADES, DEPLOYMENTS, "Compliant");
  }

  // ---------------------------------------------------------------- remediation

  predicate FoldsToInformOnly(s: string) {
    |s| == 10 && forall i :: 0 <= i < 10 ==>
      s[i] == "informonly"[i] || s[i] == "INFORMONLY"[i]
  }

  /** overrideRemediationAction on the spec of a template of this group. */
  function OverrideRemediation(group: string, remediation: string, spec: Option<Json>): Option<Json> {
    if spec.None? || !spec.value.Obj? || group == CONSTRAINT_TEMPLATE_GROUP then spec
    else
      var fields := spec.value.fields;
      if group == CONSTRAINT_GROUP then
        if ToLower(remediation) == "inform" then Some(Obj(fields["enforcementAction" := Str("warn")]))
        else if ToLower(remediation) == "enforce" then Some(Obj(fields["enforcementAction" := Str("deny")]))
        else spec
      else if "remediationAction" in fields && fields["remediationAction"].Str?
              && FoldsToInformOnly(fields["remediationAction"].s) then
        Some(Obj(fields["remediationAction" := Str("inform")]))
      else if remediation != "" then Some(Obj(fields["remediationAction" := Str(remediation)]))
      else spec
  }

  // ---------------------------------------------------------------- comparison

  /** json.Marshal of object["spec"]: a missing field prints as null. */
  function SpecJson(spec: Option<Json>): Json {
    if spec.None? then Null else spec.value
  }

  predicate Covers(existing: map<string, string>, wanted: map<string, string>) {
    forall key :: key in wanted ==> key in existing && existing[key] == wanted[key]
  }

  /** equivalentTemplates, with the defaults it fills into the template first. */
  predicate Equivalent(kind: string, existing: Object, wanted: Object) {
    && SpecJson(existing.spec) == SpecJson(Defaults(kind, wanted.spec))
    && Covers(existing.annotations, wanted.annotations)
    && Covers(existing.labels, wanted.labels)
    && existing.owners == wanted.owners
  }

  /** What the API server keeps of an object it is sent: the defaults of its kind are filled in. */
  function Stored(kind: string, sent: Object): Object {
    sent.(spec := Defaults(kind, sent.spec))
  }

  /** The object that template-sync sends in an update. */
  function Updated(kind: string, existing: Object, wanted: Object): Object {
    existing.(spec := Defaults(kind, wanted.spec), annotations := wanted.annotations,
              labels := wanted.labels, owners := wanted.owners)
  }

  /** What was created or updated from a template is found equivalent to it afterwards. */
  lemma StoredIsEquivalent(kind: string, existing: Object, wanted: Object)
    ensures Equivalent(kind, Stored(kind, wanted), wanted)
    ensures Equivalent(kind, Stored(kind, Updated(kind, existing, wanted)), wanted)
  {
    hide Defaults;
    DefaultsIdempotent(kind, wanted.spec);
  }

  /**
   * An object is left alone exactly when updating it would change neither its spec nor its owners, and would set
   * no annotation or label that it does not already carry.
   */
  lemma EquivalentIffNothingToUpdate(kind: string, existing: Object, wanted: Object)
    ensures
      var stored := Stored(kind, Updated(kind, existing, wanted));
      Equivalent(kind, existing, wanted) <==>
      && SpecJson(stored.spec) == SpecJson(existing.spec) && stored.owners == existing.owners
      && Covers(existing.annotations, stored.annotations) && Covers(existing.labels, stored.labels)
  {
    hide Defaults;
    DefaultsIdempotent(kind, wanted.spec);
  }

  function OrElse(s: string, otherwise: string): string {
    if s != "" then s else otherwise
  }

  lemma DefaultStringValue(v: Option<Json>, path: seq<string>, value: string)
    requires CanSet(v, path)
    ensures StringAt(DefaultString(v, path, value), path) == OrElse(StringAt(v, path), value)
  {
    if StringAt(v, path) == "" { SetThenGet(v, path, value); }
  }

  lemma DefaultStringSibling(v: Option<Json>, p: seq<string>, q: seq<string>, value: string)
    requires CanSet(v, p) && Siblings(p, q) && (forall s: string :: CanSet(Some(SetAt(v, p, Str(s))), q))
    ensures StringAt(DefaultString(v, p, value), q) == StringAt(v, q)
    ensures CanSet(v, q) && CanSet(DefaultString(v, p, value), q)
  {
    SetKeepsSibling(v, p, q, value);
  }

  lemma {:induction false} SetKeepsSettable(v: Option<Json>, p: seq<string>, q: seq<string>, value: Json)
    requires CanSet(v, p) && Siblings(p, q)
    ensures CanSet(Some(SetAt(v, p, value)), q)
    decreases |p|
  {
    var fields := if v.None? then map[] else v.value.fields;
    var inner := if p[0] in fields then Some(fields[p[0]]) else None;
    if |p| == 1 {
      assert q == [q[0]] && p == [p[0]] && q[1..] == [];
    } else {
      SetKeepsSettable(inner, p[1..], q[1..], value);
    }
  }

  /** The defaults of an OperatorPolicy: what the template says stays, what it leaves out gets its value. */
  lemma OperatorDefaultValues(spec: Option<Json>)
    requires CanSet(spec, CATALOG)
    ensures
      var r := Defaults("OperatorPolicy", spec);
      && StringAt(r, CATALOG) == OrElse(StringAt(spec, CATALOG), "Compliant")
      && StringAt(r, DEPLOYMENTS) == OrElse(StringAt(spec, DEPLOYMENTS), "NonCompliant")
      && StringAt(r, UPGRADES) == OrElse(StringAt(spec, UPGRADES), "Compliant")
  {
    OperatorPathsAreSiblings();
    SiblingsSymmetric(DEPLOYMENTS, CATALOG);
    SiblingsSymmetric(UPGRADES, CATALOG);
    SiblingsSymmetric(UPGRADES, DEPLOYMENTS);
    var a := DefaultString(spec, CATALOG, "Compliant");
    var b := DefaultString(a, DEPLOYMENTS, "NonCompliant");
    hide StringAt, CanSet, SetAt, DefaultString;
    OneDefault(spec, CATALOG, DEPLOYMENTS, "Compliant");
    OneDefault(spec, CATALOG, UPGRADES, "Compliant");
    OneDefault(a, DEPLOYMENTS, CATALOG, "NonCompliant");
    OneDefault(a, DEPLOYMENTS, UPGRADES, "NonCompliant");
    OneDefault(b, UPGRADES, CATALOG, "Compliant");
    OneDefault(b, UPGRADES, DEPLOYMENTS, "Compliant");
  }

  lemma OneDefault(v: Option<Json>, p: seq<string>, q: seq<string>, value: string)
    requires CanSet(v, p) && Siblings(p, q)
    ensures StringAt(DefaultString(v, p, value), p) == OrElse(StringAt(v, p), value)
    ensures StringAt(DefaultString(v, p, value), q) == StringAt(v, q) && CanSet(DefaultString(v, p, value), q)
  {
    forall s: string ensures CanSet(Some(SetAt(v, p, Str(s))), q) { SetKeepsSettable(v, p, q, Str(s)); }
    DefaultStringValue(v, p, value);
    DefaultStringSibling(v, p, q, value);
  }

  /** The one field of the spec that the policy's remediation action may decide. */
  function RemediationField(group: string): string {
    if group == CONSTRAINT_GROUP then "enforcementAction" else "remediationAction"
  }

  /** Everything else in the spec comes from the template, and a ConstraintTemplate is not touched at all. */
  lemma OverrideTouchesOneField(group: string, remediation: string, spec: Option<Json>, field: string)
    requires spec.Some? && spec.value.Obj? && field != RemediationField(group)
    ensures
      var r := OverrideRemediation(group, remediation, spec);
      && r.Some? && r.value.Obj?
      && (field in r.value.fields <==> field in spec.value.fields)
      && (field in spec.value.fields ==> r.value.fields[field] == spec.value.fields[field])
  {
    hide FoldsToInformOnly;
    assert "enforcementAction"[0] == 'e' && "remediationAction"[0] == 'r';
  }

  /**
   * The policy decides, unless the template says informonly: of two templates that differ in their action only, a
   * policy with an action of its own makes the same object exactly when both or neither say informonly, or it asks
   * for inform itself.
   */
  lemma PolicyDecidesUnlessInformOnly(
    group: string, remediation: string, fields: map<string, Json>, action: string, other: string)
    requires group != CONSTRAINT_GROUP && group != CONSTRAINT_TEMPLATE_GROUP && remediation != ""
    ensures
      var a, b := fields["remediationAction" := Str(action)], fields["remediationAction" := Str(other)];
      var r := OverrideRemediation(group, remediation, Some(Obj(a)));
      r == OverrideRemediation(group, remediation, Some(Obj(b))) <==>
      || (FoldsToInformOnly(action) <==> FoldsToInformOnly(other))
      || remediation == "inform"
  {
    hide FoldsToInformOnly;
    var a, b := fields["remediationAction" := Str(action)], fields["remediationAction" := Str(other)];
    forall s: string
      ensures a["remediationAction" := Str(s)] == fields["remediationAction" := Str(s)] ==
        b["remediationAction" := Str(s)]
    {
    }
    var inform, asked := fields["remediationAction" := Str("inform")], fields["remediationAction" := Str(remediation)];
    assert inform["remediationAction"] == Str("inform") && asked["remediationAction"] == Str(remediation);
  }

  /** A template is synced as inform exactly when it says informonly, or the policy or else it says inform. */
  lemma SyncedAsInformIff(group: string, remediation: string, fields: map<string, Json>, action: string)
    requires group != CONSTRAINT_GROUP && group != CONSTRAINT_TEMPLATE_GROUP
    requires "remediationAction" in fields && fields["remediationAction"] == Str(action)
    ensures
      StringAt(OverrideRemediation(group, remediation, Some(Obj(fields))), ["remediationAction"]) == "inform" <==>
      FoldsToInformOnly(action) || remediation == "inform" || (remediation == "" && action == "inform")
  {
    hide FoldsToInformOnly;
    assert ["remediationAction"][1..] == [];
  }
}
