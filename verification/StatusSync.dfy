/** The status-sync controller: from the events of a policy to the status of its templates. */
module StatusSync {
  import opened Text
  import opened EventCodec
  import opened History
  import opened HistoryLaws
  import opened HistoryStability

  datatype Event = Event(name: string, uid: string, reason: string, message: string, lastTimestamp: int)

  datatype OwnerRef = OwnerRef(kind: string, name: string, uid: string)

  /** An element of a template object's status.history; what does not parse is skipped. */
  datatype RawHistory = Malformed | Reported(time: Option<int>, message: string)

  /** What status-sync reads of a template object in the cluster. */
  datatype Live = Live(owners: seq<OwnerRef>, labels: map<string, string>, history: seq<RawHistory>)

  datatype Template = Undecodable(raw: string) | Decoded(kind: string, name: string, body: string)

  type ObjectKey = (string, string)

  /**
   * Everything outside the policy that getDetails reads. Listing the events fails unless `listOk`, and lookups of
   * `failing` keys return an error.
   */
  datatype World = World(log: seq<Event>, listOk: bool, objects: map<ObjectKey, Live>, failing: set<ObjectKey>)

  datatype Details = Details(name: string, compliance: Compliance, history: seq<Entry>)

  datatype Status = Status(details: seq<Details>, compliance: Compliance)

  const POLICY_KIND := "Policy"
  const PARENT_POLICY_LABEL := "policy.open-cluster-management.io/policy"

  // ---------------------------------------------------------------- sources

  predicate ConcernsTemplate(ev: Event, uid: string, tName: string) {
    ev.uid == uid && TemplateNameOf(ev.reason) == Some(tName)
  }

  function EntryOf(ev: Event): Entry {
    Entry(ev.lastTimestamp, RecordedMessage(ev.message), ev.name)
  }

  /** The events of one policy instance about one template, in the order they are listed. */
  function EventsFor(log: seq<Event>, uid: string, tName: string): seq<Entry> {
    if log == [] then []
    else
      var last := log[|log| - 1];
      EventsFor(log[..|log| - 1], uid, tName) + if ConcernsTemplate(last, uid, tName) then [EntryOf(last)] else []
  }

  function Bucket(m: map<string, seq<Entry>>, tName: string): seq<Entry> {
    if tName in m then m[tName] else []
  }

  /** getEventsInCluster: None when the events cannot be listed. */
  method GetEventsInCluster(w: World, uid: string) returns (events: Option<map<string, seq<Entry>>>)
    ensures events.Some? <==> w.listOk
    ensures events.Some? ==> forall tName :: Bucket(events.value, tName) == EventsFor(w.log, uid, tName)
  {
    if !w.listOk {
      return None;
    }
    var log, m := w.log, map[];
    for i := 0 to |log|
      invariant forall tName :: Bucket(m, tName) == EventsFor(log[..i], uid, tName)
    {
      assert log[..i + 1][..i] == log[..i];
      var tName := TemplateNameOf(log[i].reason);
      if log[i].uid == uid && tName.Some? {
        m := m[tName.value := Bucket(m, tName.value) + [EntryOf(log[i])]];
      }
    }
    assert log[..|log|] == log;
    events := Some(m);
  }

  function TemplateEvents(raw: seq<RawHistory>, policy: string): seq<Entry> {
    if raw == [] then []
    else
      var last := raw[|raw| - 1];
      TemplateEvents(raw[..|raw| - 1], policy)
      + if last.Malformed? || last.time.None? || last.message == "" then []
        else [Entry(last.time.value, TrimSpace(last.message), EventName(policy, UnixNano(last.time.value)))]
  }

  method GetEventsInTemplate(raw: seq<RawHistory>, policy: string) returns (entries: seq<Entry>)
    ensures entries == TemplateEvents(raw, policy)
  {
    entries := [];
    for i := 0 to |raw|
      invariant entries == TemplateEvents(raw[..i], policy)
    {
      assert raw[..i + 1][..i] == raw[..i];
      if raw[i].Malformed? || raw[i].time.None? || raw[i].message == "" {
        continue;
      }
      var name := EventName(policy, UnixNano(raw[i].time.value));
      entries := entries + [Entry(raw[i].time.value, TrimSpace(raw[i].message), name)];
    }
    assert raw[..|raw|] == raw;
  }

  function FirstPolicyOwner(owners: seq<OwnerRef>): string {
    if owners == [] then ""
    else if owners[0].kind == POLICY_KIND then owners[0].name
    else FirstPolicyOwner(owners[1..])
  }

  function ParentLabel(labels: map<string, string>): string {
    if PARENT_POLICY_LABEL in labels then labels[PARENT_POLICY_LABEL] else ""
  }

  /** The policy that status-sync takes an object to belong to. */
  function StatusOwner(owners: seq<OwnerRef>, labels: map<string, string>): string {
    var owner := FirstPolicyOwner(owners);
    if owner == "" then ParentLabel(labels) else owner
  }

  predicate OwnedByPolicy(live: Live, policy: string) {
    var owner := StatusOwner(live.owners, live.labels);
    owner != "" && owner == policy
  }

  // ---------------------------------------------------------------- details

  function Digits(n: nat): string {
    if n < 10 then [['0', '1', '2', '3', '4', '5', '6', '7', '8', '9'][n]]
    else Digits(n / 10) + Digits(n % 10)
  }

  /** The name under which the history of template i is kept. */
  function TName(t: Template, i: nat): string {
    if t.Undecodable? then "template-" + Digits(i) else t.name
  }

  function TNames(templates: seq<Template>): (r: seq<string>)
    ensures |r| == |templates| && forall i {:trigger r[i]} :: 0 <= i < |r| ==> r[i] == TName(templates[i], i)
  {
    seq(|templates|, i requires 0 <= i < |templates| => TName(templates[i], i))
  }

  predicate Distinct(names: seq<string>) {
    forall i, j :: 0 <= i < j < |names| ==> names[i] != names[j]
  }

  function Lookup(w: World, t: Template): Option<Live> {
    if t.Decoded? && (t.kind, t.name) in w.objects then Some(w.objects[(t.kind, t.name)]) else None
  }

  predicate LookupFails(w: World, t: Template) {
    t.Decoded? && (t.kind, t.name) in w.failing
  }

  /** The new events of template i: those in the cluster, then those the template object reports itself. */
  function SourcesFor(w: World, uid: string, policy: string, t: Template, i: nat): seq<Entry> {
    var live := Lookup(w, t);
    EventsFor(w.log, uid, TName(t, i))
    + if live.Some? && OwnedByPolicy(live.value, policy) then TemplateEvents(live.value.history, policy) else []
  }

  function FindDetails(existing: seq<Details>, tName: string): Option<Details> {
    if existing == [] then None
    else if existing[0].name == tName then Some(existing[0])
    else FindDetails(existing[1..], tName)
  }

  /** The stored details that count for template i: none when its object belongs to another policy. */
  function StoredFor(w: World, policy: string, t: Template, i: nat, existing: seq<Details>): Option<Details> {
    var live := Lookup(w, t);
    if live.Some? && !OwnedByPolicy(live.value, policy) then None else FindDetails(existing, TName(t, i))
  }

  function MergedDetails(events: seq<Entry>, stored: Option<Details>, tName: string): Details {
    var base := if stored.Some? then stored.value else Details(tName, Unknown, []);
    var history := Merge(events, base.history);
    base.(history := history,
          compliance := if history == [] then base.compliance else ParseCompliance(history[0].message))
  }

  function TemplateDetails(
    w: World, uid: string, policy: string, t: Template, i: nat, existing: seq<Details>): Details
  {
    MergedDetails(SourcesFor(w, uid, policy, t, i), StoredFor(w, policy, t, i, existing), TName(t, i))
  }

  function AllDetails(w: World, uid: string, policy: string, templates: seq<Template>, existing: seq<Details>):
    (r: seq<Details>)
    ensures |r| == |templates|
  {
    if templates == [] then []
    else
      var i := |templates| - 1;
      AllDetails(w, uid, policy, templates[..i], existing)
      + [TemplateDetails(w, uid, policy, templates[i], i, existing)]
  }

  lemma {:induction false} AllDetailsSnoc(
    w: World, uid: string, policy: string, templates: seq<Template>, existing: seq<Details>, i: nat)
    requires i < |templates|
    ensures AllDetails(w, uid, policy, templates[..i + 1], existing)
         == AllDetails(w, uid, policy, templates[..i], existing)
            + [TemplateDetails(w, uid, policy, templates[i], i, existing)]
  {
    hide TemplateDetails;
    assert templates[..i + 1][..i] == templates[..i];
  }

  lemma {:induction false} AllDetailsAt(
    w: World, uid: string, policy: string, templates: seq<Template>, existing: seq<Details>, i: nat)
    requires i < |templates|
    ensures AllDetails(w, uid, policy, templates, existing)[i]
         == TemplateDetails(w, uid, policy, templates[i], i, existing)
  {
    if i < |templates| - 1 {
      AllDetailsAt(w, uid, policy, templates[..|templates| - 1], existing, i);
    }
  }

  /** The stored status of one template, which mergeDetails updates in place. */
  class DetailsPerTemplate {
    const name: string
    var compliance: Compliance
    var history: seq<Entry>

    constructor (name: string)
      ensures this.name == name && compliance == Unknown && history == []
    {
      this.name := name;
      compliance := Unknown;
      history := [];
    }

    function Value(): Details
      reads this
    {
      Details(name, compliance, history)
    }
  }

  function Values(objects: seq<DetailsPerTemplate>): (r: seq<Details>)
    reads objects
    ensures |r| == |objects| && forall i :: 0 <= i < |r| ==> r[i] == objects[i].Value()
  {
    if objects == [] then [] else [objects[0].Value()] + Values(objects[1..])
  }

  /** The position of the first object of that name, or the length. */
  function FirstNamed(objects: seq<DetailsPerTemplate>, tName: string): (k: nat)
    ensures k <= |objects| && (k < |objects| ==> objects[k].name == tName)
    ensures forall i :: 0 <= i < k ==> objects[i].name != tName
  {
    if objects == [] || objects[0].name == tName then 0 else 1 + FirstNamed(objects[1..], tName)
  }

  lemma {:induction false} FindFirstNamed(objects: seq<DetailsPerTemplate>, values: seq<Details>, tName: string)
    requires |values| == |objects| && forall i :: 0 <= i < |objects| ==> values[i].name == objects[i].name
    ensures
      var k := FirstNamed(objects, tName);
      FindDetails(values, tName) == if k < |objects| then Some(values[k]) else None
  {
    if objects != [] && objects[0].name != tName {
      FindFirstNamed(objects[1..], values[1..], tName);
    }
  }

  lemma {:induction false} OldOnlySnoc(taken: set<string>, stored: seq<Entry>, e: Entry)
    ensures
      var only := OldOnly(taken, stored);
      OldOnly(taken, stored + [e]) == if e.name in taken + Names(only) then only else only + [e]
    decreases |stored|
  {
    if stored == [] {
      assert stored + [e] == [e] && [e][1..] == [];
    } else {
      assert (stored + [e])[1..] == stored[1..] + [e] && (stored + [e])[0] == stored[0];
      if stored[0].name in taken {
        OldOnlySnoc(taken, stored[1..], e);
      } else {
        OldOnlySnoc(taken + {stored[0].name}, stored[1..], e);
        var only := OldOnly(taken, stored);
        assert only[1..] == OldOnly(taken + {stored[0].name}, stored[1..]);
        NamesTail(only);
      }
    }
  }

  /** The loop of mergeDetails that adds stored events under names not seen yet. */
  method AddStored(sources: seq<Entry>, stored: seq<Entry>) returns (events: seq<Entry>)
    ensures events == sources + OldOnly(Names(sources), stored)
  {
    events := sources;
    assert events == sources + OldOnly(Names(sources), []);
    for i := 0 to |stored|
      invariant events == sources + OldOnly(Names(sources), stored[..i])
    {
      var found := false;
      for j := 0 to |events|
        invariant !found && forall k :: 0 <= k < j ==> events[k].name != stored[i].name
      {
        if events[j].name == stored[i].name {
          found := true;
          break;
        }
      }
      OldOnlySnoc(Names(sources), stored[..i], stored[i]);
      ConcatNames(sources, OldOnly(Names(sources), stored[..i]));
      assert stored[..i + 1] == stored[..i] + [stored[i]];
      if !found {
        events := events + [stored[i]];
      }
    }
    assert stored[..|stored|] == stored;
  }

  /** The loop of mergeDetails that drops similar neighbours and stops at the limit. */
  method DropSimilar(events: seq<Entry>) returns (kept: seq<Entry>)
    ensures kept == Dedup(events)
  {
    kept := [];
    assert events[..0] == [];
    for i := 0 to |events|
      invariant kept == Dedup(events[..i])
    {
      DedupPrefix(events, i);
      if i == 0 {
        kept := kept + [events[i]];
        continue;
      }
      if |kept| == MAX_HISTORY {
        DedupGrows(events, i, |events|);
        assert events[..|events|] == events;
        break;
      }
      if !TooSimilar(events[i], events[i - 1]) {
        kept := kept + [events[i]];
      }
    }
    assert events[..|events|] == events;
  }

  /** From the known events and the stored history to the new history. */
  method MergeHistory(events: seq<Entry>, stored: seq<Entry>) returns (history: seq<Entry>)
    ensures history == Merge(events, stored)
  {
    var merged := AddStored(events, stored);
    var recovered := merged;
    for i := 0 to |recovered|
      invariant |recovered| == |merged|
      invariant forall j :: 0 <= j < |merged| ==> recovered[j] == if j < i then Recover(merged[j]) else merged[j]
    {
      var time := ParseTimestamp(recovered[i].name);
      if time.Some? {
        recovered := recovered[i := recovered[i].(time := time.value)];
      }
    }
    assert recovered == RecoverAll(merged);
    var kept := DropSimilar(SortNewestFirst(recovered));
    history := kept;
    for i := 0 to |history|
      invariant |history| == |kept|
      invariant forall j :: 0 <= j < |kept| ==> history[j] == if j < i then Truncate(kept[j]) else kept[j]
    {
      history := history[i := history[i].(time := history[i].time / SECOND * SECOND)];
    }
    assert history == TruncateAll(kept);
  }

  method MergeDetails(events: seq<Entry>, existing: seq<DetailsPerTemplate>, tName: string)
    returns (details: DetailsPerTemplate)
    modifies existing
    ensures details.name == tName
    ensures
      var k := FirstNamed(existing, tName);
      if k < |existing| then details == existing[k] else fresh(details)
    ensures details.Value() == MergedDetails(events, FindDetails(old(Values(existing)), tName), tName)
    ensures forall d :: d in existing && d != details ==> d.Value() == old(d.Value())
  {
    hide Merge, ParseCompliance, FindDetails;
    FindFirstNamed(existing, Values(existing), tName);
    var k := 0;
    while k < |existing| && existing[k].name != tName
      invariant 0 <= k <= |existing| && forall i :: 0 <= i < k ==> existing[i].name != tName
    {
      k := k + 1;
    }
    if k < |existing| {
      details := existing[k];
    } else {
      details := new DetailsPerTemplate(tName);
    }
    var history := MergeHistory(events, details.history);
    details.history := history;
    if |history| > 0 {
      details.compliance := ParseCompliance(history[0].message);
    }
  }

  /** The body of the loop of getDetails, for a template whose object could be read. */
  method MergeTemplate(
    w: World, uid: string, policy: string, t: Template, i: nat, events: seq<Entry>, existing: seq<DetailsPerTemplate>)
    returns (details: DetailsPerTemplate)
    requires events == EventsFor(w.log, uid, TName(t, i))
    modifies existing
    ensures details.name == TName(t, i) && (details in existing || fresh(details))
    ensures details.Value() == TemplateDetails(w, uid, policy, t, i, old(Values(existing)))
    ensures forall d :: d in existing && d.name != TName(t, i) ==> d.Value() == old(d.Value())
  {
    hide MergedDetails, EventsFor, TemplateEvents, TName, OwnedByPolicy;
    var sources, stored := events, existing;
    var live := Lookup(w, t);
    if live.Some? {
      if OwnedByPolicy(live.value, policy) {
        var reported := GetEventsInTemplate(live.value.history, policy);
        sources := sources + reported;
      } else {
        stored := [];
      }
    }
    assert sources == SourcesFor(w, uid, policy, t, i);
    details := MergeDetails(sources, stored, TName(t, i));
  }

  lemma SameStored(
    w: World, uid: string, policy: string, t: Template, i: nat, objects: seq<DetailsPerTemplate>,
    a: seq<Details>, b: seq<Details>)
    requires |a| == |b| == |objects|
    requires forall k :: 0 <= k < |a| ==> a[k].name == b[k].name == objects[k].name
    requires forall k :: 0 <= k < |a| && a[k].name == TName(t, i) ==> a[k] == b[k]
    ensures TemplateDetails(w, uid, policy, t, i, a) == TemplateDetails(w, uid, policy, t, i, b)
  {
    FindFirstNamed(objects, a, TName(t, i));
    FindFirstNamed(objects, b, TName(t, i));
  }

  /** The loop of getDetails over the templates: None when a template object cannot be read. */
  method CollectDetails(
    w: World, uid: string, policy: string, templates: seq<Template>, events: map<string, seq<Entry>>,
    existing: seq<DetailsPerTemplate>)
    returns (all: Option<seq<DetailsPerTemplate>>)
    requires Distinct(TNames(templates)) && forall tName :: Bucket(events, tName) == EventsFor(w.log, uid, tName)
    modifies existing
    ensures all.None? <==> exists i :: 0 <= i < |templates| && LookupFails(w, templates[i])
    ensures all.Some? ==> Values(all.value) == AllDetails(w, uid, policy, templates, old(Values(existing)))
  {
    hide TemplateDetails, AllDetails, EventsFor, TName, LookupFails, Bucket;
    ghost var before := Values(existing);
    ghost var names := TNames(templates);
    ghost var taken: set<string> := {};
    ghost var done := AllDetails(w, uid, policy, templates[..0], before);
    var details: seq<DetailsPerTemplate> := [];
    for i := 0 to |templates|
      invariant |details| == |done| == i && done == AllDetails(w, uid, policy, templates[..i], before)
      invariant forall j :: 0 <= j < i ==> !LookupFails(w, templates[j])
      invariant forall j :: 0 <= j < i ==> details[j].Value() == done[j] && details[j].name == names[j]
      invariant forall j :: 0 <= j < i ==> details[j] in existing || fresh(details[j])
      invariant forall k :: 0 <= k < |existing| ==> existing[k].Value() == before[k] || existing[k].name in taken
      invariant forall j :: i <= j < |names| ==> names[j] !in taken
    {
      var t := templates[i];
      if LookupFails(w, t) {
        return None;
      }
      assert forall j :: 0 <= j < i + 1 ==> !LookupFails(w, templates[j]);
      assert TName(t, i) == names[i];
      assert forall j :: 0 <= j < |names| && j != i ==> names[j] != names[i];
      SameStored(w, uid, policy, t, i, existing, Values(existing), before);
      var merged := MergeTemplate(w, uid, policy, t, i, Bucket(events, TName(t, i)), existing);
      details := details + [merged];
      done := done + [merged.Value()];
      taken := taken + {names[i]};
      AllDetailsSnoc(w, uid, policy, templates, before, i);
    }
    all := Some(details);
    assert templates[..|templates|] == templates;
    assert Values(details) == done;
  }

  /** getDetails, for unique template names: None when listing the events or reading a template object fails. */
  method GetDetails(w: World, uid: string, policy: string, templates: seq<Template>, existing: seq<DetailsPerTemplate>)
    returns (all: Option<seq<DetailsPerTemplate>>)
    requires Distinct(TNames(templates))
    modifies existing
    ensures all.None? <==> !w.listOk || exists i :: 0 <= i < |templates| && LookupFails(w, templates[i])
    ensures all.Some? ==> Values(all.value) == AllDetails(w, uid, policy, templates, old(Values(existing)))
  {
    hide Distinct, AllDetails, EventsFor, LookupFails, Bucket;
    var events := GetEventsInCluster(w, uid);
    if events.None? {
      return None;
    }
    all := CollectDetails(w, uid, policy, templates, events.value, existing);
  }
}
