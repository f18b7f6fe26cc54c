/** The status of a whole policy, how often it can change, and what an emitted event does to it. */
module StatusLaws {
  import opened Text
  import opened EventCodec
  import opened History
  import opened HistoryLaws
  import opened HistoryStability
  import opened StatusSync

  // ---------------------------------------------------------------- overall compliance

  /** One violation decides; a pending template hides compliance; an unknown one leaves the old state. */
  function Overall(details: seq<Details>, before: Compliance): Compliance {
    if exists i :: 0 <= i < |details| && details[i].compliance == NonCompliant then NonCompliant
    else if exists i :: 0 <= i < |details| && details[i].compliance == Pending then Pending
    else if exists i :: 0 <= i < |details| && details[i].compliance == Unknown then before
    else Compliant
  }

  /** The loop of updateStatuses over the templates. */
  method OverallCompliance(details: seq<Details>, before: Compliance) returns (state: Compliance)
    ensures state == Overall(details, before)
  {
    state := before;
    var isCompliant := true;
    for i := 0 to |details|
      invariant forall j :: 0 <= j < i ==> details[j].compliance != NonCompliant
      invariant isCompliant <==> forall j :: 0 <= j < i ==> details[j].compliance == Compliant
      invariant if exists j :: 0 <= j < i && details[j].compliance == Pending then state == Pending else state == before
    {
      match details[i].compliance {
        case NonCompliant =>
          return NonCompliant;
        case Pending =>
          state := Pending;
          isCompliant := false;
        case Compliant =>
        case Unknown =>
          isCompliant := false;
      }
    }
    if isCompliant {
      state := Compliant;
    }
  }

  /** The status that a status-sync reconcile computes for the managed policy. */
  function Recompute(w: World, uid: string, policy: string, templates: seq<Template>, status: Status): Status {
    var details := AllDetails(w, uid, policy, templates, status.details);
    Status(details, Overall(details, status.compliance))
  }

  predicate NormalStatus(status: Status) {
    forall i :: 0 <= i < |status.details| ==> AllNormal(status.details[i].history)
  }

  lemma {:induction false} FindOwn(details: seq<Details>, names: seq<string>, i: nat)
    requires |details| == |names| && Distinct(names) && i < |names|
    requires forall k :: 0 <= k < |names| ==> details[k].name == names[k]
    ensures FindDetails(details, names[i]) == Some(details[i])
  {
    if i > 0 {
      FindOwn(details[1..], names[1..], i - 1);
    }
  }

  lemma {:induction false} FindMember(details: seq<Details>, tName: string)
    ensures
      var found := FindDetails(details, tName);
      found.Some? ==> found.value.name == tName && found.value in details
  {
    if details != [] && details[0].name != tName {
      FindMember(details[1..], tName);
    }
  }

  lemma {:induction false} DetailsNamed(
    w: World, uid: string, policy: string, templates: seq<Template>, existing: seq<Details>)
    ensures
      var all := AllDetails(w, uid, policy, templates, existing);
      forall i :: 0 <= i < |all| ==> all[i].name == TNames(templates)[i]
  {
    var all := AllDetails(w, uid, policy, templates, existing);
    forall i | 0 <= i < |all| ensures all[i].name == TNames(templates)[i] {
      AllDetailsAt(w, uid, policy, templates, existing, i);
      FindMember(existing, TName(templates[i], i));
    }
  }

  /** Merging a template's own details again, with the sources it had. */
  function Again(sources: seq<Entry>, d: Details): Details {
    MergedDetails(sources, Some(d), d.name)
  }

  lemma MergedDetailsConverge(sources: seq<Entry>, d: Details)
    ensures
      var thrice := Again(sources, Again(sources, Again(sources, d)));
      Again(sources, thrice) == thrice
    ensures AllNormal(d.history) ==>
      var twice := Again(sources, Again(sources, d));
      Again(sources, twice) == twice
  {
    hide Merge;
    var once := Again(sources, d);
    var twice := Again(sources, once);
    var thrice := Again(sources, twice);
    MergeConvergesAlways(sources, d.history);
    assert Again(sources, thrice).history == thrice.history;
    if AllNormal(d.history) { MergeConverges(sources, d.history); }
  }

  /** One template's details after another pass over a status that already has an entry for it. */
  lemma NextDetails(
    w: World, uid: string, policy: string, templates: seq<Template>, existing: seq<Details>, i: nat)
    requires Distinct(TNames(templates)) && i < |templates|
    ensures
      var once := AllDetails(w, uid, policy, templates, existing);
      var twice := AllDetails(w, uid, policy, templates, once);
      var t := templates[i];
      var live := Lookup(w, t);
      twice[i] ==
      if live.Some? && !OwnedByPolicy(live.value, policy) then once[i]
      else Again(SourcesFor(w, uid, policy, t, i), once[i])
  {
    hide MergedDetails, SourcesFor, AllDetails;
    var once := AllDetails(w, uid, policy, templates, existing);
    AllDetailsAt(w, uid, policy, templates, existing, i);
    AllDetailsAt(w, uid, policy, templates, once, i);
    DetailsNamed(w, uid, policy, templates, existing);
    FindOwn(once, TNames(templates), i);
  }

  /** The first pass over any stored status merges into what was stored for the template, or into nothing. */
  lemma FirstDetails(
    w: World, uid: string, policy: string, templates: seq<Template>, existing: seq<Details>, i: nat)
    returns (base: Details)
    requires i < |templates|
    ensures AllDetails(w, uid, policy, templates, existing)[i]
         == Again(SourcesFor(w, uid, policy, templates[i], i), base)
    ensures (forall k :: 0 <= k < |existing| ==> AllNormal(existing[k].history)) ==> AllNormal(base.history)
  {
    hide SourcesFor, AllDetails, Merge;
    var tName := TName(templates[i], i);
    var stored := StoredFor(w, policy, templates[i], i, existing);
    base := if stored.Some? then stored.value else Details(tName, Unknown, []);
    AllDetailsAt(w, uid, policy, templates, existing, i);
    FindMember(existing, tName);
  }

  lemma DetailsConverge(w: World, uid: string, policy: string, templates: seq<Template>, existing: seq<Details>)
    requires Distinct(TNames(templates))
    ensures
      var once := AllDetails(w, uid, policy, templates, existing);
      var twice := AllDetails(w, uid, policy, templates, once);
      var thrice := AllDetails(w, uid, policy, templates, twice);
      && AllDetails(w, uid, policy, templates, thrice) == thrice
      && ((forall k :: 0 <= k < |existing| ==> AllNormal(existing[k].history)) ==> thrice == twice)
  {
    hide SourcesFor, AllDetails, Again;
    var once := AllDetails(w, uid, policy, templates, existing);
    var twice := AllDetails(w, uid, policy, templates, once);
    var thrice := AllDetails(w, uid, policy, templates, twice);
    var after := AllDetails(w, uid, policy, templates, thrice);
    forall i | 0 <= i < |templates|
      ensures after[i] == thrice[i]
      ensures (forall k :: 0 <= k < |existing| ==> AllNormal(existing[k].history)) ==> thrice[i] == twice[i]
    {
      var base := FirstDetails(w, uid, policy, templates, existing, i);
      MergedDetailsConverge(SourcesFor(w, uid, policy, templates[i], i), base);
      NextDetails(w, uid, policy, templates, existing, i);
      NextDetails(w, uid, policy, templates, once, i);
      NextDetails(w, uid, policy, templates, twice, i);
    }
  }

  /** With the world and the templates unchanged, a third reconcile finds nothing left to update. */
  lemma StatusConverges(w: World, uid: string, policy: string, templates: seq<Template>, status: Status)
    requires Distinct(TNames(templates))
    ensures
      var once := Recompute(w, uid, policy, templates, status);
      var twice := Recompute(w, uid, policy, templates, once);
      var thrice := Recompute(w, uid, policy, templates, twice);
      && Recompute(w, uid, policy, templates, thrice) == thrice
      && (NormalStatus(status) ==> thrice == twice)
  {
    hide AllDetails;
    DetailsConverge(w, uid, policy, templates, status.details);
  }

  /** The API server keeps whole seconds in the timestamps of events. */
  predicate ServedEvents(log: seq<Event>) {
    forall i :: 0 <= i < |log| ==> log[i].lastTimestamp % SECOND == 0
  }

  lemma {:induction false} ClusterEventsAreNormal(log: seq<Event>, uid: string, tName: string)
    requires ServedEvents(log)
    ensures AllNormal(EventsFor(log, uid, tName))
  {
    hide ConcernsTemplate, RecordedMessage, ParseTimestamp;
    if log != [] {
      ClusterEventsAreNormal(log[..|log| - 1], uid, tName);
      assert log[|log| - 1].lastTimestamp % SECOND == 0;
    }
  }

  lemma {:induction false} TemplateEventsAreNormal(raw: seq<RawHistory>, policy: string)
    ensures AllNormal(TemplateEvents(raw, policy))
  {
    hide TrimSpace, ParseTimestamp, EventName, UnixNano;
    if raw != [] {
      TemplateEventsAreNormal(raw[..|raw| - 1], policy);
      var last := raw[|raw| - 1];
      if last.Reported? && last.time.Some? {
        EventNameRoundTrip(policy, UnixNano(last.time.value));
      }
    }
  }

  /** Everything getDetails merges has a time that survives being stored: the laws of merging apply to it. */
  lemma SourcesAreNormal(w: World, uid: string, policy: string, t: Template, i: nat)
    requires ServedEvents(w.log)
    ensures AllNormal(SourcesFor(w, uid, policy, t, i))
  {
    hide EventsFor, TemplateEvents, OwnedByPolicy, TName, Normal;
    var live := Lookup(w, t);
    ClusterEventsAreNormal(w.log, uid, TName(t, i));
    if live.Some? { TemplateEventsAreNormal(live.value.history, policy); }
  }

  // ---------------------------------------------------------------- isolation

  /**
   * An object that belongs to another policy leaves no trace: neither its own history nor anything stored
   * reaches the details, which hold the merged cluster events alone.
   */
  lemma ForeignObjectContributesNothing(
    w: World, uid: string, policy: string, templates: seq<Template>, i: nat, existing: seq<Details>)
    requires i < |templates| && Lookup(w, templates[i]).Some?
    requires !OwnedByPolicy(Lookup(w, templates[i]).value, policy)
    ensures
      var events := EventsFor(w.log, uid, TName(templates[i], i));
      var d := AllDetails(w, uid, policy, templates, existing)[i];
      && d.history == Merge(events, [])
      && (d.compliance == Unknown <==> events == [])
      && Names(d.history) <= Names(events)
  {
    var tName := TName(templates[i], i);
    var events := EventsFor(w.log, uid, tName);
    AllDetailsAt(w, uid, policy, templates, existing, i);
    assert SourcesFor(w, uid, policy, templates[i], i) == events;
    MergeNames(events);
  }

  lemma MergeNames(events: seq<Entry>)
    ensures Names(Merge(events, [])) <= Names(events)
    ensures Merge(events, []) == [] <==> events == []
  {
    var timeline := Timeline(events, []);
    TimelineIsComplete(events, []);
    TakeFreshSubsequence(None, timeline, MAX_HISTORY);
    SubsequenceNames(Dedup(timeline), timeline);
    TruncateAllByName(Dedup(timeline), {});
    HistoryIsOrdered(events, []);
    if events != [] { assert events[0].name in Names(events); }
    if timeline != [] { assert timeline[0].name in Names(timeline); }
  }
}
