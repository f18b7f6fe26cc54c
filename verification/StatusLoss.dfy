/** When the status of a policy outlives the expiry of events. */
module StatusLoss {
  import opened Text
  import opened EventCodec
  import opened History
  import opened HistoryLaws
  import opened HistoryStability
  import opened HistoryLoss
  import opened StatusSync
  import opened StatusLaws

  function LogWithout(log: seq<Event>, gone: set<string>): seq<Event> {
    if log == [] then []
    else
      var last := log[|log| - 1];
      LogWithout(log[..|log| - 1], gone) + if last.name in gone then [] else [last]
  }

  /** The events of these names are deleted, by somebody or by the API server when their time is up. */
  function Expired(w: World, gone: set<string>): World {
    w.(log := LogWithout(w.log, gone))
  }

  lemma {:induction false} EventsForExpired(log: seq<Event>, gone: set<string>, uid: string, tName: string)
    ensures EventsFor(LogWithout(log, gone), uid, tName) == Without(EventsFor(log, uid, tName), gone)
  {
    hide ConcernsTemplate;
    if log != [] {
      var front, last := log[..|log| - 1], log[|log| - 1];
      EventsForExpired(front, gone, uid, tName);
      var s, more := EventsFor(front, uid, tName), if ConcernsTemplate(last, uid, tName) then [EntryOf(last)] else [];
      var fewer := LogWithout(front, gone);
      WithoutConcat(s, more, gone);
      if last.name in gone {
        assert LogWithout(log, gone) == fewer;
      } else {
        assert LogWithout(log, gone) == fewer + [last];
        assert (fewer + [last])[..|fewer|] == fewer;
        assert EventsFor(fewer + [last], uid, tName) == EventsFor(fewer, uid, tName) + more;
      }
    }
  }

  lemma WithoutConcat(s: seq<Entry>, more: seq<Entry>, gone: set<string>)
    requires |more| <= 1
    ensures Without(s + more, gone) == Without(s, gone) + if more != [] && more[0].name in gone then [] else more
  {
    var keep := Names(s + more) - gone;
    ConcatNames(s, more);
    ByNameConcat(s, more, keep);
    ByNameAgree(s, keep, Names(s) - gone);
    if more != [] {
      assert more[0].name in Names(more);
      assert more[1..] == [];
      assert ByName(more[1..], keep) == [];
    }
  }

  // ---------------------------------------------------------------- one template

  /** The object of the template belongs to another policy. */
  predicate IsForeign(w: World, policy: string, t: Template) {
    Lookup(w, t).Some? && !OwnedByPolicy(Lookup(w, t).value, policy)
  }

  /** What the template object reports itself. */
  function OwnEvents(w: World, policy: string, t: Template): seq<Entry> {
    if Lookup(w, t).Some? && OwnedByPolicy(Lookup(w, t).value, policy)
    then TemplateEvents(Lookup(w, t).value.history, policy) else []
  }

  /** The stored history that is merged again: none for the object of another policy. */
  function StoredHistory(w: World, policy: string, t: Template, d: Details): seq<Entry> {
    if IsForeign(w, policy, t) then [] else d.history
  }

  ghost predicate ExpiredApart(
    w: World, gone: set<string>, uid: string, policy: string, t: Template, i: nat, d: Details)
  {
    SetApart(EventsFor(w.log, uid, TName(t, i)), OwnEvents(w, policy, t), gone, StoredHistory(w, policy, t, d))
  }

  /**
   * The expiry shows in the details of template i: an event that is still there and was dropped for resembling one
   * that is not comes up, or, without a stored history, an entry goes with its event.
   */
  predicate ExpiryShows(w: World, gone: set<string>, uid: string, policy: string, t: Template, i: nat, d: Details) {
    var events, own := EventsFor(w.log, uid, TName(t, i)), OwnEvents(w, policy, t);
    var left := Names(Without(events, gone) + own);
    || HasBridge(None, None, Timeline(events + own, StoredHistory(w, policy, t, d)), MAX_HISTORY, left)
    || (IsForeign(w, policy, t) && !(Names(d.history) <= left))
  }

  /** Details that merging reproduces, from the sources given. */
  lemma DetailsStayIff(
    events: seq<Entry>, own: seq<Entry>, gone: set<string>, d: Details, foreign: bool)
    requires
      var stored := if foreign then [] else d.history;
      && AllNormal(events + own) && AllNormal(d.history) && SetApart(events, own, gone, stored)
      && (foreign ==> own == [])
      && MergedDetails(events + own, if foreign then None else Some(d), d.name) == d
    ensures
      var stored := if foreign then [] else d.history;
      var left := Without(events, gone) + own;
      MergedDetails(left, if foreign then None else Some(d), d.name) == d <==>
      && !HasBridge(None, None, Timeline(events + own, stored), MAX_HISTORY, Names(left))
      && (foreign ==> Names(d.history) <= Names(left))
  {
    hide Merge, HasBridge, SetApart, Without, Timeline, ParseCompliance, AllNormal;
    var left := Without(events, gone) + own;
    if foreign {
      assert events + own == events && left == Without(events, gone);
      LossWithoutStoreIff(events, gone);
    } else {
      LossKeepsIffNoBridge(events, own, gone, d.history);
    }
  }

  /** The details of one template survive the expiry exactly when it does not show in them. */
  lemma TemplateOutlivesExpiryIff(
    w: World, gone: set<string>, uid: string, policy: string, t: Template, i: nat, existing: seq<Details>, d: Details)
    requires ServedEvents(w.log) && ExpiredApart(w, gone, uid, policy, t, i, d)
    requires FindDetails(existing, TName(t, i)) == Some(d) && d.name == TName(t, i)
    requires TemplateDetails(w, uid, policy, t, i, existing) == d
    ensures
      TemplateDetails(Expired(w, gone), uid, policy, t, i, existing) == d <==>
      !ExpiryShows(w, gone, uid, policy, t, i, d)
  {
    hide EventsFor, LogWithout, TName, OwnedByPolicy, TemplateEvents, FindDetails, Without, HasBridge, Timeline;
    hide MergedDetails, ServedEvents, SetApart, AllNormal;
    var events, own := EventsFor(w.log, uid, TName(t, i)), OwnEvents(w, policy, t);
    EventsForExpired(w.log, gone, uid, TName(t, i));
    SourcesAreNormal(w, uid, policy, t, i);
    assert SourcesFor(w, uid, policy, t, i) == events + own;
    assert SourcesFor(Expired(w, gone), uid, policy, t, i) == Without(events, gone) + own;
    MergedIsNormal(events + own, StoredFor(w, policy, t, i, existing), TName(t, i));
    DetailsStayIff(events, own, gone, d, IsForeign(w, policy, t));
  }

  lemma MergedIsNormal(events: seq<Entry>, stored: Option<Details>, tName: string)
    ensures AllNormal(MergedDetails(events, stored, tName).history)
  {
    MergeIsNormal(events, if stored.Some? then stored.value.history else []);
  }

  // ---------------------------------------------------------------- the whole status

  /** The events expire without a trace in the status. */
  predicate ExpiryHides(
    w: World, gone: set<string>, uid: string, policy: string, templates: seq<Template>, status: Status)
  {
    && |status.details| == |templates|
    && forall i :: 0 <= i < |templates| ==> !ExpiryShows(w, gone, uid, policy, templates[i], i, status.details[i])
  }

  ghost predicate AllApart(
    w: World, gone: set<string>, uid: string, policy: string, templates: seq<Template>, status: Status)
  {
    && ServedEvents(w.log) && |status.details| == |templates|
    && forall i :: 0 <= i < |templates| ==> ExpiredApart(w, gone, uid, policy, templates[i], i, status.details[i])
  }

  /** A status that is up to date stays so exactly when the expiry shows in none of its templates. */
  lemma StatusOutlivesExpiryIff(
    w: World, gone: set<string>, uid: string, policy: string, templates: seq<Template>, status: Status)
    requires Distinct(TNames(templates)) && Recompute(w, uid, policy, templates, status) == status
    requires AllApart(w, gone, uid, policy, templates, status)
    ensures
      Recompute(Expired(w, gone), uid, policy, templates, status) == status <==>
      ExpiryHides(w, gone, uid, policy, templates, status)
  {
    hide AllDetails, TemplateDetails, Expired, ExpiryShows, ExpiredApart, ServedEvents, FindDetails, TName, Overall;
    var later, details := Expired(w, gone), status.details;
    var next := AllDetails(later, uid, policy, templates, details);
    DetailsNamed(w, uid, policy, templates, details);
    forall i | 0 <= i < |templates|
      ensures next[i] == details[i] <==> !ExpiryShows(w, gone, uid, policy, templates[i], i, details[i])
    {
      FindOwn(details, TNames(templates), i);
      AllDetailsAt(w, uid, policy, templates, details, i);
      AllDetailsAt(later, uid, policy, templates, details, i);
      TemplateOutlivesExpiryIff(w, gone, uid, policy, templates[i], i, details, details[i]);
    }
    assert next == details <==> forall i :: 0 <= i < |templates| ==> next[i] == details[i];
  }
}
