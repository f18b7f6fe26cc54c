/** From an event that template-sync emits to the status that keeps it from emitting the event again. */
module Delivery {
  import opened Text
  import opened EventCodec
  import opened History
  import opened HistoryLaws
  import opened HistoryStability
  import opened StatusSync
  import opened StatusLaws

  /** SendEvent, as the API server stores it: whole seconds in the timestamp, nanoseconds in the name. */
  function SentEvent(policy: string, uid: string, reason: string, c: Compliance, msg: string, now: int): Event {
    Event(EventName(policy, now), uid, reason, ComplianceMessage(c, msg), now / SECOND * SECOND)
  }

  function LatestStatusMessage(details: seq<Details>, tIndex: nat): string {
    if tIndex >= |details| || details[tIndex].history == [] then "" else details[tIndex].history[0].message
  }

  /** The newest message of the template contains the one to be sent, at whatever place. */
  predicate AlreadyReported(details: seq<Details>, tIndex: nat, c: Compliance, msg: string) {
    Contains(LatestStatusMessage(details, tIndex), ComplianceMessage(c, msg))
  }

  /** The events after template-sync reported something, with the refreshed status in `details`. */
  function Emitted(
    log: seq<Event>, details: seq<Details>, policy: string, uid: string, ns: string,
    tIndex: nat, tName: string, c: Compliance, msg: string, now: int): seq<Event>
  {
    if AlreadyReported(details, tIndex, c, msg) then log
    else log + [SentEvent(policy, uid, EventReason(ns, tName), c, msg, now)]
  }

  /** emitTemplateEvent; refreshing the policy or creating the event may fail. */
  method EmitTemplateEvent(
    log: seq<Event>, details: seq<Details>, policy: string, uid: string, ns: string,
    tIndex: nat, tName: string, c: Compliance, msg: string, now: int, refreshOk: bool, createOk: bool)
    returns (after: seq<Event>, ok: bool)
    ensures ok ==> after == Emitted(log, details, policy, uid, ns, tIndex, tName, c, msg, now)
    ensures !ok ==> after == log
    ensures ok <==> refreshOk && (createOk || AlreadyReported(details, tIndex, c, msg))
  {
    if !refreshOk {
      return log, false;
    }
    if AlreadyReported(details, tIndex, c, msg) {
      return log, true;
    }
    if !createOk {
      return log, false;
    }
    after, ok := log + [SentEvent(policy, uid, EventReason(ns, tName), c, msg, now)], true;
  }

  // ---------------------------------------------------------------- what silences a report

  lemma ContainsAt(s: string, i: nat, sub: string)
    requires i <= |s| && sub <= s[i..]
    ensures Contains(s, sub)
  {
    assert i <= |s| - |sub|;
  }

  lemma ContainsInRest(front: string, rest: string, sub: string)
    requires Contains(rest, sub)
    ensures Contains(front + rest, sub)
  {
    var i :| 0 <= i <= |rest| - |sub| && sub <= rest[i..];
    assert (front + rest)[|front| + i..] == rest[i..];
    ContainsAt(front + rest, |front| + i, sub);
  }

  /** Inside a compliance prefix no other one starts, but for the compliant one in the non-compliant one. */
  lemma PrefixInPrefix(c: Compliance, newest: Compliance, i: nat)
    requires c != Unknown && newest != Unknown && i < |ComplianceText(newest)| + 1
    requires (ComplianceText(newest) + ";")[i] == ComplianceText(c)[0]
    ensures (i == 0 && c == newest) || (i == 3 && c == Compliant && newest == NonCompliant)
  {
    assert ComplianceText(c)[0] == match c case Compliant => 'C' case NonCompliant => 'N' case _ => 'P';
    var text := ComplianceText(newest) + ";";
    match newest
    case Compliant => assert text == "Compliant;";
    case NonCompliant => assert text == "NonCompliant;";
    case Pending => assert text == "Pending;";
  }

  lemma SplitPrefix(a: string, x: string, b: string, y: string)
    requires |a| == |b|
    ensures a + x <= b + y <==> a == b && x <= y
  {
    if a + x <= b + y {
      assert a == (a + x)[..|a|] == (b + y)[..|a|] == b;
      assert x == (a + x)[|a|..] && y == (b + y)[|a|..];
      assert (a + x)[|a|..] <= (b + y)[|a|..];
    }
  }

  function Prefix(c: Compliance): string {
    ComplianceText(c) + ";"
  }

  lemma OccursAtIff(c: Compliance, msg: string, newest: Compliance, rest: string, i: nat)
    requires c != Unknown && newest != Unknown && i < |Prefix(newest)|
    ensures
      ComplianceMessage(c, msg) <= (Prefix(newest) + rest)[i..] <==>
      " " + msg <= rest && ((i == 0 && c == newest) || (i == 3 && c == Compliant && newest == NonCompliant))
  {
    var front, sent := Prefix(newest), ComplianceMessage(c, msg);
    assert sent == Prefix(c) + (" " + msg);
    assert (front + rest)[i..] == front[i..] + rest;
    assert NonCompliant == newest ==> front[3..] == Prefix(Compliant);
    assert front[0..] == front;
    if (i == 0 && c == newest) || (i == 3 && c == Compliant && newest == NonCompliant) {
      hide ComplianceText, ComplianceMessage;
      SplitPrefix(Prefix(c), " " + msg, front[i..], rest);
    } else {
      assert (front + rest)[i..][0] == front[i];
      assert sent[0] == ComplianceText(c)[0];
      if front[i] == sent[0] { PrefixInPrefix(c, newest, i); }
    }
  }

  lemma OccursIff(c: Compliance, msg: string, newest: Compliance, rest: string)
    requires c != Unknown && newest != Unknown
    ensures
      Contains(Prefix(newest) + rest, ComplianceMessage(c, msg)) <==>
      || (" " + msg <= rest && (c == newest || (c == Compliant && newest == NonCompliant)))
      || Contains(rest, ComplianceMessage(c, msg))
  {
    var front, sent := Prefix(newest), ComplianceMessage(c, msg);
    var s := front + rest;
    assert newest == NonCompliant ==> |front| > 3;
    assert |front| > 0;
    hide ComplianceText, ComplianceMessage, Prefix;
    if Contains(rest, sent) { ContainsInRest(front, rest, sent); }
    if " " + msg <= rest && c == newest {
      OccursAtIff(c, msg, newest, rest, 0);
      ContainsAt(s, 0, sent);
    } else if " " + msg <= rest && c == Compliant && newest == NonCompliant {
      OccursAtIff(c, msg, newest, rest, 3);
      ContainsAt(s, 3, sent);
    }
    if Contains(s, sent) {
      var i :| 0 <= i <= |s| - |sent| && sent <= s[i..];
      if i < |front| {
        OccursAtIff(c, msg, newest, rest, i);
      } else {
        assert s[i..] == rest[i - |front|..];
        ContainsAt(rest, i - |front|, sent);
      }
    }
  }

  /**
   * What silences a report. The newest entry, of compliance `newest`, does so exactly when its text begins with the
   * text of the report and the two compliances agree, or the report is compliant and the entry non-compliant, or
   * the whole message of the report is quoted further on.
   */
  lemma SilencedIff(details: seq<Details>, i: nat, c: Compliance, msg: string, newest: Compliance, rest: string)
    requires c != Unknown && newest != Unknown
    requires LatestStatusMessage(details, i) == Prefix(newest) + rest
    ensures
      AlreadyReported(details, i, c, msg) <==>
      || (" " + msg <= rest && (c == newest || (c == Compliant && newest == NonCompliant)))
      || Contains(rest, ComplianceMessage(c, msg))
  {
    OccursIff(c, msg, newest, rest);
  }

  /** A silenced report is the newest entry's own exactly when the entry begins with it. */
  lemma SilencedByOwnIff(details: seq<Details>, i: nat, c: Compliance, msg: string, newest: Compliance, rest: string)
    requires c != Unknown && newest != Unknown && AlreadyReported(details, i, c, msg)
    requires LatestStatusMessage(details, i) == Prefix(newest) + rest
    ensures
      var own := c == newest && " " + msg <= rest;
      && (own <==> ComplianceMessage(c, msg) <= LatestStatusMessage(details, i))
      && (c == newest <==> ParseCompliance(LatestStatusMessage(details, i)) == c)
  {
    var s := LatestStatusMessage(details, i);
    assert s[0..] == s;
    OccursAtIff(c, msg, newest, rest, 0);
    ParsesPrefix(newest, s);
  }

  /**
   * The exception happens: a violation that is followed by a compliant report of the same text keeps the report
   * from being sent, and the status stays non-compliant.
   */
  lemma ViolationSilencesCompliance(details: seq<Details>, i: nat, msg: string)
    requires LatestStatusMessage(details, i) == ComplianceMessage(NonCompliant, msg)
    ensures AlreadyReported(details, i, Compliant, msg)
    ensures ParseCompliance(LatestStatusMessage(details, i)) == NonCompliant
  {
    var s := LatestStatusMessage(details, i);
    assert s == Prefix(NonCompliant) + (" " + msg);
    SilencedIff(details, i, Compliant, msg, NonCompliant, " " + msg);
    ParsesPrefix(NonCompliant, s);
  }

  // ---------------------------------------------------------------- the newest event comes first

  lemma {:induction false} TimelineOrigin(sources: seq<Entry>, stored: seq<Entry>, x: Entry) returns (y: Entry)
    requires x in Timeline(sources, stored)
    ensures (y in sources || y in stored) && x == Recover(y)
  {
    hide SortNewestFirst, Recover;
    var all := sources + OldOnly(Names(sources), stored);
    SortMember(RecoverAll(all), x);
    var i :| 0 <= i < |all| && RecoverAll(all)[i] == x;
    y := all[i];
    OldOnlyNames(Names(sources), stored);
  }

  lemma {:induction false} SourceOnTimeline(sources: seq<Entry>, stored: seq<Entry>, k: nat)
    requires k < |sources|
    ensures Recover(sources[k]) in Timeline(sources, stored)
  {
    hide SortNewestFirst, Recover;
    var all := sources + OldOnly(Names(sources), stored);
    assert RecoverAll(all)[k] == Recover(sources[k]);
    SortMember(RecoverAll(all), Recover(sources[k]));
  }

  lemma {:induction false} NewestWins(a: seq<Entry>, e: Entry, b: seq<Entry>, stored: seq<Entry>)
    requires forall x :: x in a + b + stored ==> Recover(x).time < Recover(e).time
    ensures
      var merged := Merge(a + [e] + b, stored);
      merged != [] && merged[0] == Truncate(Recover(e))
  {
    hide Recover, Timeline, Merge, Truncate;
    var sources := a + [e] + b;
    HistoryIsOrdered(sources, stored);
    assert sources[|a|] == e;
    SourceOnTimeline(sources, stored, |a|);
    var first := Timeline(sources, stored)[0];
    var y := TimelineOrigin(sources, stored, first);
    assert y == e || y in a + b + stored;
  }

  lemma {:induction false} EventsForConcat(a: seq<Event>, b: seq<Event>, uid: string, tName: string)
    ensures EventsFor(a + b, uid, tName) == EventsFor(a, uid, tName) + EventsFor(b, uid, tName)
    decreases |b|
  {
    hide ConcernsTemplate, EntryOf;
    if b == [] {
      assert a + b == a;
    } else {
      var front := b[..|b| - 1];
      assert (a + b)[..|a + b| - 1] == a + front;
      EventsForConcat(a, front, uid, tName);
    }
  }

  /** The known events of a template other than the one just sent. */
  function OtherEvents(
    before: seq<Event>, after: seq<Event>, w: World, uid: string, policy: string, t: Template, i: nat,
    existing: seq<Details>): seq<Entry>
  {
    var stored := StoredFor(w, policy, t, i, existing);
    SourcesFor(w.(log := before + after), uid, policy, t, i) + if stored.Some? then stored.value.history else []
  }

  lemma EventsForInsert(before: seq<Event>, ev: Event, after: seq<Event>, uid: string, tName: string)
    requires ConcernsTemplate(ev, uid, tName)
    ensures
      var a, b := EventsFor(before, uid, tName), EventsFor(after, uid, tName);
      && EventsFor(before + [ev] + after, uid, tName) == a + [EntryOf(ev)] + b
      && EventsFor(before + after, uid, tName) == a + b
  {
    hide ConcernsTemplate, EntryOf;
    EventsForConcat(before + [ev], after, uid, tName);
    EventsForConcat(before, [ev], uid, tName);
    EventsForConcat(before, after, uid, tName);
    assert [ev][..0] == [];
    assert EventsFor([ev], uid, tName) == [EntryOf(ev)];
  }

  lemma SourcesWithEvent(
    before: seq<Event>, ev: Event, after: seq<Event>, w: World, uid: string, policy: string, t: Template, i: nat)
    returns (a: seq<Entry>, b: seq<Entry>)
    requires w.log == before + [ev] + after && ConcernsTemplate(ev, uid, TName(t, i))
    ensures SourcesFor(w, uid, policy, t, i) == a + [EntryOf(ev)] + b
    ensures SourcesFor(w.(log := before + after), uid, policy, t, i) == a + b
  {
    hide ConcernsTemplate, EntryOf, EventsFor, OwnedByPolicy, TemplateEvents, TName;
    var tName := TName(t, i);
    EventsForInsert(before, ev, after, uid, tName);
    var live := Lookup(w, t);
    var owned := live.Some? && OwnedByPolicy(live.value, policy);
    var own := if owned then TemplateEvents(live.value.history, policy) else [];
    a, b := EventsFor(before, uid, tName), EventsFor(after, uid, tName) + own;
    assert a + [EntryOf(ev)] + EventsFor(after, uid, tName) + own == a + [EntryOf(ev)] + b;
    assert a + EventsFor(after, uid, tName) + own == a + b;
  }

  /** A message whose event would be recorded without loss. */
  predicate NoTrailingSpace(s: string) {
    s == "" || !IsSpace(s[|s| - 1])
  }

  /**
   * Delivery: an event sent later than everything else known of its template becomes the first entry of the
   * template's history and decides its compliance, wherever the list of events puts it.
   */
  lemma SentEventIsDelivered(
    before: seq<Event>, after: seq<Event>, w: World, uid: string, policy: string, ns: string,
    templates: seq<Template>, i: nat, existing: seq<Details>, c: Compliance, msg: string, now: int)
    requires i < |templates| && c != Unknown && IsInt64(now)
    requires (forall ch :: ch in ns ==> IsNamespaceChar(ch)) && SurvivesReason(ns, TName(templates[i], i))
    requires w.log == before
                      + [SentEvent(policy, uid, EventReason(ns, TName(templates[i], i)), c, msg, now)]
                      + after
    requires forall x :: x in OtherEvents(before, after, w, uid, policy, templates[i], i, existing) ==>
      Recover(x).time < now
    ensures
      var d := AllDetails(w, uid, policy, templates, existing)[i];
      && d.compliance == c
      && d.history != []
      && d.history[0] == Entry(now / SECOND * SECOND, TrimRight(ComplianceMessage(c, msg)), EventName(policy, now))
  {
    hide SourcesFor, Merge, ParseCompliance, RecordedMessage, ParseTimestamp, TName, SurvivesReason, TemplateNameOf,
      EventName;
    var t := templates[i];
    var tName := TName(t, i);
    var ev := SentEvent(policy, uid, EventReason(ns, tName), c, msg, now);
    var stored := StoredFor(w, policy, t, i, existing);
    var history := if stored.Some? then stored.value.history else [];
    ReasonRoundTrip(ns, tName);
    EventNameRoundTrip(policy, now);
    ComplianceRoundTrip(c, msg);
    var a, b := SourcesWithEvent(before, ev, after, w, uid, policy, t, i);
    var e := EntryOf(ev);
    assert Recover(e) == e.(time := now);
    NewestWins(a, e, b, history);
    AllDetailsAt(w, uid, policy, templates, existing, i);
  }

  /** ... then silence: emitting it again sends nothing exactly when the message does not end in white space. */
  lemma DeliveredThenSilent(details: seq<Details>, i: nat, c: Compliance, msg: string)
    requires i < |details| && c != Unknown && details[i].history != []
    requires details[i].history[0].message == TrimRight(ComplianceMessage(c, msg))
    ensures AlreadyReported(details, i, c, msg) <==> NoTrailingSpace(ComplianceMessage(c, msg))
  {
    var message := ComplianceMessage(c, msg);
    TrimRightPrefix(message);
    ContainedInOwnPrefix(message, TrimRight(message));
  }

  /**
   * From one report to the next: once a report has been sent, whatever events came before it or are listed after
   * it, emitting it again against the status computed from them sends nothing exactly when its message does not
   * end in white space.
   */
  lemma EmittedThenSilent(
    log: seq<Event>, listed: seq<Event>, refreshed: seq<Details>, w: World, uid: string, policy: string, ns: string,
    templates: seq<Template>, i: nat, existing: seq<Details>, c: Compliance, msg: string, now: int, again: int)
    requires i < |templates| && c != Unknown && IsInt64(now)
    requires (forall ch :: ch in ns ==> IsNamespaceChar(ch)) && SurvivesReason(ns, TName(templates[i], i))
    requires !AlreadyReported(refreshed, i, c, msg)
    requires w.log == Emitted(log, refreshed, policy, uid, ns, i, TName(templates[i], i), c, msg, now) + listed
    requires forall x :: x in OtherEvents(log, listed, w, uid, policy, templates[i], i, existing) ==>
      Recover(x).time < now
    ensures
      var details := AllDetails(w, uid, policy, templates, existing);
      Emitted(w.log, details, policy, uid, ns, i, TName(templates[i], i), c, msg, again) == w.log <==>
      NoTrailingSpace(ComplianceMessage(c, msg))
  {
    hide TName, SurvivesReason, SentEvent, AllDetails, OtherEvents, AlreadyReported, NoTrailingSpace,
      ComplianceMessage, Recover;
    var details := AllDetails(w, uid, policy, templates, existing);
    SentEventIsDelivered(log, listed, w, uid, policy, ns, templates, i, existing, c, msg, now);
    DeliveredThenSilent(details, i, c, msg);
  }

  // ---------------------------------------------------------------- reports that miss their template

  lemma {:induction false} DigitsAreDigits(n: nat)
    ensures Digits(n) != "" && forall ch :: ch in Digits(n) ==> '0' <= ch <= '9'
  {
    if n >= 10 {
      DigitsAreDigits(n / 10);
      DigitsAreDigits(n % 10);
    }
  }

  lemma {:induction false} IndexNameSurvives(ns: string, i: nat)
    ensures SurvivesReason(ns, "template-" + Digits(i))
  {
    DigitsAreDigits(i);
    var name := "template-" + Digits(i);
    assert forall k :: 0 <= k < |name| ==> name[k] in "template-" || name[k] in Digits(i);
    assert forall k :: 0 <= k < |name| ==> IsNamespaceChar(name[k]) && name[k] != '\n';
    assert NamespaceRun(name) == |name|;
    assert name[0] == 't';
  }

  /**
   * Template-sync reports a dependency conflict or a missing name under the index of the template, and
   * status-sync looks under the object's own name: the report never reaches the template's details, so it is
   * sent again by every pass that sent it once.
   */
  lemma IndexReportIsNeverSeen(
    w: World, uid: string, policy: string, ns: string, templates: seq<Template>, i: nat, existing: seq<Details>,
    c: Compliance, msg: string, now: int)
    requires i < |templates| && templates[i].Decoded? && templates[i].name != "template-" + Digits(i)
    requires forall ch :: ch in ns ==> IsNamespaceChar(ch)
    ensures
      var ev := SentEvent(policy, uid, EventReason(ns, "template-" + Digits(i)), c, msg, now);
      var details := AllDetails(w, uid, policy, templates, existing);
      var later := AllDetails(w.(log := w.log + [ev]), uid, policy, templates, existing);
      && later[i] == details[i]
      && (AlreadyReported(later, i, c, msg) <==> AlreadyReported(details, i, c, msg))
  {
    hide MergedDetails, ComplianceMessage, TemplateNameOf, EventReason, Contains;
    var ev := SentEvent(policy, uid, EventReason(ns, "template-" + Digits(i)), c, msg, now);
    var w' := w.(log := w.log + [ev]);
    var tName := TName(templates[i], i);
    IndexNameSurvives(ns, i);
    ReasonRoundTrip(ns, "template-" + Digits(i));
    EventsForConcat(w.log, [ev], uid, tName);
    assert [ev][..0] == [];
    assert EventsFor([ev], uid, tName) == [];
    assert EventsFor(w'.log, uid, tName) == EventsFor(w.log, uid, tName);
    AllDetailsAt(w, uid, policy, templates, existing, i);
    AllDetailsAt(w', uid, policy, templates, existing, i);
  }

  lemma FirstEntryOrigin(
    w: World, uid: string, policy: string, templates: seq<Template>, i: nat, existing: seq<Details>) returns (y: Entry)
    requires i < |templates| && AllDetails(w, uid, policy, templates, existing)[i].history != []
    ensures y in OtherEvents(w.log, [], w, uid, policy, templates[i], i, existing)
    ensures AllDetails(w, uid, policy, templates, existing)[i].history[0] == Truncate(Recover(y))
  {
    hide Recover, Timeline, Truncate, SourcesFor, StoredFor;
    var t := templates[i];
    var stored := StoredFor(w, policy, t, i, existing);
    var sources, history := SourcesFor(w, uid, policy, t, i), if stored.Some? then stored.value.history else [];
    AllDetailsAt(w, uid, policy, templates, existing, i);
    HistoryIsOrdered(sources, history);
    y := TimelineOrigin(sources, history, Timeline(sources, history)[0]);
    assert w.log + [] == w.log;
    assert w.(log := w.log + []) == w;
  }

  /** A report under the index name that is newer than all else arrives exactly when the template has that name. */
  lemma IndexReportArrivesIff(
    w: World, uid: string, policy: string, ns: string, templates: seq<Template>, i: nat, existing: seq<Details>,
    c: Compliance, msg: string, now: int)
    requires i < |templates| && c != Unknown && IsInt64(now) && forall ch :: ch in ns ==> IsNamespaceChar(ch)
    requires forall x :: x in OtherEvents(w.log, [], w, uid, policy, templates[i], i, existing) ==>
      Recover(x).time < now
    ensures
      var ev := SentEvent(policy, uid, EventReason(ns, "template-" + Digits(i)), c, msg, now);
      var d := AllDetails(w.(log := w.log + [ev]), uid, policy, templates, existing)[i];
      d.history != [] && d.history[0].name == EventName(policy, now) <==>
      TName(templates[i], i) == "template-" + Digits(i)
  {
    hide AllDetails, OtherEvents, SurvivesReason, EventReason, ComplianceMessage, ParseTimestamp, EventName;
    var ev := SentEvent(policy, uid, EventReason(ns, "template-" + Digits(i)), c, msg, now);
    var w' := w.(log := w.log + [ev]);
    if TName(templates[i], i) == "template-" + Digits(i) {
      IndexNameSurvives(ns, i);
      assert w.log + [ev] == w.log + [ev] + [];
      SameOthers(w, w', uid, policy, templates[i], i, existing);
      SentEventIsDelivered(w.log, [], w', uid, policy, ns, templates, i, existing, c, msg, now);
    } else {
      IndexReportIsNeverSeen(w, uid, policy, ns, templates, i, existing, c, msg, now);
      if AllDetails(w, uid, policy, templates, existing)[i].history != [] {
        var y := FirstEntryOrigin(w, uid, policy, templates, i, existing);
        EventNameRoundTrip(policy, now);
        assert Recover(y).time < now;
      }
    }
  }

  lemma SameOthers(w: World, w': World, uid: string, policy: string, t: Template, i: nat, existing: seq<Details>)
    requires w' == w.(log := w'.log)
    ensures OtherEvents(w.log, [], w, uid, policy, t, i, existing) ==
      OtherEvents(w.log, [], w', uid, policy, t, i, existing)
  {
    assert w.(log := w.log + []) == w'.(log := w.log + []);
  }
}
