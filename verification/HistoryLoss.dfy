/** What becomes of a stored history when some of the events it was merged from expire. */
module HistoryLoss {
  import opened Text
  import opened EventCodec
  import opened History
  import opened HistoryLaws
  import opened HistoryStability

  /** The entries whose events have not expired. */
  function Without(s: seq<Entry>, gone: set<string>): seq<Entry> {
    ByName(s, Names(s) - gone)
  }

  /**
   * An expired event shares its name with no other event, and its time or name with no known entry that differs
   * from it. The event may have a twin: the same entry, reported by the template object itself.
   */
  ghost predicate SetApart(events: seq<Entry>, own: seq<Entry>, gone: set<string>, stored: seq<Entry>) {
    && (forall n :: n in gone ==> Once(events, n))
    && (forall x, y :: x in RecoverAll(events) && x.name in gone && y in Timeline(events + own, stored) ==>
          x.time == y.time || x.name == y.name ==> x == y)
  }

  // ---------------------------------------------------------------- copies do not matter

  /** The same entries, or copies of one entry in both. */
  ghost predicate Alike(a: seq<Entry>, b: seq<Entry>) {
    a == b || (a != [] && b != [] && forall x, y :: x in a + b && y in a + b ==> x == y)
  }

  ghost predicate AlikeAtAllTimes(a: seq<Entry>, b: seq<Entry>) {
    Sorted(a) && Sorted(b) && forall t :: Alike(AtTime(a, t), AtTime(b, t))
  }

  lemma FirstAtTime(a: seq<Entry>)
    requires a != []
    ensures AtTime(a, a[0].time) != [] && AtTime(a, a[0].time)[0] == a[0]
    ensures AtTime(a, a[0].time)[1..] == AtTime(a[1..], a[0].time)
    ensures forall t :: t != a[0].time ==> AtTime(a, t) == AtTime(a[1..], t)
  {
  }

  /** In a sorted sequence, a second entry of the first time comes second. */
  lemma SecondAtTime(a: seq<Entry>)
    requires Sorted(a) && a != [] && |AtTime(a, a[0].time)| > 1
    ensures |a| > 1 && a[1].time == a[0].time && AtTime(a, a[0].time)[1] == a[1]
  {
    var t := a[0].time;
    FirstAtTime(a);
    var tail := a[1..];
    assert AtTime(tail, t) != [];
    var e := AtTime(tail, t)[0];
    AtTimeHolds(tail, t, e);
    assert tail[0].time == t;
    FirstAtTime(tail);
  }

  lemma {:induction false} AtTimeHolds(a: seq<Entry>, t: int, e: Entry)
    ensures e in AtTime(a, t) <==> e in a && e.time == t
  {
    if a != [] {
      AtTimeHolds(a[1..], t, e);
      assert a == [a[0]] + a[1..];
    }
  }

  /** A copy right after its original is never fresh. */
  lemma SkipCopy(previous: Option<Entry>, a: seq<Entry>, room: nat)
    requires |a| > 1 && a[1] == a[0]
    ensures TakeFresh(previous, a, room) == TakeFresh(previous, a[1..], room)
  {
    if room > 0 {
      var tail := a[1..];
      assert !IsFresh(Some(a[0]), a[1]);
      assert tail[0] == a[0] && tail[1..] == a[2..];
      if room > 1 {
        assert TakeFresh(Some(a[0]), tail, room - 1) == TakeFresh(Some(a[0]), tail[1..], room - 1);
      } else {
        assert TakeFresh(Some(a[0]), tail, 0) == [] == TakeFresh(Some(a[0]), tail[1..], 0);
      }
      assert TakeFresh(Some(a[0]), tail, room) == TakeFresh(Some(a[0]), tail[1..], room);
    }
  }

  lemma AlikeHeads(a: seq<Entry>, b: seq<Entry>)
    requires AlikeAtAllTimes(a, b)
    ensures a == [] <==> b == []
    ensures a != [] ==> a[0] == b[0]
  {
    if a != [] {
      FirstAtTime(a);
      assert Alike(AtTime(a, a[0].time), AtTime(b, a[0].time));
      AtTimeHolds(b, a[0].time, AtTime(b, a[0].time)[0]);
    }
    if b != [] {
      FirstAtTime(b);
      assert Alike(AtTime(a, b[0].time), AtTime(b, b[0].time));
      AtTimeHolds(a, b[0].time, AtTime(a, b[0].time)[0]);
    }
    if a != [] {
      assert a[0].time == b[0].time;
      var x, y := AtTime(a, a[0].time), AtTime(b, a[0].time);
      assert x[0] == a[0] && y[0] == b[0];
      if x != y {
        assert x[0] in x + y && y[0] in x + y;
      }
    }
  }

  lemma AlikeTails(a: seq<Entry>, b: seq<Entry>)
    requires AlikeAtAllTimes(a, b) && a != [] && b != []
    requires AtTime(a, a[0].time) == AtTime(b, a[0].time) && a[0] == b[0]
    ensures AlikeAtAllTimes(a[1..], b[1..])
  {
    FirstAtTime(a);
    FirstAtTime(b);
    forall t ensures Alike(AtTime(a[1..], t), AtTime(b[1..], t)) {
      assert Alike(AtTime(a, t), AtTime(b, t));
    }
  }

  /** Dropping a copy of the first entry leaves the sequences alike. */
  lemma AlikeWithoutCopy(a: seq<Entry>, b: seq<Entry>)
    requires AlikeAtAllTimes(a, b) && a != [] && |AtTime(a, a[0].time)| > 1
    requires AtTime(a, a[0].time) != AtTime(b, a[0].time)
    ensures |a| > 1 && a[1] == a[0] && AlikeAtAllTimes(a[1..], b)
  {
    var x, y := AtTime(a, a[0].time), AtTime(b, a[0].time);
    FirstAtTime(a);
    SecondAtTime(a);
    assert Alike(x, y);
    assert x[0] in x + y && x[1] in x + y;
    forall t ensures Alike(AtTime(a[1..], t), AtTime(b, t)) {
      assert Alike(AtTime(a, t), AtTime(b, t));
      if t == a[0].time {
        assert AtTime(a[1..], t) == x[1..];
        assert forall z :: z in x[1..] + y ==> z in x + y;
      }
    }
  }

  lemma AlikeSymmetric(a: seq<Entry>, b: seq<Entry>)
    requires AlikeAtAllTimes(a, b)
    ensures AlikeAtAllTimes(b, a)
  {
    forall t ensures Alike(AtTime(b, t), AtTime(a, t)) {
      var x, y := AtTime(a, t), AtTime(b, t);
      assert Alike(x, y);
      assert forall z :: z in y + x ==> z in x + y;
    }
  }

  /** Sequences that differ in the number of copies only keep the same entries. */
  lemma {:induction false} AlikeKeepSame(previous: Option<Entry>, a: seq<Entry>, b: seq<Entry>, room: nat)
    requires AlikeAtAllTimes(a, b)
    ensures TakeFresh(previous, a, room) == TakeFresh(previous, b, room)
    decreases |a| + |b|
  {
    hide Alike, Sorted, AtTime, IsFresh, AlikeAtAllTimes;
    AlikeHeads(a, b);
    if a != [] && room > 0 {
      var t := a[0].time;
      var x, y := AtTime(a, t), AtTime(b, t);
      FirstAtTime(a);
      FirstAtTime(b);
      if x == y {
        AlikeTails(a, b);
        AlikeKeepSame(Some(a[0]), a[1..], b[1..], if IsFresh(previous, a[0]) then room - 1 else room);
      } else if |x| > 1 {
        AlikeWithoutCopy(a, b);
        SkipCopy(previous, a, room);
        AlikeKeepSame(previous, a[1..], b, room);
      } else {
        assert x == [x[0]] && |y| > 1;
        AlikeSymmetric(a, b);
        AlikeWithoutCopy(b, a);
        AlikeSymmetric(b[1..], a);
        SkipCopy(previous, b, room);
        AlikeKeepSame(previous, a, b[1..], room);
      }
    }
  }

  // ---------------------------------------------------------------- the timeline after the loss

  /** The stored entries that the next pass adds to sources with these names, with their full times. */
  lemma NextExtraBeyond(timeline: seq<Entry>, taken: set<string>)
    requires forall n :: n !in taken ==> Once(timeline, n)
    requires forall e :: e in timeline ==> Recover(Truncate(e)) == e
    ensures
      var kept := Dedup(timeline);
      RecoverAll(OldOnly(taken, TruncateAll(kept))) == ByName(timeline, Names(kept) - taken)
  {
    hide Recover, Truncate, TakeFresh;
    var kept := Dedup(timeline);
    var merged := TruncateAll(kept);
    var free := Names(kept) - taken;
    TakeFreshSubsequence(None, timeline, MAX_HISTORY);
    forall n | n !in taken ensures Once(merged, n) {
      TruncateAllByName(kept, {n});
      OnceInSubsequence(kept, timeline, n);
    }
    OldOnlyIsFilter(taken, merged);
    TruncateAllByName(kept, free);
    ByNameMembers(kept, free);
    SubsequenceMembers(kept, timeline);
    RecoverAfterTruncate(ByName(kept, free));
    ByNameOfSubsequence(kept, timeline, free);
  }

  /** A name that the remaining sources lack belongs to at most one known entry. */
  lemma OnceBeyond(events: seq<Entry>, own: seq<Entry>, gone: set<string>, stored: seq<Entry>, n: string)
    requires forall m :: m in gone ==> Once(events, m)
    requires n !in Names(Without(events, gone) + own)
    ensures Once(Timeline(events + own, stored), n)
  {
    hide Recover, RecoverAll, SortNewestFirst;
    var sources := events + own;
    var known, extra := TimelineParts(sources, stored);
    ConcatNames(Without(events, gone), own);
    if n in Names(sources) {
      ConcatNames(events, own);
      WithoutNames(events, gone);
      assert n in gone && n !in Names(own);
      SortByName(known + extra, {n});
      ByNameConcat(known, extra, {n});
      RecoverAllConcat(events, own);
      ByNameConcat(RecoverAll(events), RecoverAll(own), {n});
      RecoverAllNames(own);
      ByNameNone(RecoverAll(own), {n});
      ByNameNone(extra, {n});
      RecoverAllByName(events, {n});
      assert Once(events, n);
      SortIsStable(ByName(known + extra, {n}), 0);
    }
  }

  lemma WithoutNames(s: seq<Entry>, gone: set<string>)
    ensures Names(Without(s, gone)) == Names(s) - gone
  {
    var keep := Names(s) - gone;
    ByNameMembers(s, keep);
    var r := ByName(s, keep);
    assert forall i :: 0 <= i < |r| ==> r[i] in r;
    forall n | n in keep ensures n in Names(r) {
      var i :| 0 <= i < |s| && s[i].name == n;
      assert s[i] in s && s[i] in r;
      NameOfMember(r, s[i]);
    }
  }

  /** The next pass after the loss sees the remaining sources and, behind them, the kept entries they lack. */
  lemma TimelineAfterLoss(events: seq<Entry>, own: seq<Entry>, gone: set<string>, stored: seq<Entry>, t: int)
    requires AllNormal(events + own) && AllNormal(stored) && SetApart(events, own, gone, stored)
    ensures
      var timeline, left := Timeline(events + own, stored), Without(events, gone) + own;
      var later := Timeline(left, Merge(events + own, stored));
      && Sorted(later)
      && AtTime(later, t) ==
         AtTime(RecoverAll(left), t) + ByName(AtTime(timeline, t), Names(Dedup(timeline)) - Names(left))
  {
    hide Recover, Truncate, RecoverAll, TruncateAll, SortNewestFirst, Dedup, AtTime, ByName;
    var timeline, left := Timeline(events + own, stored), Without(events, gone) + own;
    var free := Names(Dedup(timeline)) - Names(left);
    var h := Merge(events + own, stored);
    forall n | n !in Names(left) ensures Once(timeline, n) { OnceBeyond(events, own, gone, stored, n); }
    forall e | e in timeline ensures Recover(Truncate(e)) == e { TimelineIsNormal(events + own, stored, e); }
    NextExtraBeyond(timeline, Names(left));
    var extra := OldOnly(Names(left), h);
    RecoverAllConcat(left, extra);
    SortIsStable(RecoverAll(left + extra), t);
    AtTimeConcat(RecoverAll(left), RecoverAll(extra), t);
    FiltersCommute(timeline, free, t);
  }

  /** The known entries of one time: those of the events, of the template object, and those only stored. */
  lemma TimelineAt(events: seq<Entry>, own: seq<Entry>, stored: seq<Entry>, t: int)
    returns (p: seq<Entry>, q: seq<Entry>, x: seq<Entry>)
    ensures p == AtTime(RecoverAll(events), t) && q == AtTime(RecoverAll(own), t)
    ensures AtTime(Timeline(events + own, stored), t) == p + q + x
    ensures Names(x) !! Names(events + own)
  {
    hide Recover, RecoverAll, SortNewestFirst;
    var known, extra := TimelineParts(events + own, stored);
    RecoverAllConcat(events, own);
    p, q, x := AtTime(RecoverAll(events), t), AtTime(RecoverAll(own), t), AtTime(extra, t);
    SortIsStable(known + extra, t);
    AtTimeConcat(known, extra, t);
    AtTimeConcat(RecoverAll(events), RecoverAll(own), t);
    AtTimeNames(extra, t);
  }

  lemma AtTimeNames(s: seq<Entry>, t: int)
    ensures Names(AtTime(s, t)) <= Names(s)
  {
    var r := AtTime(s, t);
    forall i | 0 <= i < |r| ensures r[i].name in Names(s) {
      AtTimeHolds(s, t, r[i]);
      NameOfMember(s, r[i]);
    }
  }

  /** At a time when nothing was lost the remaining sources are all of them. */
  lemma StillAll(events: seq<Entry>, own: seq<Entry>, gone: set<string>, t: int)
    requires forall e :: e in AtTime(RecoverAll(events), t) ==> e.name !in gone
    ensures
      AtTime(RecoverAll(Without(events, gone) + own), t) == AtTime(RecoverAll(events), t) + AtTime(RecoverAll(own), t)
    ensures
      var still := Names(Without(events, gone) + own);
      Names(AtTime(RecoverAll(events), t)) <= still && Names(AtTime(RecoverAll(own), t)) <= still <= Names(events + own)
  {
    hide Recover, RecoverAll, AtTime, ByName;
    var p, keep := AtTime(RecoverAll(events), t), Names(events) - gone;
    ConcatNames(Without(events, gone), own);
    ConcatNames(events, own);
    WithoutNames(events, gone);
    RecoverAllConcat(Without(events, gone), own);
    AtTimeConcat(RecoverAll(Without(events, gone)), RecoverAll(own), t);
    RecoverAllByName(events, keep);
    FiltersCommute(RecoverAll(events), keep, t);
    AtTimeNames(RecoverAll(events), t);
    RecoverAllNames(events);
    AtTimeNames(RecoverAll(own), t);
    RecoverAllNames(own);
    NamesAvoid(p, gone);
    ByNameAll(p, keep);
  }

  lemma FilterParts(p: seq<Entry>, q: seq<Entry>, x: seq<Entry>, still: set<string>, kept: set<string>)
    requires Names(p) <= still && Names(q) <= still && Names(x) !! still
    ensures p + q + ByName(p + q + x, kept - still) == ByName(p + q + x, still + kept)
  {
    hide ByName;
    ByNameParts(p, q, x, kept - still);
    ByNameParts(p, q, x, still + kept);
    ByNameNone(p, kept - still);
    ByNameNone(q, kept - still);
    ByNameAll(p, still + kept);
    ByNameAll(q, still + kept);
    assert Names(x) * (kept - still) == Names(x) * (still + kept);
    ByNameAgree(x, kept - still, still + kept);
  }

  /** At such a time the next pass sees what this pass keeps or still has. */
  lemma AlikeWhereNothingLost(events: seq<Entry>, own: seq<Entry>, gone: set<string>, stored: seq<Entry>, t: int)
    requires forall e :: e in AtTime(RecoverAll(events), t) ==> e.name !in gone
    ensures
      var timeline, left := Timeline(events + own, stored), Without(events, gone) + own;
      var kept := Names(Dedup(timeline));
      AtTime(RecoverAll(left), t) + ByName(AtTime(timeline, t), kept - Names(left)) ==
      ByName(AtTime(timeline, t), Names(left) + kept)
  {
    hide Recover, RecoverAll, Dedup, AtTime, Timeline, ByName, Names, Without;
    var timeline, left := Timeline(events + own, stored), Without(events, gone) + own;
    var p, q, x := TimelineAt(events, own, stored, t);
    StillAll(events, own, gone, t);
    FilterParts(p, q, x, Names(left), Names(Dedup(timeline)));
  }

  lemma NamesAvoid(p: seq<Entry>, gone: set<string>)
    requires forall e :: e in p ==> e.name !in gone
    ensures Names(p) !! gone
  {
    assert forall i :: 0 <= i < |p| ==> p[i] in p;
  }

  lemma ByNameParts(p: seq<Entry>, q: seq<Entry>, x: seq<Entry>, names: set<string>)
    ensures ByName(p + q + x, names) == ByName(p, names) + ByName(q, names) + ByName(x, names)
  {
    ByNameConcat(p + q, x, names);
    ByNameConcat(p, q, names);
  }

  lemma {:induction false} ByNameOfCopies(a: seq<Entry>, e: Entry, names: set<string>)
    requires forall x :: x in a ==> x == e
    ensures ByName(a, names) == if e.name in names then a else []
  {
    if a != [] {
      assert a[0] in a && forall x :: x in a[1..] ==> x in a;
      ByNameOfCopies(a[1..], e, names);
      assert a == [a[0]] + a[1..];
    }
  }

  lemma StillKnown(events: seq<Entry>, own: seq<Entry>, gone: set<string>, stored: seq<Entry>, e: Entry)
    requires e in RecoverAll(Without(events, gone) + own)
    ensures e in Timeline(events + own, stored) && e.name in Names(Without(events, gone) + own)
  {
    hide Recover, SortNewestFirst, ByName;
    var left := Without(events, gone) + own;
    var i :| 0 <= i < |left| && RecoverAll(left)[i] == e;
    ByNameMembers(events, Names(events) - gone);
    assert left[i] in events + own;
    var all := events + own + OldOnly(Names(events + own), stored);
    assert left[i] in all;
    var j :| 0 <= j < |all| && all[j] == left[i];
    assert RecoverAll(all)[j] == e;
    SortMember(RecoverAll(all), e);
    RecoverKeepsName(left[i]);
  }

  lemma RecoverKeepsName(e: Entry)
    ensures Recover(e).name == e.name
  {
  }

  /** At the time of a lost entry both passes see copies of it, or neither sees it. */
  lemma AlikeWhereLost(events: seq<Entry>, own: seq<Entry>, gone: set<string>, stored: seq<Entry>, e: Entry)
    requires SetApart(events, own, gone, stored) && e in RecoverAll(events) && e.name in gone
    requires e in Timeline(events + own, stored)
    ensures
      var timeline, left := Timeline(events + own, stored), Without(events, gone) + own;
      var kept := Names(Dedup(timeline));
      Alike(AtTime(RecoverAll(left), e.time) + ByName(AtTime(timeline, e.time), kept - Names(left)),
            ByName(AtTime(timeline, e.time), Names(left) + kept))
  {
    hide Recover, RecoverAll, Dedup, AtTime, Timeline, ByName, Without;
    var timeline, left := Timeline(events + own, stored), Without(events, gone) + own;
    var kept, now := Names(Dedup(timeline)), AtTime(timeline, e.time);
    var still := AtTime(RecoverAll(left), e.time);
    forall x | x in now ensures x == e { AtTimeHolds(timeline, e.time, x); }
    AtTimeHolds(timeline, e.time, e);
    forall x | x in still ensures x == e && e.name in Names(left) {
      AtTimeHolds(RecoverAll(left), e.time, x);
      StillKnown(events, own, gone, stored, x);
    }
    ByNameOfCopies(now, e, kept - Names(left));
    ByNameOfCopies(now, e, Names(left) + kept);
    if e.name in Names(left) {
      TwinIsStill(left, timeline, events, own, gone, stored, e);
    }
    assert still != [] ==> still[0] in still;
  }

  lemma TwinIsStill(
    left: seq<Entry>, timeline: seq<Entry>, events: seq<Entry>, own: seq<Entry>, gone: set<string>,
    stored: seq<Entry>, e: Entry)
    requires left == Without(events, gone) + own && timeline == Timeline(events + own, stored)
    requires SetApart(events, own, gone, stored) && e in RecoverAll(events) && e.name in gone && e.name in Names(left)
    ensures e in AtTime(RecoverAll(left), e.time)
  {
    hide Timeline, ByName, AtTime, Without, Recover;
    var i :| 0 <= i < |left| && left[i].name == e.name;
    var twin := RecoverAll(left)[i];
    RecoverKeepsName(left[i]);
    assert twin in RecoverAll(left);
    StillKnown(events, own, gone, stored, twin);
    assert twin == e;
    AtTimeHolds(RecoverAll(left), e.time, e);
  }

  lemma LaterAlike(events: seq<Entry>, own: seq<Entry>, gone: set<string>, stored: seq<Entry>)
    requires AllNormal(events + own) && AllNormal(stored) && SetApart(events, own, gone, stored)
    ensures
      var timeline, left := Timeline(events + own, stored), Without(events, gone) + own;
      AlikeAtAllTimes(
        Timeline(left, Merge(events + own, stored)), Survivors(None, timeline, MAX_HISTORY, Names(left)))
  {
    hide Recover, RecoverAll, AtTime, Timeline, Merge, ByName, Without, Survivors, Alike, AllNormal, TakeFresh;
    var timeline, left := Timeline(events + own, stored), Without(events, gone) + own;
    var later, now := Timeline(left, Merge(events + own, stored)), Survivors(None, timeline, MAX_HISTORY, Names(left));
    var wanted := Names(left) + Names(Dedup(timeline));
    var _, _ := TimelineParts(events + own, stored);
    forall n | n !in Names(left) ensures Once(timeline, n) { OnceBeyond(events, own, gone, stored, n); }
    SurvivorsByName(None, timeline, MAX_HISTORY, Names(left));
    ByNameSorted(timeline, wanted);
    TimelineAfterLoss(events, own, gone, stored, 0);
    forall t ensures Alike(AtTime(later, t), AtTime(now, t)) {
      TimelineAfterLoss(events, own, gone, stored, t);
      FiltersCommute(timeline, wanted, t);
      if e :| e in AtTime(RecoverAll(events), t) && e.name in gone {
        AtTimeHolds(RecoverAll(events), t, e);
        EventIsKnown(events, own, stored, e);
        AlikeWhereLost(events, own, gone, stored, e);
      } else {
        AlikeWhereNothingLost(events, own, gone, stored, t);
        EqualIsAlike(AtTime(later, t), AtTime(now, t));
      }
    }
  }

  lemma EqualIsAlike(a: seq<Entry>, b: seq<Entry>)
    requires a == b
    ensures Alike(a, b)
  {
  }

  lemma EventIsKnown(events: seq<Entry>, own: seq<Entry>, stored: seq<Entry>, e: Entry)
    requires e in RecoverAll(events)
    ensures e in Timeline(events + own, stored)
  {
    hide Recover, SortNewestFirst;
    var i :| 0 <= i < |events| && RecoverAll(events)[i] == e;
    var all := events + own + OldOnly(Names(events + own), stored);
    assert all[i] == events[i];
    assert RecoverAll(all)[i] == e;
    SortMember(RecoverAll(all), e);
  }

  /**
   * A history outlives the expiry of some of its events exactly when no entry that is still reported was dropped
   * for resembling an entry that has expired, or is only stored, and was itself dropped, while it differs from the
   * last one kept.
   */
  lemma LossKeepsIffNoBridge(events: seq<Entry>, own: seq<Entry>, gone: set<string>, stored: seq<Entry>)
    requires AllNormal(events + own) && AllNormal(stored) && SetApart(events, own, gone, stored)
    ensures
      var sources, left := events + own, Without(events, gone) + own;
      Merge(left, Merge(sources, stored)) == Merge(sources, stored) <==>
      !HasBridge(None, None, Timeline(sources, stored), MAX_HISTORY, Names(left))
  {
    var sources, left := events + own, Without(events, gone) + own;
    var timeline := Timeline(sources, stored);
    var _, _ := TimelineParts(sources, stored);
    forall e | e in timeline ensures Recover(Truncate(e)) == e { TimelineIsNormal(sources, stored, e); }
    hide Recover, RecoverAll, Timeline, Without, Survivors, AllNormal, TakeFresh, SetApart, AlikeAtAllTimes;
    LaterAlike(events, own, gone, stored);
    var later, now := Timeline(left, Merge(sources, stored)), Survivors(None, timeline, MAX_HISTORY, Names(left));
    AlikeKeepSame(None, later, now, MAX_HISTORY);
    BridgeDecides(None, None, timeline, MAX_HISTORY, Names(left));
  }

  /** A history that is not stored loses an entry with its event; otherwise the same condition decides. */
  lemma LossWithoutStoreIff(events: seq<Entry>, gone: set<string>)
    requires AllNormal(events) && SetApart(events, [], gone, [])
    ensures
      var left := Without(events, gone);
      Merge(left, []) == Merge(events, []) <==>
      && Names(Merge(events, [])) <= Names(left)
      && !HasBridge(None, None, Timeline(events, []), MAX_HISTORY, Names(left))
  {
    hide Timeline, HasBridge, SetApart, AllNormal, Without;
    var left, h := Without(events, gone), Merge(events, []);
    assert events + [] == events && left + [] == left;
    if Names(h) <= Names(left) {
      OldOnlyAllTaken(Names(left), h);
      SameTimeline(left, h);
      NothingStoredIsNormal();
      LossKeepsIffNoBridge(events, [], gone, []);
    } else {
      MergeNamesKnown(left);
    }
  }

  lemma NothingStoredIsNormal()
    ensures AllNormal([])
  {
  }

  lemma SameTimeline(left: seq<Entry>, h: seq<Entry>)
    requires OldOnly(Names(left), h) == []
    ensures Timeline(left, h) == Timeline(left, [])
  {
  }

  lemma {:induction false} OldOnlyAllTaken(taken: set<string>, h: seq<Entry>)
    requires Names(h) <= taken
    ensures OldOnly(taken, h) == []
  {
    if h != [] {
      NamesTail(h);
      OldOnlyAllTaken(taken, h[1..]);
    }
  }

  lemma MergeNamesKnown(sources: seq<Entry>)
    ensures Names(Merge(sources, [])) <= Names(sources)
  {
    hide SortNewestFirst, RecoverAll;
    var timeline := Timeline(sources, []);
    TimelineIsComplete(sources, []);
    TakeFreshSubsequence(None, timeline, MAX_HISTORY);
    SubsequenceNames(Dedup(timeline), timeline);
    TruncateAllNames(Dedup(timeline));
  }

  // ---------------------------------------------------------------- both conditions matter

  /**
   * One message at 10, 6 and 2 microseconds: the history has the first only, and when the event between the two
   * others expires the last one appears, although nothing new has happened.
   */
  lemma ExpiryUncovers()
    ensures Merge([NEWEST, BETWEEN, OLDEST], [NEWEST]) == [NEWEST]
    ensures Merge([NEWEST, OLDEST], [NEWEST]) == [NEWEST, OLDEST]
  {
    EventNameRoundTrip("policy", 10_000);
    EventNameRoundTrip("policy", 6_000);
    EventNameRoundTrip("policy", 2_000);
    ThreeThenTwo(NEWEST, BETWEEN, OLDEST);
  }

  lemma ThreeThenTwo(x: Entry, y: Entry, z: Entry)
    requires x.time == y.time == z.time == 0 && x.message == y.message == z.message
    requires Recover(x).time == 10_000 && Recover(y).time == 6_000 && Recover(z).time == 2_000
    ensures Merge([x, y, z], [x]) == [x] && Merge([x, z], [x]) == [x, z]
  {
    var a, b, c := Recover(x), Recover(y), Recover(z);
    TwoPasses(x, y, z);
    var sources := [x, y, z];
    assert sources[0].name in Names(sources);
    assert [x][1..] == [];
    assert OldOnly(Names(sources), [x]) == [];
    assert sources + [] == sources;
    assert RecoverAll(sources) == [a, b, c];
    SortOfSorted([a, b, c]);
    KeepFirst(a, b, c);
    assert TruncateAll([a]) == [x];
  }

  const FIRST := Entry(0, "NonCompliant; one", "x")
  const SECOND := Entry(0, "NonCompliant; two", "y")

  /** Two events of one time, which only their order in the list keeps apart, change places when the first expires. */
  lemma TiesReorder()
    ensures Merge([FIRST, SECOND], []) == [FIRST, SECOND]
    ensures Merge([SECOND], [FIRST, SECOND]) == [SECOND, FIRST]
    ensures !HasBridge(None, None, Timeline([FIRST, SECOND], []), MAX_HISTORY, Names([SECOND]))
  {
    var a, b := FIRST, SECOND;
    Unreadable("x");
    Unreadable("y");
    assert Recover(a) == a && Recover(b) == b && Truncate(a) == a && Truncate(b) == b;
    assert a.message[14] == 'o' && b.message[14] == 't';
    assert a.name[0] == 'x' && b.name[0] == 'y';
    assert [a, b] + [] == [a, b];
    assert RecoverAll([a, b]) == [a, b];
    SortOfSorted([a, b]);
    KeepBoth(a, b);
    assert TruncateAll([a, b]) == [a, b];
    assert Names([b]) == {b.name};
    assert [a, b][1..] == [b] && [b][1..] == [];
    assert OldOnly({b.name, a.name}, []) == [];
    assert OldOnly({b.name} + {a.name}, [b]) == [];
    assert OldOnly({b.name}, [a, b]) == [a] + OldOnly({b.name} + {a.name}, [b]);
    assert [b] + [a] == [b, a] && RecoverAll([b, a]) == [b, a];
    SortOfSorted([b, a]);
    KeepBoth(b, a);
    assert TruncateAll([b, a]) == [b, a];
    assert !HasBridge(Some(b), Some(b), [], 8, {b.name});
    assert !HasBridge(Some(a), Some(a), [b], 9, {b.name});
  }

  lemma Unreadable(name: string)
    requires |name| == 1 && name[0] in "xy"
    ensures ParseTimestamp(name).None?
  {
    assert name[..0] == "";
    assert AfterLastDot("") == "";
    assert AfterLastDot(name) == name;
  }
}
