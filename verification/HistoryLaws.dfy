/** What repeated merging does to a compliance history. */
module HistoryLaws {
  import opened Text
  import opened EventCodec
  import opened History

  // ---------------------------------------------------------------- names of the timeline

  predicate Subsequence(k: seq<Entry>, s: seq<Entry>) {
    k == [] || (s != [] && ((k[0] == s[0] && Subsequence(k[1..], s[1..])) || Subsequence(k, s[1..])))
  }

  lemma {:induction false} TakeFreshSubsequence(previous: Option<Entry>, s: seq<Entry>, room: nat)
    ensures Subsequence(TakeFresh(previous, s, room), s)
    decreases |s|
  {
    if room > 0 && s != [] {
      if IsFresh(previous, s[0]) {
        TakeFreshSubsequence(Some(s[0]), s[1..], room - 1);
        assert TakeFresh(previous, s, room)[1..] == TakeFresh(Some(s[0]), s[1..], room - 1);
      } else {
        TakeFreshSubsequence(Some(s[0]), s[1..], room);
      }
    }
  }

  lemma {:induction false} SubsequenceMembers(k: seq<Entry>, s: seq<Entry>)
    requires Subsequence(k, s)
    ensures forall e :: e in k ==> e in s
    decreases |s|
  {
    if k != [] {
      assert k == [k[0]] + k[1..] && s == [s[0]] + s[1..];
      if k[0] == s[0] && Subsequence(k[1..], s[1..]) {
        SubsequenceMembers(k[1..], s[1..]);
      } else {
        SubsequenceMembers(k, s[1..]);
      }
    }
  }

  /** At most one entry of the sequence has this name. */
  predicate Once(s: seq<Entry>, name: string) {
    |ByName(s, {name})| <= 1
  }

  lemma {:induction false} ByNameNone(s: seq<Entry>, names: set<string>)
    requires Names(s) !! names
    ensures ByName(s, names) == []
  {
    if s != [] {
      assert forall i :: 0 <= i < |s| ==> s[i].name in Names(s);
      assert forall i :: 0 <= i < |s[1..]| ==> s[1..][i] == s[i + 1];
      ByNameNone(s[1..], names);
    }
  }

  lemma {:induction false} ByNameAll(s: seq<Entry>, names: set<string>)
    requires Names(s) <= names
    ensures ByName(s, names) == s
  {
    if s != [] {
      assert forall i :: 0 <= i < |s| ==> s[i].name in Names(s);
      assert forall i :: 0 <= i < |s[1..]| ==> s[1..][i] == s[i + 1];
      ByNameAll(s[1..], names);
    }
  }

  /** Only the names that occur decide what ByName keeps. */
  lemma {:induction false} ByNameAgree(s: seq<Entry>, a: set<string>, b: set<string>)
    requires Names(s) * a == Names(s) * b
    ensures ByName(s, a) == ByName(s, b)
  {
    if s != [] {
      assert s[0].name in Names(s);
      assert s[0].name in a <==> s[0].name in Names(s) * a;
      assert s[0].name in b <==> s[0].name in Names(s) * b;
      NamesTail(s);
      assert Names(s[1..]) * a == Names(s[1..]) * (Names(s) * a);
      assert Names(s[1..]) * b == Names(s[1..]) * (Names(s) * b);
      ByNameAgree(s[1..], a, b);
    }
  }

  lemma NamesTail(s: seq<Entry>)
    requires s != []
    ensures Names(s) == {s[0].name} + Names(s[1..])
  {
    assert forall i :: 0 <= i < |s[1..]| ==> s[1..][i] == s[i + 1];
    forall n | n in Names(s) ensures n in {s[0].name} + Names(s[1..]) {
      var i :| 0 <= i < |s| && s[i].name == n;
      if i > 0 { assert s[1..][i - 1].name == n; }
    }
  }

  lemma NameOfMember(s: seq<Entry>, e: Entry)
    requires e in s
    ensures e.name in Names(s)
  {
    var i :| 0 <= i < |s| && s[i] == e;
  }

  lemma {:induction false} ByNameEmpty(s: seq<Entry>, name: string)
    ensures ByName(s, {name}) == [] <==> name !in Names(s)
  {
    if s != [] {
      NamesTail(s);
      ByNameEmpty(s[1..], name);
    }
  }

  lemma SubsequenceNames(k: seq<Entry>, s: seq<Entry>)
    requires Subsequence(k, s)
    ensures Names(k) <= Names(s)
  {
    SubsequenceMembers(k, s);
    forall i | 0 <= i < |k| ensures k[i].name in Names(s) {
      NameOfMember(s, k[i]);
    }
  }

  /** Names that occur once in the whole and occur in the subsequence select the same entries from both. */
  lemma {:induction false} ByNameOfSubsequence(k: seq<Entry>, s: seq<Entry>, names: set<string>)
    requires Subsequence(k, s) && names <= Names(k)
    requires forall n :: n in names ==> Once(s, n)
    ensures ByName(k, names) == ByName(s, names)
    decreases |s|
  {
    if k == [] {
      assert names == {};
      ByNameNone(s, names);
    } else {
      var head, tail := s[0].name, s[1..];
      forall n | n in names
        ensures Once(tail, n)
        ensures n == head ==> ByName(tail, {n}) == []
      {
        assert Once(s, n);
      }
      ByNameEmpty(tail, head);
      if k[0] == s[0] && Subsequence(k[1..], tail) {
        NamesTail(k);
        ByNameOfSubsequence(k[1..], tail, names - {head});
        if head in names {
          SubsequenceNames(k[1..], tail);
          ByNameEmpty(k[1..], head);
          ByNameWithout(tail, names, head);
          ByNameWithout(k[1..], names, head);
        } else {
          assert names - {head} == names;
        }
      } else {
        SubsequenceNames(k, tail);
        ByNameOfSubsequence(k, tail, names);
      }
    }
  }

  lemma ByNameWithout(s: seq<Entry>, names: set<string>, name: string)
    requires ByName(s, {name}) == []
    ensures ByName(s, names) == ByName(s, names - {name})
  {
    ByNameEmpty(s, name);
    assert Names(s) * names == Names(s) * (names - {name});
    ByNameAgree(s, names, names - {name});
  }

  // ---------------------------------------------------------------- the stored part

  lemma {:induction false} OldOnlyNames(taken: set<string>, stored: seq<Entry>)
    ensures Names(OldOnly(taken, stored)) !! taken
    ensures forall n :: Once(OldOnly(taken, stored), n)
    ensures forall e :: e in OldOnly(taken, stored) ==> e in stored
    decreases |stored|
  {
    if stored != [] {
      if stored[0].name in taken {
        OldOnlyNames(taken, stored[1..]);
      } else {
        var more := taken + {stored[0].name};
        var rest := OldOnly(more, stored[1..]);
        OldOnlyNames(more, stored[1..]);
        var all := OldOnly(taken, stored);
        assert all[1..] == rest;
        NamesTail(all);
        forall n ensures Once(all, n) {
          assert Once(rest, n);
          if n == stored[0].name { ByNameNone(rest, {n}); }
        }
      }
    }
  }

  /** When the free names occur once, OldOnly is a plain filter. */
  lemma {:induction false} OldOnlyIsFilter(taken: set<string>, stored: seq<Entry>)
    requires forall n :: n !in taken ==> Once(stored, n)
    ensures OldOnly(taken, stored) == ByName(stored, Names(stored) - taken)
    decreases |stored|
  {
    if stored != [] {
      var head, tail := stored[0].name, stored[1..];
      NamesTail(stored);
      if head in taken {
        forall n | n !in taken ensures Once(tail, n) { assert Once(stored, n); }
        OldOnlyIsFilter(taken, tail);
        assert Names(stored) - taken == Names(tail) - taken;
      } else {
        forall n | n !in taken + {head} ensures Once(tail, n) { assert Once(stored, n); }
        OldOnlyIsFilter(taken + {head}, tail);
        assert ByName(tail, {head}) == [] by { assert Once(stored, head); }
        ByNameWithout(tail, Names(stored) - taken, head);
        assert Names(stored) - taken - {head} == Names(tail) - (taken + {head});
      }
    }
  }

  lemma TruncateAllNames(s: seq<Entry>)
    ensures Names(TruncateAll(s)) == Names(s)
  {
    var r := TruncateAll(s);
    assert forall i :: 0 <= i < |s| ==> r[i].name == s[i].name;
    forall n | n in Names(s) ensures n in Names(r) {
      var i :| 0 <= i < |s| && s[i].name == n;
      assert r[i].name == n;
    }
  }

  lemma TruncateAllHead(e: Entry, s: seq<Entry>)
    ensures TruncateAll([e] + s) == [Truncate(e)] + TruncateAll(s)
  {
    assert ([e] + s)[1..] == s;
  }

  lemma {:induction false} TruncateAllByName(s: seq<Entry>, names: set<string>)
    ensures ByName(TruncateAll(s), names) == TruncateAll(ByName(s, names))
    ensures Names(TruncateAll(s)) == Names(s)
  {
    TruncateAllNames(s);
    assert s != [] ==> Truncate(s[0]).name == s[0].name;
    hide Truncate, Names, TruncateAll;
    if s != [] {
      TruncateAllByName(s[1..], names);
      assert s == [s[0]] + s[1..];
      TruncateAllHead(s[0], s[1..]);
      assert TruncateAll(s)[1..] == TruncateAll(s[1..]);
      TruncateAllHead(s[0], ByName(s[1..], names));
    }
  }

  lemma RecoverAllNames(s: seq<Entry>)
    ensures Names(RecoverAll(s)) == Names(s)
  {
    var r := RecoverAll(s);
    assert forall i :: 0 <= i < |s| ==> r[i].name == s[i].name;
    forall n | n in Names(s) ensures n in Names(r) {
      var i :| 0 <= i < |s| && s[i].name == n;
      assert r[i].name == n;
    }
  }

  lemma RecoverTruncated(e: Entry)
    requires Normal(e)
    ensures Recover(Truncate(Recover(e))) == Recover(e)
  {
  }

  // ---------------------------------------------------------------- the timeline of the next pass

  lemma RecoverAllConcat(a: seq<Entry>, b: seq<Entry>)
    ensures RecoverAll(a + b) == RecoverAll(a) + RecoverAll(b)
  {
  }

  lemma {:induction false} RecoverAllByName(s: seq<Entry>, names: set<string>)
    ensures ByName(RecoverAll(s), names) == RecoverAll(ByName(s, names))
  {
    if s != [] {
      RecoverAllByName(s[1..], names);
      assert RecoverAll(s)[1..] == RecoverAll(s[1..]);
      RecoverAllConcat(if s[0].name in names then [s[0]] else [], ByName(s[1..], names));
    }
  }

  /** The parts of a timeline: the sources, and the stored entries that no source names. */
  lemma TimelineParts(sources: seq<Entry>, stored: seq<Entry>) returns (known: seq<Entry>, extra: seq<Entry>)
    ensures known == RecoverAll(sources) && extra == RecoverAll(OldOnly(Names(sources), stored))
    ensures Timeline(sources, stored) == SortNewestFirst(known + extra)
    ensures Names(known) == Names(sources) && Names(extra) !! Names(sources)
    ensures forall n :: Once(extra, n)
    ensures forall n :: n !in Names(sources) ==> Once(Timeline(sources, stored), n)
    ensures Sorted(Timeline(sources, stored))
  {
    var only := OldOnly(Names(sources), stored);
    known, extra := RecoverAll(sources), RecoverAll(only);
    RecoverAllConcat(sources, only);
    RecoverAllNames(sources);
    RecoverAllNames(only);
    OldOnlyNames(Names(sources), stored);
    SortIsStable(known + extra, 0);
    forall n ensures Once(extra, n) {
      assert Once(only, n);
      RecoverAllByName(only, {n});
    }
    forall n | n !in Names(sources) ensures Once(Timeline(sources, stored), n) {
      SortByName(known + extra, {n});
      ByNameConcat(known, extra, {n});
      ByNameNone(known, {n});
      SortIsStable(ByName(known + extra, {n}), 0);
      assert Once(extra, n);
    }
  }

  lemma SortMember(s: seq<Entry>, e: Entry)
    ensures e in SortNewestFirst(s) <==> e in s
  {
    SortIsStable(s, 0);
    assert e in SortNewestFirst(s) <==> e in multiset(SortNewestFirst(s));
    assert e in s <==> e in multiset(s);
  }

  /** A timeline entry that no source names comes from a stored entry. */
  lemma {:induction false} ExtraIsStored(sources: seq<Entry>, stored: seq<Entry>, e: Entry) returns (s: Entry)
    requires e in Timeline(sources, stored) && e.name !in Names(sources)
    ensures s in stored && e == Recover(s)
  {
    var only := OldOnly(Names(sources), stored);
    var all := sources + only;
    SortMember(RecoverAll(all), e);
    var i :| 0 <= i < |all| && RecoverAll(all)[i] == e;
    s := all[i];
    assert s.name == e.name;
    if i < |sources| {
      NameOfMember(sources, s);
    }
    OldOnlyNames(Names(sources), stored);
    assert s in only;
  }

  lemma RecoverAfterTruncate(k: seq<Entry>)
    requires forall e :: e in k ==> Recover(Truncate(e)) == e
    ensures RecoverAll(TruncateAll(k)) == k
  {
    assert forall i :: 0 <= i < |k| ==> k[i] in k;
  }

  /** What the next pass adds to the sources: the kept entries that no source names, with their full times. */
  lemma NextExtra(sources: seq<Entry>, stored: seq<Entry>)
    requires AllNormal(stored)
    ensures
      var kept := Dedup(Timeline(sources, stored));
      RecoverAll(OldOnly(Names(sources), Merge(sources, stored))) == ByName(kept, Names(kept) - Names(sources))
  {
    var timeline := Timeline(sources, stored);
    var kept := Dedup(timeline);
    var merged := Merge(sources, stored);
    var free := Names(kept) - Names(sources);
    var known, extra := TimelineParts(sources, stored);
    TakeFreshSubsequence(None, timeline, MAX_HISTORY);
    forall n | n !in Names(sources) ensures Once(merged, n) {
      TruncateAllByName(kept, {n});
      OnceInSubsequence(kept, timeline, n);
    }
    OldOnlyIsFilter(Names(sources), merged);
    TruncateAllByName(kept, free);
    assert OldOnly(Names(sources), merged) == TruncateAll(ByName(kept, free));
    ByNameMembers(kept, free);
    SubsequenceMembers(kept, timeline);
    forall e | e in ByName(kept, free) ensures Recover(Truncate(e)) == e {
      var s := ExtraIsStored(sources, stored, e);
      RecoverTruncated(s);
    }
    RecoverAfterTruncate(ByName(kept, free));
  }

  lemma {:induction false} OnceInSubsequence(k: seq<Entry>, s: seq<Entry>, name: string)
    requires Subsequence(k, s) && Once(s, name)
    ensures Once(k, name)
    decreases |s|
  {
    if k != [] {
      if k[0] == s[0] && Subsequence(k[1..], s[1..]) {
        OnceInSubsequence(k[1..], s[1..], name);
        SubsequenceNames(k[1..], s[1..]);
        ByNameEmpty(k[1..], name);
        ByNameEmpty(s[1..], name);
      } else {
        OnceInSubsequence(k, s[1..], name);
      }
    }
  }

  /**
   * The timeline of the next pass is this timeline without the stored entries that were dropped: truncation
   * and recovery cancel, and sorting again moves nothing.
   */
  lemma NextTimeline(sources: seq<Entry>, stored: seq<Entry>)
    requires AllNormal(stored)
    ensures
      var timeline := Timeline(sources, stored);
      Timeline(sources, Merge(sources, stored)) == ByName(timeline, Names(sources) + Names(Dedup(timeline)))
  {
    var timeline := Timeline(sources, stored);
    var kept := Dedup(timeline);
    var free := Names(kept) - Names(sources);
    var wanted := Names(sources) + Names(kept);
    var known, extra := TimelineParts(sources, stored);
    var _, _ := TimelineParts(sources, Merge(sources, stored));
    NextExtra(sources, stored);
    // The kept extras, as a sorted selection of all extras.
    TakeFreshSubsequence(None, timeline, MAX_HISTORY);
    ByNameOfSubsequence(kept, timeline, free);
    SortByName(known + extra, free);
    ByNameConcat(known, extra, free);
    ByNameNone(known, free);
    assert [] + ByName(extra, free) == ByName(extra, free);
    assert ByName(kept, free) == SortNewestFirst(ByName(extra, free));
    // Sources and kept extras together.
    SortAfterSort(known, ByName(extra, free));
    SortByName(known + extra, wanted);
    ByNameConcat(known, extra, wanted);
    ByNameAll(known, wanted);
    assert Names(extra) * wanted == Names(extra) * free;
    ByNameAgree(extra, wanted, free);
  }

  // ---------------------------------------------------------------- dropping entries step by step

  /** What ByName leaves in NextTimeline, decided entry by entry: source entries, and those just kept. */
  function Survivors(previous: Option<Entry>, s: seq<Entry>, room: nat, sources: set<string>): seq<Entry>
    decreases |s|
  {
    if s == [] then []
    else
      var kept := room > 0 && IsFresh(previous, s[0]);
      (if kept || s[0].name in sources then [s[0]] else [])
      + Survivors(Some(s[0]), s[1..], if kept then room - 1 else room, sources)
  }

  lemma {:induction false} SurvivorsByName(previous: Option<Entry>, s: seq<Entry>, room: nat, sources: set<string>)
    requires forall n :: n !in sources ==> Once(s, n)
    ensures ByName(s, sources + Names(TakeFresh(previous, s, room))) == Survivors(previous, s, room, sources)
    decreases |s|
  {
    if s != [] {
      var head, tail := s[0].name, s[1..];
      var kept := room > 0 && IsFresh(previous, s[0]);
      var left := if kept then room - 1 else room;
      forall n | n !in sources ensures Once(tail, n) { assert Once(s, n); }
      SurvivorsByName(Some(s[0]), tail, left, sources);
      var now, next := TakeFresh(previous, s, room), TakeFresh(Some(s[0]), tail, left);
      if kept {
        assert now[1..] == next;
        NamesTail(now);
        assert sources + Names(now) == (sources + Names(next)) + {head};
      } else {
        assert now == next;
      }
      if head !in sources {
        assert Once(s, head);
        ByNameEmpty(tail, head);
        TakeFreshSubsequence(Some(s[0]), tail, left);
        SubsequenceNames(next, tail);
        ByNameWithout(tail, sources + Names(now), head);
        ByNameWithout(tail, sources + Names(next), head);
        assert sources + Names(now) - {head} == sources + Names(next) - {head};
      } else if kept {
        assert sources + Names(now) == sources + Names(next);
      }
    }
  }

  /** `previous` is reached from `anchor` through dropped neighbours: same message, no later. */
  predicate Chained(previous: Option<Entry>, anchor: Option<Entry>) {
    || previous == anchor
    || (previous.Some? && anchor.Some?
        && previous.value.message == anchor.value.message && previous.value.time <= anchor.value.time)
  }

  predicate After(previous: Option<Entry>, s: seq<Entry>) {
    Sorted(s) && (previous.Some? && s != [] ==> s[0].time <= previous.value.time)
  }

  lemma FreshAcrossChain(previous: Option<Entry>, anchor: Option<Entry>, e: Entry)
    requires Chained(previous, anchor) && (previous.Some? ==> e.time <= previous.value.time)
    ensures IsFresh(previous, e) ==> IsFresh(anchor, e)
    ensures !IsFresh(previous, e) ==> Chained(Some(e), anchor)
  {
  }

  lemma AfterTail(previous: Option<Entry>, s: seq<Entry>)
    requires After(previous, s) && s != []
    ensures After(Some(s[0]), s[1..])
  {
  }

  /** Every entry that no source names differs from the entry just before it. */
  predicate ExtrasFresh(previous: Option<Entry>, s: seq<Entry>, sources: set<string>)
    decreases |s|
  {
    s == [] || ((s[0].name in sources || IsFresh(previous, s[0])) && ExtrasFresh(Some(s[0]), s[1..], sources))
  }

  lemma {:induction false} SurvivingExtrasFresh(
    previous: Option<Entry>, anchor: Option<Entry>, s: seq<Entry>, room: nat, sources: set<string>)
    requires After(previous, s) && (room > 0 ==> Chained(previous, anchor))
    ensures ExtrasFresh(anchor, Survivors(previous, s, room, sources), sources)
    decreases |s|
  {
    if s != [] {
      AfterTail(previous, s);
      var kept := room > 0 && IsFresh(previous, s[0]);
      var left := if kept then room - 1 else room;
      if room > 0 { FreshAcrossChain(previous, anchor, s[0]); }
      var all := Survivors(previous, s, room, sources);
      var rest := Survivors(Some(s[0]), s[1..], left, sources);
      if kept || s[0].name in sources {
        SurvivingExtrasFresh(Some(s[0]), Some(s[0]), s[1..], left, sources);
        assert all[1..] == rest;
      } else {
        SurvivingExtrasFresh(Some(s[0]), anchor, s[1..], left, sources);
        assert all == rest;
      }
    }
  }

  /** Once the extras are fresh, dropping those beyond the limit changes nothing that is kept. */
  lemma {:induction false} SurvivorsKeepSame(previous: Option<Entry>, s: seq<Entry>, room: nat, sources: set<string>)
    requires ExtrasFresh(previous, s, sources)
    ensures TakeFresh(previous, Survivors(previous, s, room, sources), room) == TakeFresh(previous, s, room)
    decreases |s|
  {
    if s != [] && room > 0 {
      var kept := IsFresh(previous, s[0]);
      var left := if kept then room - 1 else room;
      SurvivorsKeepSame(Some(s[0]), s[1..], left, sources);
      var all := Survivors(previous, s, room, sources);
      assert all[0] == s[0] && all[1..] == Survivors(Some(s[0]), s[1..], left, sources);
    }
  }

  lemma NextTimelineSurvives(sources: seq<Entry>, stored: seq<Entry>)
    requires AllNormal(stored)
    ensures Timeline(sources, Merge(sources, stored))
         == Survivors(None, Timeline(sources, stored), MAX_HISTORY, Names(sources))
  {
    var _, _ := TimelineParts(sources, stored);
    NextTimeline(sources, stored);
    SurvivorsByName(None, Timeline(sources, stored), MAX_HISTORY, Names(sources));
  }

  lemma MergeIsNormal(sources: seq<Entry>, stored: seq<Entry>)
    ensures AllNormal(Merge(sources, stored))
  {
    var kept := Dedup(Timeline(sources, stored));
    forall i | 0 <= i < |kept| ensures Normal(Truncate(kept[i])) {
      assert kept[i].time / SECOND * SECOND % SECOND == 0;
    }
  }

  /** Merging with unchanged sources reaches a fixed point in two passes. */
  lemma MergeConverges(sources: seq<Entry>, stored: seq<Entry>)
    requires AllNormal(stored)
    ensures
      var twice := Merge(sources, Merge(sources, stored));
      Merge(sources, twice) == twice
  {
    var once := Merge(sources, stored);
    var twice := Merge(sources, once);
    var names := Names(sources);
    var t0, t1 := Timeline(sources, stored), Timeline(sources, once);
    MergeIsNormal(sources, stored);
    NextTimelineSurvives(sources, stored);
    NextTimelineSurvives(sources, once);
    var _, _ := TimelineParts(sources, stored);
    SurvivingExtrasFresh(None, None, t0, MAX_HISTORY, names);
    SurvivorsKeepSame(None, t1, MAX_HISTORY, names);
  }

  /** Whatever was stored before, three passes are enough. */
  lemma MergeConvergesAlways(sources: seq<Entry>, stored: seq<Entry>)
    ensures
      var thrice := Merge(sources, Merge(sources, Merge(sources, stored)));
      Merge(sources, thrice) == thrice
  {
    MergeIsNormal(sources, stored);
    MergeConverges(sources, Merge(sources, stored));
  }
}
