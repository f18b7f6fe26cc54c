/** When a stored history is left alone, and where every event of a merge went. */
module HistoryStability {
  import opened Text
  import opened EventCodec
  import opened History
  import opened HistoryLaws

  // ---------------------------------------------------------------- one pass is enough unless there is a bridge

  /**
   * A source entry is dropped for resembling a stored entry that is itself dropped, while it differs from
   * `anchor`, the last entry to survive. The stored entry is gone in the next pass, and the source entry returns.
   */
  predicate HasBridge(
    previous: Option<Entry>, anchor: Option<Entry>, s: seq<Entry>, room: nat, sources: set<string>)
    decreases |s|
  {
    if s == [] || room == 0 then false
    else if IsFresh(previous, s[0]) then HasBridge(Some(s[0]), Some(s[0]), s[1..], room - 1, sources)
    else if s[0].name in sources then
      IsFresh(anchor, s[0]) || HasBridge(Some(s[0]), Some(s[0]), s[1..], room, sources)
    else HasBridge(Some(s[0]), anchor, s[1..], room, sources)
  }

  /** The next entry to be kept differs from the anchor in message or in time. */
  lemma {:induction false} NextKeptDiffers(previous: Option<Entry>, anchor: Entry, s: seq<Entry>, room: nat)
    requires After(previous, s) && Chained(previous, Some(anchor)) && previous.Some?
    ensures
      var kept := TakeFresh(previous, s, room);
      kept != [] ==> kept[0] in s && !TooSimilar(kept[0], anchor)
    decreases |s|
  {
    if s != [] && room > 0 {
      FreshAcrossChain(previous, Some(anchor), s[0]);
      AfterTail(previous, s);
      if !IsFresh(previous, s[0]) {
        NextKeptDiffers(Some(s[0]), anchor, s[1..], room);
      }
    }
  }

  lemma TruncateCons(e: Entry, a: seq<Entry>, b: seq<Entry>)
    ensures TruncateAll([e] + a) == TruncateAll([e] + b) <==> TruncateAll(a) == TruncateAll(b)
  {
    TruncateAllHead(e, a);
    TruncateAllHead(e, b);
    assert TruncateAll([e] + a)[1..] == TruncateAll(a) && TruncateAll([e] + b)[1..] == TruncateAll(b);
  }

  /** After the bridge `e`, this pass does not keep e next, and the following pass does. */
  lemma {:induction false} BridgeReturns(e: Entry, s: seq<Entry>, next: seq<Entry>, room: nat)
    requires After(Some(e), s) && next != [] && next[0] == e && Recover(Truncate(e)) == e
    requires forall x :: x in s ==> Recover(Truncate(x)) == x
    ensures TruncateAll(TakeFresh(Some(e), s, room)) != TruncateAll(next)
  {
    var now := TakeFresh(Some(e), s, room);
    NextKeptDiffers(Some(e), e, s, room);
    if now != [] && Truncate(now[0]) == Truncate(e) {
      assert now[0] == Recover(Truncate(now[0]));
    }
    assert TruncateAll(next)[0] == Truncate(e);
  }

  /** What both passes do with the first entry when this pass has room for it. */
  lemma HeadStep(
    previous: Option<Entry>, anchor: Option<Entry>, s: seq<Entry>, room: nat, sources: set<string>)
    requires s != [] && room > 0
    ensures
      var e, tail := s[0], s[1..];
      var kept := IsFresh(previous, e);
      var left := if kept then room - 1 else room;
      var rest := Survivors(Some(e), tail, left, sources);
      var all := Survivors(previous, s, room, sources);
      && TakeFresh(previous, s, room) == (if kept then [e] else []) + TakeFresh(Some(e), tail, left)
      && (if kept || e.name in sources then
            TakeFresh(anchor, all, room) ==
              if IsFresh(anchor, e) then [e] + TakeFresh(Some(e), rest, room - 1) else TakeFresh(Some(e), rest, room)
          else all == rest)
  {
    hide IsFresh;
    var e, tail := s[0], s[1..];
    var kept := IsFresh(previous, e);
    var all := Survivors(previous, s, room, sources);
    if kept || e.name in sources {
      assert all[0] == e && all[1..] == Survivors(Some(e), tail, if kept then room - 1 else room, sources);
    }
  }

  lemma BridgeStep(
    previous: Option<Entry>, anchor: Option<Entry>, s: seq<Entry>, room: nat, sources: set<string>)
    requires s != [] && room > 0
    ensures
      var e, tail := s[0], s[1..];
      HasBridge(previous, anchor, s, room, sources) ==
      if IsFresh(previous, e) then HasBridge(Some(e), Some(e), tail, room - 1, sources)
      else if e.name in sources then IsFresh(anchor, e) || HasBridge(Some(e), Some(e), tail, room, sources)
      else HasBridge(Some(e), anchor, tail, room, sources)
  {
  }

  lemma ChainStep(previous: Option<Entry>, anchor: Option<Entry>, s: seq<Entry>)
    requires s != [] && After(previous, s) && Chained(previous, anchor)
    ensures After(Some(s[0]), s[1..]) && Chained(Some(s[0]), Some(s[0]))
    ensures IsFresh(previous, s[0]) ==> IsFresh(anchor, s[0])
    ensures !IsFresh(previous, s[0]) ==> Chained(Some(s[0]), anchor)
  {
    AfterTail(previous, s);
    FreshAcrossChain(previous, anchor, s[0]);
  }

  lemma {:induction false} BridgeDecides(
    previous: Option<Entry>, anchor: Option<Entry>, s: seq<Entry>, room: nat, sources: set<string>)
    requires After(previous, s) && Chained(previous, anchor)
    requires forall e :: e in s ==> Recover(Truncate(e)) == e
    ensures
      var now := TruncateAll(TakeFresh(previous, s, room));
      var next := TruncateAll(TakeFresh(anchor, Survivors(previous, s, room, sources), room));
      now == next <==> !HasBridge(previous, anchor, s, room, sources)
    decreases |s|
  {
    if s != [] && room > 0 {
      hide *;
      var e, tail := s[0], s[1..];
      ChainStep(previous, anchor, s);
      BridgeStep(previous, anchor, s, room, sources);
      HeadStep(previous, anchor, s, room, sources);
      assert forall x :: x in tail ==> x in s;
      if IsFresh(previous, e) {
        var rest := Survivors(Some(e), tail, room - 1, sources);
        BridgeDecides(Some(e), Some(e), tail, room - 1, sources);
        TruncateCons(e, TakeFresh(Some(e), tail, room - 1), TakeFresh(Some(e), rest, room - 1));
      } else if e.name in sources && IsFresh(anchor, e) {
        BridgeReturns(e, tail, TakeFresh(anchor, Survivors(previous, s, room, sources), room), room);
      } else if e.name in sources {
        BridgeDecides(Some(e), Some(e), tail, room, sources);
      } else {
        BridgeDecides(Some(e), anchor, tail, room, sources);
      }
    }
  }

  lemma TimelineIsNormal(sources: seq<Entry>, stored: seq<Entry>, e: Entry)
    requires AllNormal(sources) && AllNormal(stored) && e in Timeline(sources, stored)
    ensures Recover(Truncate(e)) == e
  {
    var only := OldOnly(Names(sources), stored);
    var all := sources + only;
    OldOnlyNames(Names(sources), stored);
    SortMember(RecoverAll(all), e);
    var i :| 0 <= i < |all| && RecoverAll(all)[i] == e;
    assert all[i] in sources || all[i] in stored;
    RecoverTruncated(all[i]);
  }

  /** A second merge changes the stored history exactly when the timeline has a bridge before the limit. */
  lemma MergeIdempotentIffNoBridge(sources: seq<Entry>, stored: seq<Entry>)
    requires AllNormal(sources) && AllNormal(stored)
    ensures
      Merge(sources, Merge(sources, stored)) == Merge(sources, stored) <==>
      !HasBridge(None, None, Timeline(sources, stored), MAX_HISTORY, Names(sources))
  {
    var timeline := Timeline(sources, stored);
    var _, _ := TimelineParts(sources, stored);
    forall e | e in timeline ensures Recover(Truncate(e)) == e { TimelineIsNormal(sources, stored, e); }
    NextTimelineSurvives(sources, stored);
    BridgeDecides(None, None, timeline, MAX_HISTORY, Names(sources));
  }

  /** Nothing stored that the sources lack: one pass is always enough. */
  lemma {:induction false} NoExtrasNoBridge(
    previous: Option<Entry>, s: seq<Entry>, room: nat, sources: set<string>)
    requires Names(s) <= sources
    ensures !HasBridge(previous, previous, s, room, sources)
    decreases |s|
  {
    if s != [] && room > 0 {
      NamesTail(s);
      NoExtrasNoBridge(Some(s[0]), s[1..], if IsFresh(previous, s[0]) then room - 1 else room, sources);
    }
  }

  const NEWEST := Entry(0, "NonCompliant; violation", EventName("policy", 10_000))
  const BETWEEN := Entry(0, "NonCompliant; violation", EventName("policy", 6_000))
  const OLDEST := Entry(0, "NonCompliant; violation", EventName("policy", 2_000))

  /** One message at 10, 6 and 2 microseconds, the middle one only stored: one entry, then two. */
  lemma OnePassIsNotEnough()
    ensures Merge([NEWEST, OLDEST], [BETWEEN]) == [NEWEST]
    ensures Merge([NEWEST, OLDEST], Merge([NEWEST, OLDEST], [BETWEEN])) == [NEWEST, OLDEST]
  {
    EventNameRoundTrip("policy", 10_000);
    EventNameRoundTrip("policy", 6_000);
    EventNameRoundTrip("policy", 2_000);
    TwoPasses(NEWEST, BETWEEN, OLDEST);
  }

  lemma TwoPasses(x: Entry, y: Entry, z: Entry)
    requires x.time == y.time == z.time == 0 && x.message == y.message == z.message
    requires Recover(x).time == 10_000 && Recover(y).time == 6_000 && Recover(z).time == 2_000
    ensures Merge([x, z], [y]) == [x] && Merge([x, z], [x]) == [x, z]
  {
    var a, b, c := Recover(x), Recover(y), Recover(z);
    var sources := [x, z];
    assert sources[0].name in Names(sources) && sources[1].name in Names(sources);
    assert Names(sources) == {x.name, z.name};
    assert y.name != x.name && y.name != z.name;
    assert OldOnly(Names(sources), [y]) == [y];
    assert RecoverAll(sources + [y]) == [a, c, b];
    SortThree(a, b, c);
    KeepFirst(a, b, c);
    assert TruncateAll([a]) == [x];
    assert OldOnly(Names(sources), [x]) == [];
    assert sources + [] == sources;
    assert RecoverAll(sources) == [a, c];
    SortOfSorted([a, c]);
    KeepBoth(a, c);
    assert TruncateAll([a, c]) == [x, z];
  }

  lemma SortThree(a: Entry, b: Entry, c: Entry)
    requires a.time > b.time > c.time
    ensures SortNewestFirst([a, c, b]) == [a, b, c]
  {
    assert [a, c, b][1..] == [c, b] && [c, b][1..] == [b] && [b][1..] == [];
    assert Insert(b, []) == [b] && Insert(c, []) == [c];
    assert Insert(c, [b]) == [b] + [c];
    assert SortNewestFirst([]) == [];
    assert SortNewestFirst([b]) == [b];
    assert SortNewestFirst([c, b]) == [b, c];
    assert Insert(a, [b, c]) == [a] + [b, c];
  }

  lemma KeepFirst(a: Entry, b: Entry, c: Entry)
    requires TooSimilar(b, a) && TooSimilar(c, b)
    ensures Dedup([a, b, c]) == [a]
  {
    assert [a, b, c][1..] == [b, c] && [b, c][1..] == [c] && [c][1..] == [];
    assert TakeFresh(Some(b), [c], 9) == [];
    assert TakeFresh(Some(a), [b, c], 9) == [];
  }

  lemma KeepBoth(a: Entry, c: Entry)
    requires !TooSimilar(c, a)
    ensures Dedup([a, c]) == [a, c]
  {
    assert [a, c][1..] == [c] && [c][1..] == [];
    assert TakeFresh(Some(a), [c], 9) == [c];
  }

  // ---------------------------------------------------------------- a history without sources

  predicate NeighboursDiffer(s: seq<Entry>) {
    forall i :: 0 < i < |s| ==> !TooSimilar(s[i], s[i - 1])
  }

  predicate DistinctNames(s: seq<Entry>) {
    forall i, j :: 0 <= i < j < |s| ==> s[i].name != s[j].name
  }

  /** The histories that a merge without sources returns unchanged. */
  predicate Settled(h: seq<Entry>) {
    && |h| <= MAX_HISTORY && DistinctNames(h)
    && (forall i :: 0 <= i < |h| ==> Truncate(Recover(h[i])) == h[i])
    && Sorted(RecoverAll(h)) && NeighboursDiffer(RecoverAll(h))
  }

  lemma {:induction false} KeptNeighboursDiffer(previous: Option<Entry>, s: seq<Entry>, room: nat)
    requires After(previous, s)
    ensures NeighboursDiffer(TakeFresh(previous, s, room)) && Sorted(TakeFresh(previous, s, room))
    decreases |s|
  {
    if s != [] && room > 0 {
      AfterTail(previous, s);
      if IsFresh(previous, s[0]) {
        KeptNeighboursDiffer(Some(s[0]), s[1..], room - 1);
        NextKeptDiffers(Some(s[0]), s[0], s[1..], room - 1);
        var rest := TakeFresh(Some(s[0]), s[1..], room - 1);
        if rest != [] { assert rest[0].time <= s[0].time; }
        SortedCons(s[0], rest);
      } else {
        KeptNeighboursDiffer(Some(s[0]), s[1..], room);
      }
    }
  }

  lemma {:induction false} KeepAllDiffering(previous: Option<Entry>, s: seq<Entry>, room: nat)
    requires NeighboursDiffer(s) && |s| <= room && (s != [] ==> IsFresh(previous, s[0]))
    ensures TakeFresh(previous, s, room) == s
    decreases |s|
  {
    if s != [] {
      var tail := s[1..];
      assert forall i :: 0 <= i < |tail| ==> tail[i] == s[i + 1];
      KeepAllDiffering(Some(s[0]), tail, room - 1);
    }
  }

  lemma {:induction false} OldOnlyOfDistinct(taken: set<string>, h: seq<Entry>)
    requires DistinctNames(h) && Names(h) !! taken
    ensures OldOnly(taken, h) == h
    decreases |h|
  {
    if h != [] {
      NamesTail(h);
      var tail := h[1..];
      assert forall i :: 0 <= i < |tail| ==> tail[i] == h[i + 1];
      OldOnlyOfDistinct(taken + {h[0].name}, tail);
    }
  }

  lemma {:induction false} OnceMeansDistinct(s: seq<Entry>)
    requires forall n :: Once(s, n)
    ensures DistinctNames(s)
  {
    if s != [] {
      var tail := s[1..];
      assert forall i :: 0 <= i < |tail| ==> tail[i] == s[i + 1] && tail[i].name in Names(tail);
      forall n ensures Once(tail, n) { assert Once(s, n); }
      OnceMeansDistinct(tail);
      assert Once(s, s[0].name);
      ByNameEmpty(tail, s[0].name);
    }
  }

  /** With normal inputs the kept entries, times and all, can be read back from the stored history. */
  lemma MergeShape(sources: seq<Entry>, stored: seq<Entry>)
    requires AllNormal(sources) && AllNormal(stored)
    ensures RecoverAll(Merge(sources, stored)) == Dedup(Timeline(sources, stored))
    ensures DistinctNames(Merge(sources, stored)) ==> Settled(Merge(sources, stored))
  {
    var timeline := Timeline(sources, stored);
    var kept := Dedup(timeline);
    var _, _ := TimelineParts(sources, stored);
    TakeFreshSubsequence(None, timeline, MAX_HISTORY);
    SubsequenceMembers(kept, timeline);
    forall e | e in kept ensures Recover(Truncate(e)) == e { TimelineIsNormal(sources, stored, e); }
    RecoverAfterTruncate(kept);
    KeptNeighboursDiffer(None, timeline, MAX_HISTORY);
  }

  /** A history survives a merge without sources exactly when it is settled. */
  lemma FixedWithoutSources(h: seq<Entry>)
    ensures Merge([], h) == h <==> Settled(h)
  {
    if Settled(h) {
      assert Names([]) == {};
      OldOnlyOfDistinct({}, h);
      var r := RecoverAll(h);
      assert [] + h == h;
      SortOfSorted(r);
      KeepAllDiffering(None, r, MAX_HISTORY);
      assert TruncateAll(r) == h;
    }
    if Merge([], h) == h {
      MergeIsNormal([], h);
      MergeShape([], h);
      var timeline := Timeline([], h);
      var _, _ := TimelineParts([], h);
      TakeFreshSubsequence(None, timeline, MAX_HISTORY);
      forall n ensures Once(h, n) {
        assert Once(timeline, n);
        OnceInSubsequence(Dedup(timeline), timeline, n);
        TruncateAllByName(Dedup(timeline), {n});
      }
      OnceMeansDistinct(h);
    }
  }

  /** The stored history outlives all of its sources, unless two sources shared a name. */
  lemma HistoryOutlivesSources(sources: seq<Entry>, stored: seq<Entry>)
    requires AllNormal(sources) && AllNormal(stored)
    ensures Merge([], Merge(sources, stored)) == Merge(sources, stored) <==> DistinctNames(Merge(sources, stored))
  {
    MergeShape(sources, stored);
    FixedWithoutSources(Merge(sources, stored));
  }

  /** Distinct source names are enough for that. */
  lemma DistinctSourcesDistinctHistory(sources: seq<Entry>, stored: seq<Entry>)
    requires forall n :: Once(sources, n)
    ensures DistinctNames(Merge(sources, stored))
  {
    var timeline := Timeline(sources, stored);
    var known, extra := TimelineParts(sources, stored);
    TakeFreshSubsequence(None, timeline, MAX_HISTORY);
    forall n ensures Once(Merge(sources, stored), n) {
      if n in Names(sources) {
        SortByName(known + extra, {n});
        ByNameConcat(known, extra, {n});
        ByNameNone(extra, {n});
        SortIsStable(ByName(known + extra, {n}), 0);
        RecoverAllByName(sources, {n});
        assert Once(sources, n);
      }
      assert Once(timeline, n);
      OnceInSubsequence(Dedup(timeline), timeline, n);
      TruncateAllByName(Dedup(timeline), {n});
    }
    OnceMeansDistinct(Merge(sources, stored));
  }

  // ---------------------------------------------------------------- where every event went

  lemma {:induction false} TakeFreshSnoc(previous: Option<Entry>, s: seq<Entry>, e: Entry, room: nat)
    ensures
      var kept := TakeFresh(previous, s, room);
      var last := if s == [] then previous else Some(s[|s| - 1]);
      TakeFresh(previous, s + [e], room) == kept + if |kept| < room && IsFresh(last, e) then [e] else []
    decreases |s|
  {
    if room > 0 {
      if s == [] {
        assert s + [e] == [e] && [e][1..] == [];
      } else {
        assert (s + [e])[1..] == s[1..] + [e] && (s + [e])[0] == s[0];
        TakeFreshSnoc(Some(s[0]), s[1..], e, if IsFresh(previous, s[0]) then room - 1 else room);
      }
    }
  }

  predicate FreshAt(s: seq<Entry>, i: nat)
    requires i < |s|
  {
    i == 0 || !TooSimilar(s[i], s[i - 1])
  }

  /** Entry i of the timeline enters the history. */
  predicate Kept(s: seq<Entry>, i: nat)
    requires i < |s|
  {
    |Dedup(s[..i])| < MAX_HISTORY && FreshAt(s, i)
  }

  lemma {:induction false} DedupPrefix(s: seq<Entry>, i: nat)
    requires i < |s|
    ensures Dedup(s[..i + 1]) == Dedup(s[..i]) + if Kept(s, i) then [s[i]] else []
  {
    assert s[..i + 1] == s[..i] + [s[i]];
    TakeFreshSnoc(None, s[..i], s[i], MAX_HISTORY);
    assert i > 0 ==> s[..i][i - 1] == s[i - 1];
  }

  lemma {:induction false} DedupGrows(s: seq<Entry>, i: nat, j: nat)
    requires i <= j <= |s|
    ensures Dedup(s[..i]) <= Dedup(s[..j])
    decreases j - i
  {
    if i < j {
      DedupPrefix(s, j - 1);
      DedupGrows(s, i, j - 1);
    }
  }

  /** The run of similar neighbours that links entry j to entry i. */
  predicate SimilarRun(s: seq<Entry>, j: nat, i: nat)
    requires j <= i < |s|
  {
    forall k :: j < k <= i ==> TooSimilar(s[k], s[k - 1])
  }

  /** An entry that is not fresh hangs on an earlier fresh one. */
  lemma {:induction false} RunStart(s: seq<Entry>, i: nat) returns (j: nat)
    requires i < |s|
    ensures j <= i && FreshAt(s, j) && SimilarRun(s, j, i)
  {
    if FreshAt(s, i) {
      j := i;
    } else {
      j := RunStart(s, i - 1);
    }
  }

  /**
   * No event is lost without a reason: it is kept, or the history was full before it, or a kept newer entry
   * with the same message reaches it through neighbours less than five microseconds apart.
   */
  lemma EveryEventAccountedFor(s: seq<Entry>, i: nat)
    requires i < |s|
    ensures
      || (Kept(s, i) && |Dedup(s[..i])| < |Dedup(s)| && Dedup(s)[|Dedup(s[..i])|] == s[i])
      || |Dedup(s[..i])| == MAX_HISTORY
      || (exists j :: 0 <= j < i && Kept(s, j) && SimilarRun(s, j, i))
  {
    assert s[..|s|] == s;
    DedupPrefix(s, i);
    DedupGrows(s, i + 1, |s|);
    if !Kept(s, i) && |Dedup(s[..i])| < MAX_HISTORY {
      var j := RunStart(s, i);
      DedupGrows(s, j, i);
      assert Kept(s, j);
    }
  }

  lemma SortNames(s: seq<Entry>)
    ensures Names(SortNewestFirst(s)) == Names(s)
  {
    hide SortNewestFirst;
    var r := SortNewestFirst(s);
    forall n ensures n in Names(r) <==> n in Names(s) {
      SortByName(s, {n});
      ByNameEmpty(r, n);
      ByNameEmpty(s, n);
      SortIsStable(ByName(s, {n}), 0);
    }
  }

  lemma ConcatNames(a: seq<Entry>, b: seq<Entry>)
    ensures Names(a + b) == Names(a) + Names(b)
  {
    var s := a + b;
    assert forall i :: 0 <= i < |a| ==> s[i] == a[i];
    assert forall i :: 0 <= i < |b| ==> s[|a| + i] == b[i];
  }

  /** The timeline holds every source, and every stored entry that no source names, with recovered times. */
  lemma TimelineIsComplete(sources: seq<Entry>, stored: seq<Entry>)
    ensures multiset(Timeline(sources, stored)) == multiset(RecoverAll(sources + OldOnly(Names(sources), stored)))
    ensures Names(Timeline(sources, stored)) == Names(sources) + Names(stored)
  {
    hide SortNewestFirst, RecoverAll, OldOnly, Names;
    var only := OldOnly(Names(sources), stored);
    SortIsStable(RecoverAll(sources + only), 0);
    SortNames(RecoverAll(sources + only));
    RecoverAllNames(sources + only);
    ConcatNames(sources, only);
    OldOnlyCovers(Names(sources), stored);
  }

  lemma {:induction false} OldOnlyCovers(taken: set<string>, stored: seq<Entry>)
    ensures taken + Names(OldOnly(taken, stored)) == taken + Names(stored)
    decreases |stored|
  {
    if stored != [] {
      NamesTail(stored);
      var free := stored[0].name !in taken;
      var more := if free then taken + {stored[0].name} else taken;
      OldOnlyCovers(more, stored[1..]);
      if free {
        var all := OldOnly(taken, stored);
        assert all[1..] == OldOnly(more, stored[1..]);
        NamesTail(all);
      }
    }
  }

  /** The stored history is short, starts with the newest event and never goes forward in time. */
  lemma HistoryIsOrdered(sources: seq<Entry>, stored: seq<Entry>)
    ensures
      var timeline, merged := Timeline(sources, stored), Merge(sources, stored);
      && |merged| <= MAX_HISTORY
      && Sorted(merged)
      && (timeline == [] <==> merged == [])
      && (timeline != [] ==> merged[0] == Truncate(timeline[0]))
      && (forall e :: e in timeline ==> e.time <= timeline[0].time)
  {
    var timeline := Timeline(sources, stored);
    var _, _ := TimelineParts(sources, stored);
    KeptNeighboursDiffer(None, timeline, MAX_HISTORY);
    var kept := Dedup(timeline);
    forall i, j | 0 <= i < j < |kept| ensures Truncate(kept[i]).time >= Truncate(kept[j]).time {
      assert kept[i].time >= kept[j].time;
    }
  }
}
