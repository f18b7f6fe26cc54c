/**
 * The compliance history of one policy template: what mergeDetails computes from the events it is given and the
 * history stored so far, as functions on sequences of entries.
 */
module History {
  import opened Text
  import opened EventCodec

  /** All times count nanoseconds. */
  const SECOND: int := 1_000_000_000
  const SIMILAR_WITHIN: int := 5_000
  const MAX_HISTORY: nat := 10

  datatype Entry = Entry(time: int, message: string, name: string)

  /** An event name with a hexadecimal suffix overrides the recorded time. */
  function Recover(e: Entry): Entry {
    match ParseTimestamp(e.name)
    case Some(t) => e.(time := t)
    case None => e
  }

  /** metav1.Time.Rfc3339Copy: whole seconds, rounding down. */
  function Truncate(e: Entry): Entry {
    e.(time := e.time / SECOND * SECOND)
  }

  function RecoverAll(s: seq<Entry>): (r: seq<Entry>)
    ensures |r| == |s| && forall i :: 0 <= i < |s| ==> r[i] == Recover(s[i])
  {
    if s == [] then [] else [Recover(s[0])] + RecoverAll(s[1..])
  }

  function TruncateAll(s: seq<Entry>): (r: seq<Entry>)
    ensures |r| == |s| && forall i :: 0 <= i < |s| ==> r[i] == Truncate(s[i])
  {
    if s == [] then [] else [Truncate(s[0])] + TruncateAll(s[1..])
  }

  function Names(s: seq<Entry>): set<string> {
    set i | 0 <= i < |s| :: s[i].name
  }

  /** The stored entries whose names are not taken, the first of each name. */
  function OldOnly(taken: set<string>, stored: seq<Entry>): seq<Entry>
    decreases |stored|
  {
    if stored == [] then []
    else if stored[0].name in taken then OldOnly(taken, stored[1..])
    else [stored[0]] + OldOnly(taken + {stored[0].name}, stored[1..])
  }

  function Insert(e: Entry, s: seq<Entry>): seq<Entry> {
    if s == [] || e.time >= s[0].time then [e] + s else [s[0]] + Insert(e, s[1..])
  }

  /** slices.SortStableFunc, newest first. */
  function SortNewestFirst(s: seq<Entry>): seq<Entry> {
    if s == [] then [] else Insert(s[0], SortNewestFirst(s[1..]))
  }

  predicate TimestampsWithin(t1: int, t2: int, threshold: int) {
    t1 - threshold < t2 && t2 < t1 + threshold
  }

  predicate TooSimilar(e: Entry, previous: Entry) {
    TimestampsWithin(e.time, previous.time, SIMILAR_WITHIN) && e.message == previous.message
  }

  predicate IsFresh(previous: Option<Entry>, e: Entry) {
    previous.None? || !TooSimilar(e, previous.value)
  }

  /** The first `room` entries that are not too similar to the entry just before them. */
  function TakeFresh(previous: Option<Entry>, s: seq<Entry>, room: nat): (r: seq<Entry>)
    ensures |r| <= room
    decreases |s|
  {
    if room == 0 || s == [] then []
    else if IsFresh(previous, s[0]) then [s[0]] + TakeFresh(Some(s[0]), s[1..], room - 1)
    else TakeFresh(Some(s[0]), s[1..], room)
  }

  function Dedup(s: seq<Entry>): (r: seq<Entry>)
    ensures |r| <= MAX_HISTORY
  {
    TakeFresh(None, s, MAX_HISTORY)
  }

  /** Every known event of the template, newest first, before similar ones are dropped. */
  function Timeline(sources: seq<Entry>, stored: seq<Entry>): seq<Entry> {
    SortNewestFirst(RecoverAll(sources + OldOnly(Names(sources), stored)))
  }

  /** The history that mergeDetails stores. */
  function Merge(sources: seq<Entry>, stored: seq<Entry>): seq<Entry> {
    TruncateAll(Dedup(Timeline(sources, stored)))
  }

  /** The time of the entry comes back after truncation: from its name, or because nothing was lost. */
  predicate Normal(e: Entry) {
    ParseTimestamp(e.name).Some? || e.time % SECOND == 0
  }

  predicate AllNormal(s: seq<Entry>) {
    forall i :: 0 <= i < |s| ==> Normal(s[i])
  }

  // ---------------------------------------------------------------- stable sorting

  predicate Sorted(s: seq<Entry>) {
    forall i, j :: 0 <= i < j < |s| ==> s[i].time >= s[j].time
  }

  function AtTime(s: seq<Entry>, t: int): seq<Entry> {
    if s == [] then [] else (if s[0].time == t then [s[0]] else []) + AtTime(s[1..], t)
  }

  function ByName(s: seq<Entry>, names: set<string>): seq<Entry> {
    if s == [] then [] else (if s[0].name in names then [s[0]] else []) + ByName(s[1..], names)
  }

  lemma {:induction false} AtTimeConcat(a: seq<Entry>, b: seq<Entry>, t: int)
    ensures AtTime(a + b, t) == AtTime(a, t) + AtTime(b, t)
  {
    if a == [] {
      assert a + b == b;
    } else {
      assert (a + b)[1..] == a[1..] + b;
      AtTimeConcat(a[1..], b, t);
      var head := if a[0].time == t then [a[0]] else [];
      assert head + (AtTime(a[1..], t) + AtTime(b, t)) == head + AtTime(a[1..], t) + AtTime(b, t);
    }
  }

  lemma {:induction false} ByNameConcat(a: seq<Entry>, b: seq<Entry>, names: set<string>)
    ensures ByName(a + b, names) == ByName(a, names) + ByName(b, names)
  {
    if a == [] {
      assert a + b == b;
    } else {
      assert (a + b)[1..] == a[1..] + b;
      ByNameConcat(a[1..], b, names);
      var head := if a[0].name in names then [a[0]] else [];
      assert head + (ByName(a[1..], names) + ByName(b, names)) == head + ByName(a[1..], names) + ByName(b, names);
    }
  }

  lemma {:induction false} FiltersCommute(s: seq<Entry>, names: set<string>, t: int)
    ensures AtTime(ByName(s, names), t) == ByName(AtTime(s, t), names)
  {
    if s != [] {
      FiltersCommute(s[1..], names, t);
      var head := if s[0].name in names then [s[0]] else [];
      var now := if s[0].time == t then [s[0]] else [];
      AtTimeConcat(head, ByName(s[1..], names), t);
      ByNameConcat(now, AtTime(s[1..], t), names);
    }
  }

  lemma {:induction false} InsertKeepsAll(e: Entry, s: seq<Entry>)
    ensures multiset(Insert(e, s)) == multiset{e} + multiset(s)
  {
    if s != [] && e.time < s[0].time {
      InsertKeepsAll(e, s[1..]);
      assert s == [s[0]] + s[1..];
    }
  }

  lemma SortedCons(e: Entry, s: seq<Entry>)
    requires Sorted(s) && (s != [] ==> e.time >= s[0].time)
    ensures Sorted([e] + s)
  {
    var r := [e] + s;
    assert forall i :: 0 < i < |r| ==> r[i] == s[i - 1] && s[i - 1].time <= e.time;
  }

  lemma {:induction false} InsertSorts(e: Entry, s: seq<Entry>)
    requires Sorted(s)
    ensures Sorted(Insert(e, s))
  {
    if s == [] || e.time >= s[0].time {
      SortedCons(e, s);
    } else {
      InsertSorts(e, s[1..]);
      SortedCons(s[0], Insert(e, s[1..]));
    }
  }

  lemma {:induction false} InsertKeepsOrderAtTime(e: Entry, s: seq<Entry>, t: int)
    requires Sorted(s)
    ensures AtTime(Insert(e, s), t) == AtTime([e] + s, t)
  {
    assert ([e] + s)[1..] == s;
    if s != [] && e.time < s[0].time {
      InsertKeepsOrderAtTime(e, s[1..], t);
      assert ([e] + s[1..])[1..] == s[1..];
      assert Insert(e, s)[1..] == Insert(e, s[1..]);
    }
  }

  /** The contract of a stable sort: ordered, and entries of one time in their original order. */
  lemma {:induction false} SortIsStable(s: seq<Entry>, t: int)
    ensures Sorted(SortNewestFirst(s))
    ensures multiset(SortNewestFirst(s)) == multiset(s)
    ensures |SortNewestFirst(s)| == |s|
    ensures AtTime(SortNewestFirst(s), t) == AtTime(s, t)
  {
    if s != [] {
      var rest := SortNewestFirst(s[1..]);
      SortIsStable(s[1..], t);
      InsertSorts(s[0], rest);
      InsertKeepsAll(s[0], rest);
      InsertKeepsOrderAtTime(s[0], rest, t);
      assert ([s[0]] + rest)[1..] == rest;
      assert s == [s[0]] + s[1..];
      assert |multiset(SortNewestFirst(s))| == |multiset(s)|;
    }
  }

  lemma {:induction false} AtTimeMember(s: seq<Entry>, e: Entry)
    ensures e in AtTime(s, e.time) <==> e in s
  {
    if s != [] {
      AtTimeMember(s[1..], e);
      assert s == [s[0]] + s[1..];
    }
  }

  /** A stable sort is unique: two ordered sequences that agree at every time are equal. */
  lemma {:induction false} StableSortUnique(a: seq<Entry>, b: seq<Entry>)
    requires Sorted(a) && Sorted(b)
    requires forall t :: AtTime(a, t) == AtTime(b, t)
    ensures a == b
  {
    if a == [] || b == [] {
      if a != [] { AtTimeMember(a, a[0]); AtTimeMember(b, a[0]); }
      if b != [] { AtTimeMember(a, b[0]); AtTimeMember(b, b[0]); }
    } else {
      AtTimeMember(a, a[0]); AtTimeMember(b, a[0]);
      AtTimeMember(a, b[0]); AtTimeMember(b, b[0]);
      assert a[0] in b && b[0] in a;
      assert a[0].time == b[0].time;
      assert AtTime(a, a[0].time)[0] == a[0] && AtTime(b, a[0].time)[0] == b[0];
      forall t ensures AtTime(a[1..], t) == AtTime(b[1..], t) {
        assert AtTime(a, t) == AtTime(b, t);
        if t == a[0].time {
          assert AtTime(a, t)[1..] == AtTime(a[1..], t);
          assert AtTime(b, t)[1..] == AtTime(b[1..], t);
        } else {
          assert AtTime(a, t) == AtTime(a[1..], t);
          assert AtTime(b, t) == AtTime(b[1..], t);
        }
      }
      StableSortUnique(a[1..], b[1..]);
      assert a == [a[0]] + a[1..] && b == [b[0]] + b[1..];
    }
  }

  lemma SortOfSorted(s: seq<Entry>)
    requires Sorted(s)
    ensures SortNewestFirst(s) == s
  {
    forall t ensures AtTime(SortNewestFirst(s), t) == AtTime(s, t) { SortIsStable(s, t); }
    SortIsStable(s, 0);
    StableSortUnique(SortNewestFirst(s), s);
  }

  lemma SortAfterSort(a: seq<Entry>, b: seq<Entry>)
    ensures SortNewestFirst(a + SortNewestFirst(b)) == SortNewestFirst(a + b)
  {
    var l, r := SortNewestFirst(a + SortNewestFirst(b)), SortNewestFirst(a + b);
    forall t ensures AtTime(l, t) == AtTime(r, t) {
      SortIsStable(a + SortNewestFirst(b), t);
      SortIsStable(a + b, t);
      SortIsStable(b, t);
      AtTimeConcat(a, SortNewestFirst(b), t);
      AtTimeConcat(a, b, t);
    }
    SortIsStable(a + SortNewestFirst(b), 0);
    SortIsStable(a + b, 0);
    StableSortUnique(l, r);
  }

  lemma {:induction false} ByNameMembers(s: seq<Entry>, names: set<string>)
    ensures forall e :: e in ByName(s, names) <==> e in s && e.name in names
  {
    if s != [] {
      ByNameMembers(s[1..], names);
      assert s == [s[0]] + s[1..];
    }
  }

  lemma {:induction false} ByNameSorted(s: seq<Entry>, names: set<string>)
    requires Sorted(s)
    ensures Sorted(ByName(s, names))
  {
    if s != [] {
      ByNameSorted(s[1..], names);
      ByNameMembers(s[1..], names);
      assert forall e :: e in s[1..] ==> e.time <= s[0].time;
      var rest := ByName(s[1..], names);
      assert forall i :: 0 <= i < |rest| ==> rest[i] in rest;
    }
  }

  /** Dropping entries by name and sorting can be done in either order. */
  lemma SortByName(s: seq<Entry>, names: set<string>)
    ensures ByName(SortNewestFirst(s), names) == SortNewestFirst(ByName(s, names))
  {
    var l, r := ByName(SortNewestFirst(s), names), SortNewestFirst(ByName(s, names));
    forall t ensures AtTime(l, t) == AtTime(r, t) {
      FiltersCommute(SortNewestFirst(s), names, t);
      FiltersCommute(s, names, t);
      SortIsStable(s, t);
      SortIsStable(ByName(s, names), t);
    }
    SortIsStable(s, 0);
    SortIsStable(ByName(s, names), 0);
    ByNameSorted(SortNewestFirst(s), names);
    StableSortUnique(l, r);
  }
}
