/**
  Days, sessions and overnight segments of a series, stated by recounting its bars
  (contextcols/levels.go, columns.go, session.go).
*/
module DaySegments {
  import opened Common

  const HOUR := 3600000
  const DAY := 86400000

  /** UTCDayKey. */
  function Key(t: int): int {
    FloorDiv(t, DAY)
  }

  lemma KeyIs(t: int)
    ensures Key(t) * DAY <= t < Key(t) * DAY + DAY
  {
    FloorDivIsFloor(t, DAY);
  }

  lemma KeyOrder(s: int, t: int)
    ensures s <= t ==> Key(s) <= Key(t)
    ensures Key(s) < Key(t) ==> s < Key(t) * DAY
  {
    hide Key;
    KeyIs(s);
    KeyIs(t);
  }

  ghost predicate Sorted(bars: seq<Bar>) {
    forall i, j :: 0 <= i < j < |bars| ==> bars[i].t <= bars[j].t
  }

  datatype Summary = Summary(o: real, h: real, l: real, c: real, first: nat, last: nat)

  /**
    A part of the day that starts `start` and ends `end` milliseconds after midnight; it may
    reach into the next day.
  */
  datatype Segment = Segment(start: int, end: int) {
    predicate Valid() {
      0 <= start < end
    }
  }

  const ASIA := Segment(0, 8 * HOUR)
  const LONDON := Segment(7 * HOUR, 16 * HOUR)
  const NEW_YORK := Segment(12 * HOUR, 21 * HOUR)
  const OVERNIGHT := Segment(20 * HOUR, 32 * HOUR)

  datatype Run = Run(start: int, end: int, o: real, h: real, l: real, c: real)

  /** The first n bars of one day, summarised. */
  function SummaryOf(bars: seq<Bar>, n: nat, key: int): Option<Summary>
    requires n <= |bars|
  {
    if n == 0 then None
    else
      var before := SummaryOf(bars, n - 1, key);
      var b := bars[n - 1];
      if Key(b.t) != key then before
      else match before
        case None => Some(Summary(b.o, b.h, b.l, b.c, n - 1, n - 1))
        case Some(s) => Some(Summary(s.o, Max(s.h, b.h), Min(s.l, b.l), b.c, s.first, n - 1))
  }

  /** The bars of lo..n-1 that open in [start, end), as one candle. */
  function RunOf(bars: seq<Bar>, lo: nat, n: nat, start: int, end: int): Option<Run>
    requires n <= |bars|
  {
    if n <= lo then None
    else
      var before := RunOf(bars, lo, n - 1, start, end);
      var b := bars[n - 1];
      if b.t < start || b.t >= end then before
      else match before
        case None => Some(Run(start, end, b.o, b.h, b.l, b.c))
        case Some(r) => Some(Run(start, end, r.o, Max(r.h, b.h), Min(r.l, b.l), b.c))
  }

  /** The days of the first n bars in order of first appearance. */
  function Keys(bars: seq<Bar>, n: nat): seq<int>
    requires n <= |bars|
  {
    if n == 0 then []
    else
      var before := Keys(bars, n - 1);
      before + if Key(bars[n - 1].t) in before then [] else [Key(bars[n - 1].t)]
  }

  function RunOn(bars: seq<Bar>, n: nat, key: int, s: Segment): Option<Run>
    requires n <= |bars|
  {
    RunOf(bars, 0, n, key * DAY + s.start, key * DAY + s.end)
  }

  function ListOf(r: Option<Run>): seq<Run> {
    if r.Some? then [r.value] else []
  }

  /** One run per day that has one. */
  function Runs(bars: seq<Bar>, n: nat, keys: seq<int>, s: Segment): seq<Run>
    requires n <= |bars|
  {
    if keys == [] then []
    else Runs(bars, n, keys[..|keys| - 1], s) + ListOf(RunOn(bars, n, keys[|keys| - 1], s))
  }

  /** The runs that are over by t. */
  function Ended(runs: seq<Run>, t: int): seq<Run> {
    if runs == [] then []
    else Ended(runs[..|runs| - 1], t) + if runs[|runs| - 1].end <= t then [runs[|runs| - 1]] else []
  }

  /** The last run of the first n bars that is over by t. */
  function LastRun(bars: seq<Bar>, n: nat, s: Segment, t: int): Option<Run>
    requires n <= |bars|
  {
    var over := Ended(Runs(bars, n, Keys(bars, n), s), t);
    if over == [] then None else Some(over[|over| - 1])
  }

  ghost predicate Ascending(keys: seq<int>) {
    forall i, j :: 0 <= i < j < |keys| ==> keys[i] < keys[j]
  }

  /** For a sorted series the days come in order, so this is also the sorted list of its days. */
  lemma {:induction false} KeysAscend(bars: seq<Bar>, n: nat)
    requires n <= |bars| && Sorted(bars)
    ensures Ascending(Keys(bars, n))
    ensures forall k :: k in Keys(bars, n) <==> SummaryOf(bars, n, k).Some?
    ensures n > 0 ==> Keys(bars, n) != [] && Keys(bars, n)[|Keys(bars, n)| - 1] == Key(bars[n - 1].t)
  {
    hide Key;
    if n > 0 {
      var before, key := Keys(bars, n - 1), Key(bars[n - 1].t);
      KeysAscend(bars, n - 1);
      if n > 1 {
        assert bars[n - 2].t <= bars[n - 1].t;
        KeyOrder(bars[n - 2].t, bars[n - 1].t);
      }
      forall k
        ensures k in Keys(bars, n) <==> SummaryOf(bars, n, k).Some?
      {
      }
    }
  }

  /** Any strictly ascending list of the same days is the same list. */
  lemma {:induction false} AscendingIsUnique(a: seq<int>, b: seq<int>)
    requires Ascending(a) && Ascending(b) && forall k :: k in a <==> k in b
    ensures a == b
  {
    if a == [] {
      HasFirst(b);
    } else {
      assert a[|a| - 1] in b && b != [];
      assert b[|b| - 1] in a;
      var p, q := a[..|a| - 1], b[..|b| - 1];
      assert a[|a| - 1] == b[|b| - 1];
      assert forall k :: k in p <==> k in a && k != a[|a| - 1];
      assert forall k :: k in q <==> k in b && k != b[|b| - 1];
      AscendingIsUnique(p, q);
    }
  }

  lemma HasFirst(keys: seq<int>)
    ensures keys != [] ==> keys[0] in keys
  {
  }

  // ----- what a summary and a run mean

  predicate OnDay(b: Bar, key: int) {
    Key(b.t) == key
  }

  predicate Inside(b: Bar, start: int, end: int) {
    start <= b.t < end
  }

  /** First open, extremes, last close and the first and last index of the day. */
  lemma {:induction false} SummaryMeans(bars: seq<Bar>, n: nat, key: int)
    requires n <= |bars|
    ensures match SummaryOf(bars, n, key)
            case None => forall j :: 0 <= j < n ==> !OnDay(bars[j], key)
            case Some(s) =>
              && s.first <= s.last < n && OnDay(bars[s.first], key) && OnDay(bars[s.last], key)
              && s.o == bars[s.first].o && s.c == bars[s.last].c
              && (forall j :: 0 <= j < n && OnDay(bars[j], key) ==>
                  s.first <= j <= s.last && s.l <= bars[j].l && bars[j].h <= s.h)
              && (exists j :: 0 <= j < n && OnDay(bars[j], key) && bars[j].h == s.h)
              && (exists j :: 0 <= j < n && OnDay(bars[j], key) && bars[j].l == s.l)
  {
    hide Key;
    if n > 0 {
      SummaryMeans(bars, n - 1, key);
      if OnDay(bars[n - 1], key) {
        assert SummaryOf(bars, n, key).Some?;
        var b, s := bars[n - 1], SummaryOf(bars, n, key).value;
        assert bars[n - 1].h == s.h || SummaryOf(bars, n - 1, key).Some?;
      }
    }
  }

  /** First open, extremes and last close of the bars inside. */
  lemma {:induction false} RunMeans(bars: seq<Bar>, n: nat, start: int, end: int)
    requires n <= |bars|
    ensures match RunOf(bars, 0, n, start, end)
            case None => forall j :: 0 <= j < n ==> !Inside(bars[j], start, end)
            case Some(r) =>
              && r.start == start && r.end == end
              && (forall j :: 0 <= j < n && Inside(bars[j], start, end) ==> r.l <= bars[j].l && bars[j].h <= r.h)
              && (exists j :: 0 <= j < n && Inside(bars[j], start, end) && bars[j].h == r.h)
              && (exists j :: 0 <= j < n && Inside(bars[j], start, end) && bars[j].l == r.l)
              && (exists j :: 0 <= j < n && Inside(bars[j], start, end) && bars[j].o == r.o
                              && forall k :: 0 <= k < j ==> !Inside(bars[k], start, end))
              && (exists j :: 0 <= j < n && Inside(bars[j], start, end) && bars[j].c == r.c
                              && forall k :: j < k < n ==> !Inside(bars[k], start, end))
  {
    if n > 0 {
      RunMeans(bars, n - 1, start, end);
      if Inside(bars[n - 1], start, end) {
        var r := RunOf(bars, 0, n, start, end).value;
        assert bars[n - 1].c == r.c;
        if RunOf(bars, 0, n - 1, start, end).None? {
          assert bars[n - 1].o == r.o && bars[n - 1].h == r.h && bars[n - 1].l == r.l;
        } else {
          assert r.h == bars[n - 1].h || r.h == RunOf(bars, 0, n - 1, start, end).value.h;
          assert r.l == bars[n - 1].l || r.l == RunOf(bars, 0, n - 1, start, end).value.l;
        }
      }
    }
  }

  /** Bars before and after that are not inside may be skipped. */
  lemma {:induction false} RunSkips(bars: seq<Bar>, lo: nat, m: nat, n: nat, start: int, end: int)
    requires lo <= m <= n <= |bars|
    requires forall j :: 0 <= j < lo ==> !Inside(bars[j], start, end)
    requires forall j :: m <= j < n ==> !Inside(bars[j], start, end)
    ensures RunOf(bars, 0, n, start, end) == RunOf(bars, lo, m, start, end)
    decreases n
  {
    if m < n {
      assert !Inside(bars[n - 1], start, end);
      RunSkips(bars, lo, m, n - 1, start, end);
    } else if n > lo {
      RunSkips(bars, lo, m - 1, m - 1, start, end);
    } else if n > 0 {
      assert !Inside(bars[n - 1], start, end);
      RunSkips(bars, n - 1, n - 1, n - 1, start, end);
    }
  }

  // ----- what later bars change

  lemma {:induction false} RunsLength(bars: seq<Bar>, n: nat, keys: seq<int>, key: int, s: Segment)
    requires n <= |bars|
    ensures Runs(bars, n, keys + [key], s) == Runs(bars, n, keys, s) + ListOf(RunOn(bars, n, key, s))
  {
    assert (keys + [key])[..|keys|] == keys;
  }

  lemma EndedAppend(runs: seq<Run>, r: Option<Run>, t: int)
    ensures Ended(runs + ListOf(r), t) == Ended(runs, t) + ListOf(if r.Some? && r.value.end <= t then r else None)
  {
    if r.Some? {
      assert (runs + [r.value])[..|runs|] == runs;
    } else {
      assert runs + [] == runs;
      assert Ended(runs, t) + [] == Ended(runs, t);
    }
  }

  /** A bar at or after t does not change the runs that are over by t. */
  lemma {:induction false} EndedKeeps(bars: seq<Bar>, n: nat, keys: seq<int>, s: Segment, t: int)
    requires n < |bars| && bars[n].t >= t
    ensures Ended(Runs(bars, n + 1, keys, s), t) == Ended(Runs(bars, n, keys, s), t)
  {
    if keys != [] {
      var k, front := keys[|keys| - 1], keys[..|keys| - 1];
      assert keys == front + [k];
      EndedKeeps(bars, n, front, s, t);
      hide Runs, Ended;
      RunsLength(bars, n, front, k, s);
      RunsLength(bars, n + 1, front, k, s);
      EndedAppend(Runs(bars, n, front, s), RunOn(bars, n, k, s), t);
      EndedAppend(Runs(bars, n + 1, front, s), RunOn(bars, n + 1, k, s), t);
      RunEnds(bars, n, k, s);
      RunEnds(bars, n + 1, k, s);
      if k * DAY + s.end <= t {
        assert RunOn(bars, n + 1, k, s) == RunOn(bars, n, k, s);
      }
    }
  }

  lemma RunEnds(bars: seq<Bar>, n: nat, key: int, s: Segment)
    requires n <= |bars|
    ensures RunOn(bars, n, key, s).Some? ==> RunOn(bars, n, key, s).value.end == key * DAY + s.end
  {
    RunMeans(bars, n, key * DAY + s.start, key * DAY + s.end);
  }

  /** Nor does a new day that such a bar opens. */
  lemma LastRunKeeps(bars: seq<Bar>, n: nat, s: Segment, t: int)
    requires 0 < n < |bars| && Sorted(bars) && s.Valid() && t <= bars[n - 1].t
    ensures LastRun(bars, n + 1, s, t) == LastRun(bars, n, s, t)
  {
    hide Key, Runs, Ended, RunOn;
    var keys, key := Keys(bars, n), Key(bars[n].t);
    assert t <= bars[n - 1].t <= bars[n].t;
    EndedKeeps(bars, n, keys, s, t);
    if key !in keys {
      KeysAscend(bars, n);
      assert keys[|keys| - 1] in keys;
      KeyOrder(bars[n - 1].t, bars[n].t);
      RunsLength(bars, n + 1, keys, key, s);
      EndedAppend(Runs(bars, n + 1, keys, s), RunOn(bars, n + 1, key, s), t);
      RunEnds(bars, n + 1, key, s);
      assert t < key * DAY < key * DAY + s.end;
      assert Ended(Runs(bars, n + 1, keys, s), t) + [] == Ended(Runs(bars, n + 1, keys, s), t);
    } else {
      assert keys + [] == keys;
    }
  }

  /** No look-ahead: the last session or overnight run at bar i is the one the first i+1 bars give. */
  lemma {:induction false} LastRunIsCausal(bars: seq<Bar>, n: nat, i: nat, s: Segment)
    requires i < n <= |bars| && Sorted(bars) && s.Valid()
    ensures LastRun(bars, n, s, bars[i].t) == LastRun(bars, i + 1, s, bars[i].t)
  {
    hide LastRun;
    if i + 1 < n {
      LastRunIsCausal(bars, n - 1, i, s);
      assert bars[i].t <= bars[n - 2].t;
      LastRunKeeps(bars, n - 1, s, bars[i].t);
    }
  }

  lemma {:induction false} SummaryKeeps(bars: seq<Bar>, m: nat, n: nat, key: int)
    requires m <= n <= |bars| && forall j :: m <= j < n ==> !OnDay(bars[j], key)
    ensures SummaryOf(bars, n, key) == SummaryOf(bars, m, key)
  {
    hide Key;
    if m < n {
      assert !OnDay(bars[n - 1], key);
      SummaryKeeps(bars, m, n - 1, key);
    }
  }

  lemma {:induction false} KeysGrow(bars: seq<Bar>, m: nat, n: nat)
    requires m <= n <= |bars|
    ensures Keys(bars, m) <= Keys(bars, n)
  {
    if m < n {
      KeysGrow(bars, m, n - 1);
    }
  }

  lemma {:induction false} SegmentsPrefix(bars: seq<Bar>, n: nat, m: nat, key: int, lo: nat, start: int, end: int)
    requires n <= m <= |bars|
    ensures SummaryOf(bars[..m], n, key) == SummaryOf(bars, n, key)
    ensures Keys(bars[..m], n) == Keys(bars, n)
    ensures RunOf(bars[..m], lo, n, start, end) == RunOf(bars, lo, n, start, end)
  {
    hide Key;
    if n > 0 {
      SegmentsPrefix(bars, n - 1, m, key, lo, start, end);
      assert bars[..m][n - 1] == bars[n - 1];
    }
  }

  lemma {:induction false} RunsPrefix(bars: seq<Bar>, n: nat, m: nat, keys: seq<int>, s: Segment)
    requires n <= m <= |bars|
    ensures Runs(bars[..m], n, keys, s) == Runs(bars, n, keys, s)
  {
    hide RunOf;
    if keys != [] {
      RunsPrefix(bars, n, m, keys[..|keys| - 1], s);
      SegmentsPrefix(bars, n, m, 0, 0, keys[|keys| - 1] * DAY + s.start, keys[|keys| - 1] * DAY + s.end);
    }
  }
}
