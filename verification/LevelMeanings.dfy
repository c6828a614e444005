/**
  What the level columns show at a bar, said of dates, hours and bars: the last finished session of
  each kind, the date before, and the mean width of the dates before.
*/
module LevelMeanings {
  import opened Common
  import opened DaySegments
  import opened LevelColumns

  /** The bar opens on UTC date d, counted from the epoch. */
  predicate OnDate(b: Bar, d: int) {
    86_400_000 * d <= b.t < 86_400_000 * (d + 1)
  }

  /** Date d has a bar among the first n. */
  ghost predicate Dated(bars: seq<Bar>, n: nat, d: int) {
    exists j :: 0 <= j < n && j < |bars| && OnDate(bars[j], d)
  }

  /** The bar opens between two hours of date d; hours past 24 are those of the next date. */
  predicate InHours(b: Bar, d: int, from: int, to: int) {
    3_600_000 * (24 * d + from) <= b.t < 3_600_000 * (24 * d + to)
  }

  /** Among the first n bars, j is the first and k the last that open in these hours. */
  ghost predicate Ends(bars: seq<Bar>, n: nat, d: int, from: int, to: int, j: nat, k: nat) {
    && j <= k < n <= |bars| && InHours(bars[j], d, from, to) && InHours(bars[k], d, from, to)
    && forall i :: 0 <= i < n && InHours(bars[i], d, from, to) ==> j <= i <= k
  }

  /** The bars of these hours as one candle. */
  ghost predicate Candle(bars: seq<Bar>, n: nat, d: int, from: int, to: int, o: real, h: real, l: real, c: real) {
    && n <= |bars|
    && (exists j: nat, k: nat :: Ends(bars, n, d, from, to, j, k) && bars[j].o == o && bars[k].c == c)
    && (forall i :: 0 <= i < n && InHours(bars[i], d, from, to) ==> l <= bars[i].l && bars[i].h <= h)
    && (exists i :: 0 <= i < n && InHours(bars[i], d, from, to) && bars[i].h == h)
    && (exists i :: 0 <= i < n && InHours(bars[i], d, from, to) && bars[i].l == l)
  }

  lemma DateIs(b: Bar, d: int)
    ensures OnDay(b, d) <==> OnDate(b, d)
    ensures OnDate(b, d) <==> InHours(b, d, 0, 24)
  {
    KeyIs(b.t);
    hide Key;
  }

  // ----- sessions

  /** The session of date d, of a date that has a bar, is over by t and has a bar. */
  ghost predicate Finished(bars: seq<Bar>, n: nat, d: int, from: int, to: int, t: int) {
    && Dated(bars, n, d) && 3_600_000 * (24 * d + to) <= t
    && exists i :: 0 <= i < n && i < |bars| && InHours(bars[i], d, from, to)
  }

  /** The latest finished session by t, or none. */
  ghost predicate LastSession(bars: seq<Bar>, n: nat, from: int, to: int, t: int, shown: Option<Run>) {
    match shown
    case None => forall d :: !Finished(bars, n, d, from, to, t)
    case Some(r) => exists d :: LatestOn(bars, n, from, to, t, d) && Candle(bars, n, d, from, to, r.o, r.h, r.l, r.c)
  }

  ghost predicate LatestOn(bars: seq<Bar>, n: nat, from: int, to: int, t: int, d: int) {
    Finished(bars, n, d, from, to, t) && forall e :: Finished(bars, n, e, from, to, t) ==> e <= d
  }

  lemma RunIsCandle(bars: seq<Bar>, n: nat, d: int, from: int, to: int)
    requires n <= |bars|
    ensures var run := RunOn(bars, n, d, Segment(from * HOUR, to * HOUR));
            && (run.Some? <==> exists i :: 0 <= i < n && InHours(bars[i], d, from, to))
            && (run.Some? ==>
                  && Candle(bars, n, d, from, to, run.value.o, run.value.h, run.value.l, run.value.c)
                  && run.value.end == 3_600_000 * (24 * d + to))
  {
    var start, end := d * DAY + from * HOUR, d * DAY + to * HOUR;
    RunMeans(bars, n, start, end);
    forall i | 0 <= i < n
      ensures Inside(bars[i], start, end) <==> InHours(bars[i], d, from, to)
    {
    }
    var run := RunOf(bars, 0, n, start, end);
    hide Inside, InHours, RunOf;
    if run.Some? {
      var j: nat :| j < n && Inside(bars[j], start, end) && bars[j].o == run.value.o
                    && forall k :: 0 <= k < j ==> !Inside(bars[k], start, end);
      var k: nat :| k < n && Inside(bars[k], start, end) && bars[k].c == run.value.c
                    && forall i :: k < i < n ==> !Inside(bars[i], start, end);
      assert Ends(bars, n, d, from, to, j, k);
    }
  }

  /** The last of the runs that are over comes from the last listed day whose run is over. */
  lemma {:induction false} LastOver(bars: seq<Bar>, n: nat, keys: seq<int>, s: Segment, t: int)
    requires n <= |bars| && Ascending(keys)
    ensures var over := Ended(Runs(bars, n, keys, s), t);
            if over == [] then forall d :: d in keys ==> !Over(bars, n, d, s, t)
            else exists d :: RunOn(bars, n, d, s) == Some(over[|over| - 1]) && LastOf(bars, n, keys, s, t, d)
  {
    if keys != [] {
      var d, front := keys[|keys| - 1], keys[..|keys| - 1];
      assert keys == front + [d];
      assert forall k :: 0 <= k < |front| ==> front[k] == keys[k] < d;
      LastOver(bars, n, front, s, t);
      hide Runs, Ended, RunOn;
      RunsLength(bars, n, front, d, s);
      EndedAppend(Runs(bars, n, front, s), RunOn(bars, n, d, s), t);
      var before, over := Ended(Runs(bars, n, front, s), t), Ended(Runs(bars, n, keys, s), t);
      if Over(bars, n, d, s, t) {
        assert over == before + [RunOn(bars, n, d, s).value];
        LastAdded(bars, n, front, d, s, t);
      } else {
        assert over == before + [] == before;
        if before != [] {
          var e :| RunOn(bars, n, e, s) == Some(before[|before| - 1]) && LastOf(bars, n, front, s, t, e);
          LastKept(bars, n, front, d, s, t, e);
        }
      }
    }
  }

  lemma LastAdded(bars: seq<Bar>, n: nat, front: seq<int>, d: int, s: Segment, t: int)
    requires n <= |bars| && (forall k :: 0 <= k < |front| ==> front[k] < d) && Over(bars, n, d, s, t)
    ensures LastOf(bars, n, front + [d], s, t, d)
  {
    hide Over;
    assert d in front + [d];
    forall e | e in front + [d]
      ensures e <= d
    {
      assert e in front || e == d;
    }
  }

  lemma LastKept(bars: seq<Bar>, n: nat, front: seq<int>, d: int, s: Segment, t: int, e: int)
    requires n <= |bars| && LastOf(bars, n, front, s, t, e) && !Over(bars, n, d, s, t)
    ensures LastOf(bars, n, front + [d], s, t, e)
  {
    hide Over;
  }

  ghost predicate Over(bars: seq<Bar>, n: nat, d: int, s: Segment, t: int)
    requires n <= |bars|
  {
    RunOn(bars, n, d, s).Some? && RunOn(bars, n, d, s).value.end <= t
  }

  ghost predicate LastOf(bars: seq<Bar>, n: nat, keys: seq<int>, s: Segment, t: int, d: int)
    requires n <= |bars|
  {
    d in keys && Over(bars, n, d, s, t) && forall e :: e in keys && Over(bars, n, e, s, t) ==> e <= d
  }

  lemma KeysAreDates(bars: seq<Bar>, n: nat, d: int)
    requires n <= |bars| && Sorted(bars)
    ensures Ascending(Keys(bars, n)) && (d in Keys(bars, n) <==> Dated(bars, n, d))
  {
    hide Keys, Key;
    KeysAscend(bars, n);
    SummaryMeans(bars, n, d);
    hide SummaryOf, Ascending;
    forall j | 0 <= j < n
      ensures OnDay(bars[j], d) <==> OnDate(bars[j], d)
    {
      DateIs(bars[j], d);
    }
  }

  lemma FinishedIs(bars: seq<Bar>, n: nat, from: int, to: int, t: int, d: int)
    requires n <= |bars| && Sorted(bars)
    ensures d in Keys(bars, n) && Over(bars, n, d, Segment(from * HOUR, to * HOUR), t)
            <==> Finished(bars, n, d, from, to, t)
  {
    KeysAreDates(bars, n, d);
    RunIsCandle(bars, n, d, from, to);
    hide Keys, RunOn, InHours, Dated, Candle;
  }

  /** The shown run is the latest session of its hours that is over. */
  lemma LastRunShown(bars: seq<Bar>, n: nat, from: int, to: int, t: int)
    requires n <= |bars| && Sorted(bars)
    ensures LastSession(bars, n, from, to, t, LastRun(bars, n, Segment(from * HOUR, to * HOUR), t))
  {
    hide Keys, RunOn, Finished, Candle, Over, Runs, Ended;
    var s, keys := Segment(from * HOUR, to * HOUR), Keys(bars, n);
    KeysAreDates(bars, n, 0);
    LastOver(bars, n, keys, s, t);
    forall d
      ensures d in keys && Over(bars, n, d, s, t) <==> Finished(bars, n, d, from, to, t)
    {
      FinishedIs(bars, n, from, to, t, d);
    }
    var shown := LastRun(bars, n, s, t);
    if shown.Some? {
      var d :| RunOn(bars, n, d, s) == shown && LastOf(bars, n, keys, s, t, d);
      RunIsCandle(bars, n, d, from, to);
      assert LatestOn(bars, n, from, to, t, d);
    }
  }

  /**
    At every bar the session levels are the candles of the latest finished Asian session (0 to 8 UTC),
    London session (7 to 16), New York session (12 to 21) and overnight segment (20 to 8).
  */
  lemma SessionsShown(bars: seq<Bar>, n: nat, i: nat, lookback: nat)
    requires i < n <= |bars| && Sorted(bars)
    ensures var row, t := RowAt(bars, n, i, lookback), bars[i].t;
            && LastSession(bars, n, 0, 8, t, row.asia)
            && LastSession(bars, n, 7, 16, t, row.london)
            && LastSession(bars, n, 12, 21, t, row.newYork)
            && LastSession(bars, n, 20, 32, t, row.overnight)
  {
    hide LastSession, LastRun, Keys;
    var t := bars[i].t;
    LastRunShown(bars, n, 0, 8, t);
    LastRunShown(bars, n, 7, 16, t);
    LastRunShown(bars, n, 12, 21, t);
    LastRunShown(bars, n, 20, 32, t);
  }

  // ----- the date before

  /** Date d is the last one with a bar before date e. */
  ghost predicate LastDateBefore(bars: seq<Bar>, n: nat, e: int, d: int) {
    d < e && Dated(bars, n, d) && forall x :: d < x < e ==> !Dated(bars, n, x)
  }

  lemma SummaryIsCandle(bars: seq<Bar>, n: nat, d: int)
    requires n <= |bars|
    ensures var s := SummaryOf(bars, n, d);
            && (s.Some? <==> Dated(bars, n, d))
            && (s.Some? ==> Candle(bars, n, d, 0, 24, s.value.o, s.value.h, s.value.l, s.value.c))
  {
    SummaryMeans(bars, n, d);
    forall j | 0 <= j < n
      ensures (OnDay(bars[j], d) <==> OnDate(bars[j], d)) && (OnDate(bars[j], d) <==> InHours(bars[j], d, 0, 24))
    {
      DateIs(bars[j], d);
    }
    hide OnDay, OnDate, InHours, SummaryOf;
    var s := SummaryOf(bars, n, d);
    if s.Some? {
      assert Ends(bars, n, d, 0, 24, s.value.first, s.value.last);
    }
  }

  lemma RowParts(bars: seq<Bar>, n: nat, i: nat, lookback: nat)
    requires i < n <= |bars|
    ensures RowAt(bars, n, i, lookback).prior == PriorDay(bars, n, i)
    ensures RowAt(bars, n, i, lookback).average == PriorAverage(bars, n, i, lookback)
  {
    hide PriorDay, PriorAverage, LastRun, RunningAt;
  }

  lemma DatePosition(bars: seq<Bar>, n: nat, i: nat, e: int) returns (p: nat)
    requires i < n <= |bars| && Sorted(bars) && OnDate(bars[i], e)
    ensures p < |Keys(bars, n)| && Keys(bars, n)[p] == e && Earlier(bars, n, i) == Keys(bars, n)[..p]
  {
    hide Keys, Upto, Sorted, Earlier;
    DateIs(bars[i], e);
    p := DayPosition(bars, n, i);
  }

  /** The prior day of bar i is the whole last date that has a bar before the date of bar i. */
  lemma PriorDayShown(bars: seq<Bar>, n: nat, i: nat, lookback: nat, e: int)
    requires i < n <= |bars| && Sorted(bars) && OnDate(bars[i], e)
    ensures match RowAt(bars, n, i, lookback).prior
            case None => forall d :: d < e ==> !Dated(bars, n, d)
            case Some(s) =>
              exists d :: LastDateBefore(bars, n, e, d) && Candle(bars, n, d, 0, 24, s.o, s.h, s.l, s.c)
  {
    hide RowAt, Keys, SummaryOf, Candle, Key, LastDateBefore, Dated, Sorted, Upto, Earlier, OnDate;
    RowParts(bars, n, i, lookback);
    var p := DatePosition(bars, n, i, e);
    var keys := Keys(bars, n);
    DatesBefore(bars, n, e, p);
    if p > 0 {
      SummaryIsCandle(bars, n, keys[p - 1]);
      PriorDated(bars, n, e, keys[p - 1]);
    }
  }

  lemma PriorDated(bars: seq<Bar>, n: nat, e: int, d: int)
    requires LastDateBefore(bars, n, e, d)
    ensures Dated(bars, n, d)
  {
  }

  /** The dates before e are the listed days in front of it. */
  lemma DatesBefore(bars: seq<Bar>, n: nat, e: int, p: nat)
    requires n <= |bars| && Sorted(bars) && p < |Keys(bars, n)| && Keys(bars, n)[p] == e
    ensures forall k :: 0 <= k < p ==> Keys(bars, n)[k] < e && Dated(bars, n, Keys(bars, n)[k])
    ensures forall d :: d < e && Dated(bars, n, d) ==> exists k :: 0 <= k < p && Keys(bars, n)[k] == d
    ensures forall j, k :: 0 <= j < k < p ==> Keys(bars, n)[j] < Keys(bars, n)[k] < e
    ensures p > 0 ==> LastDateBefore(bars, n, e, Keys(bars, n)[p - 1])
  {
    var keys := Keys(bars, n);
    KeysAreDates(bars, n, 0);
    hide Keys;
    forall d | d < e && Dated(bars, n, d)
      ensures exists k :: 0 <= k < p && keys[k] == d
    {
      KeysAreDates(bars, n, d);
      hide Dated;
      var k :| 0 <= k < |keys| && keys[k] == d;
    }
    forall k | 0 <= k < p
      ensures keys[k] < e && Dated(bars, n, keys[k])
    {
      KeysAreDates(bars, n, keys[k]);
    }
    hide Dated;
    if p > 0 {
      assert keys[p - 1] < e;
    }
  }

  // ----- the mean width

  /** The width of a date: its highest high less its lowest low. */
  ghost predicate Width(bars: seq<Bar>, n: nat, d: int, w: real) {
    exists o, h, l, c :: Candle(bars, n, d, 0, 24, o, h, l, c) && w == h - l
  }

  function Sum(xs: seq<real>): real {
    if xs == [] then 0.0 else Sum(xs[..|xs| - 1]) + xs[|xs| - 1]
  }

  /** The last lookback dates with a bar before date e, or all of them when there are fewer. */
  ghost predicate LastDates(bars: seq<Bar>, n: nat, e: int, lookback: nat, dates: seq<int>) {
    && |dates| <= lookback && Ascending(dates)
    && (forall d :: d in dates ==> d < e && Dated(bars, n, d))
    && (forall d, x :: d < e && Dated(bars, n, d) && d !in dates && x in dates ==> d < x)
    && (|dates| < lookback ==> forall d :: d < e && Dated(bars, n, d) ==> d in dates)
  }

  lemma {:induction false} WidthsOf(bars: seq<Bar>, n: nat, dates: seq<int>) returns (widths: seq<real>)
    requires n <= |bars| && forall d :: d in dates ==> Dated(bars, n, d)
    ensures |widths| == |dates| && Sum(widths) == RangesOf(bars, n, dates)
    ensures forall k :: 0 <= k < |dates| ==> Width(bars, n, dates[k], widths[k])
  {
    hide SummaryOf, Candle, Dated;
    if dates == [] {
      widths := [];
    } else {
      var d, front := dates[|dates| - 1], dates[..|dates| - 1];
      assert d in dates;
      var before := WidthsOf(bars, n, front);
      SummaryIsCandle(bars, n, d);
      var s := SummaryOf(bars, n, d).value;
      widths := before + [s.h - s.l];
      assert widths[..|widths| - 1] == before;
    }
  }

  /** The average range at bar i is the mean width of the last lookback dates before its own. */
  lemma AverageShown(bars: seq<Bar>, n: nat, i: nat, lookback: nat, e: int) returns (dates: seq<int>, widths: seq<real>)
    requires i < n <= |bars| && Sorted(bars) && OnDate(bars[i], e)
    ensures LastDates(bars, n, e, lookback, dates) && |widths| == |dates|
    ensures forall k :: 0 <= k < |dates| ==> Width(bars, n, dates[k], widths[k])
    ensures match RowAt(bars, n, i, lookback).average
            case None => dates == []
            case Some(mean) => dates != [] && mean * |dates| as real == Sum(widths)
  {
    hide RowAt, PriorAverage, Keys, SummaryOf, Candle, Key, RangesOf, Width, Dated, Sorted, Upto, Sum, LastDateBefore,
         Tail, LastDates, Earlier, OnDate;
    RowParts(bars, n, i, lookback);
    dates := DatesListed(bars, n, i, lookback, e);
    LastAreDated(bars, n, e, lookback, dates);
    widths := WidthsOf(bars, n, dates);
    AverageIs(bars, n, i, lookback, dates);
  }

  lemma AverageIs(bars: seq<Bar>, n: nat, i: nat, lookback: nat, dates: seq<int>)
    requires i < n <= |bars| && dates == Tail(Earlier(bars, n, i), lookback)
    ensures match PriorAverage(bars, n, i, lookback)
            case None => dates == []
            case Some(mean) => dates != [] && mean * |dates| as real == RangesOf(bars, n, dates)
  {
    hide Tail, Earlier, RangesOf;
    if dates != [] {
      Undone(RangesOf(bars, n, dates), |dates| as real);
    }
  }

  lemma DatesListed(bars: seq<Bar>, n: nat, i: nat, lookback: nat, e: int) returns (dates: seq<int>)
    requires i < n <= |bars| && Sorted(bars) && OnDate(bars[i], e)
    ensures dates == Tail(Earlier(bars, n, i), lookback) && LastDates(bars, n, e, lookback, dates)
  {
    hide Keys, Key, Dated, Sorted, Upto, LastDateBefore, Tail, LastDates, OnDate, Earlier;
    var p := DatePosition(bars, n, i, e);
    DatesBefore(bars, n, e, p);
    dates := Tail(Keys(bars, n)[..p], lookback);
    TailIsLast(bars, n, e, Keys(bars, n), p, lookback);
  }

  lemma LastAreDated(bars: seq<Bar>, n: nat, e: int, lookback: nat, dates: seq<int>)
    requires LastDates(bars, n, e, lookback, dates)
    ensures forall d :: d in dates ==> Dated(bars, n, d)
  {
  }

  lemma TailIsSlice(keys: seq<int>, p: nat, lookback: nat) returns (skip: nat)
    requires p <= |keys|
    ensures skip <= p && Tail(keys[..p], lookback) == keys[skip..p]
    ensures p - skip <= lookback && (p - skip < lookback ==> skip == 0)
  {
    skip := if p <= lookback then 0 else p - lookback;
  }

  lemma SliceMembers(keys: seq<int>, a: nat, b: nat)
    requires a <= b <= |keys|
    ensures forall k :: a <= k < b ==> keys[k] in keys[a..b]
    ensures forall x :: x in keys[a..b] ==> exists k :: a <= k < b && keys[k] == x
  {
    forall k | a <= k < b
      ensures keys[k] in keys[a..b]
    {
      assert keys[a..b][k - a] == keys[k];
    }
    forall x | x in keys[a..b]
      ensures exists k :: a <= k < b && keys[k] == x
    {
      var j :| 0 <= j < |keys[a..b]| && keys[a..b][j] == x;
      assert keys[a + j] == x;
    }
  }

  lemma TailIsLast(bars: seq<Bar>, n: nat, e: int, keys: seq<int>, p: nat, lookback: nat)
    requires p <= |keys|
    requires forall k :: 0 <= k < p ==> keys[k] < e && Dated(bars, n, keys[k])
    requires forall d :: d < e && Dated(bars, n, d) ==> exists k :: 0 <= k < p && keys[k] == d
    requires forall j, k :: 0 <= j < k < p ==> keys[j] < keys[k] < e
    ensures LastDates(bars, n, e, lookback, Tail(keys[..p], lookback))
  {
    hide Dated, Tail;
    var skip := TailIsSlice(keys, p, lookback);
    var dates := keys[skip..p];
    SliceMembers(keys, skip, p);
    forall d, x | d < e && Dated(bars, n, d) && d !in dates && x in dates
      ensures d < x
    {
      var k :| 0 <= k < p && keys[k] == d;
      var j :| skip <= j < p && keys[j] == x;
      assert k < skip;
    }
    forall d | |dates| < lookback && d < e && Dated(bars, n, d)
      ensures d in dates
    {
      var k :| 0 <= k < p && keys[k] == d;
    }
  }
}
