/**
  The level columns (contextcols/levels.go and the build loop of contextcols/columns.go): day
  summaries, prior days, session and overnight runs behind advancing pointers. Each loop is
  proved equal to the recount of module DaySegments.
*/
module LevelColumns {
  import opened Common
  import opened DaySegments

  // ----- days

  ghost predicate Summarizes(days: map<int, Summary>, bars: seq<Bar>, n: nat)
    requires n <= |bars|
  {
    forall k :: (k in days <==> SummaryOf(bars, n, k).Some?) && (k in days ==> SummaryOf(bars, n, k) == Some(days[k]))
  }

  method SummarizeDays(bars: seq<Bar>) returns (days: map<int, Summary>)
    ensures Summarizes(days, bars, |bars|)
  {
    hide Key;
    days := map[];
    for i := 0 to |bars|
      invariant Summarizes(days, bars, i)
    {
      var b := bars[i];
      var key := Key(b.t);
      if key !in days {
        days := days[key := Summary(b.o, b.h, b.l, b.c, i, i)];
      } else {
        var day := days[key];
        days := days[key := Summary(day.o, Max(day.h, b.h), Min(day.l, b.l), b.c, day.first, i)];
      }
    }
  }

  /** The days listed before a day. */
  function Upto(keys: seq<int>, key: int): seq<int> {
    if keys == [] then []
    else if keys[|keys| - 1] == key then keys[..|keys| - 1]
    else Upto(keys[..|keys| - 1], key)
  }

  lemma {:induction false} UptoIs(keys: seq<int>, p: nat)
    requires p < |keys| && Ascending(keys)
    ensures Upto(keys, keys[p]) == keys[..p]
  {
    if p < |keys| - 1 {
      var front := keys[..|keys| - 1];
      assert keys[p] != keys[|keys| - 1] && front[p] == keys[p];
      UptoIs(front, p);
      assert front[..p] == keys[..p];
    }
  }

  function Last(keys: seq<int>): int
    requires keys != []
  {
    keys[|keys| - 1]
  }

  /** Insertion into an ascending list. */
  function Inserted(keys: seq<int>, key: int): seq<int> {
    if keys == [] || Last(keys) < key then keys + [key] else Inserted(keys[..|keys| - 1], key) + [Last(keys)]
  }

  lemma {:induction false} InsertedIn(keys: seq<int>, key: int)
    ensures forall k :: k in Inserted(keys, key) <==> k == key || k in keys
  {
    if keys != [] && Last(keys) >= key {
      InsertedIn(keys[..|keys| - 1], key);
      assert keys == keys[..|keys| - 1] + [Last(keys)];
    }
  }

  lemma {:induction false} InsertedAscends(keys: seq<int>, key: int)
    requires Ascending(keys) && key !in keys
    ensures Ascending(Inserted(keys, key))
  {
    if keys != [] && Last(keys) >= key {
      var front, last := keys[..|keys| - 1], keys[|keys| - 1];
      InsertedAscends(front, key);
      InsertedIn(front, key);
      var grown := Inserted(front, key);
      assert last in keys;
      forall k | 0 <= k < |grown|
        ensures grown[k] < last
      {
        assert grown[k] in grown;
      }
    }
  }

  /** sortedDayKeys: the map's keys, which come in no order, in ascending order. */
  method SortedDayKeys(days: map<int, Summary>) returns (keys: seq<int>)
    ensures Ascending(keys) && forall k :: k in keys <==> k in days
  {
    hide Inserted;
    keys := [];
    var rest: set<int> := days.Keys;
    while rest != {}
      invariant Ascending(keys) && rest <= days.Keys
      invariant forall k :: k in keys <==> k in days && k !in rest
    {
      HasKey(rest);
      var key :| key in rest;
      InsertedIn(keys, key);
      InsertedAscends(keys, key);
      keys := Inserted(keys, key);
      rest := rest - {key};
    }
  }

  lemma HasKey(keys: set<int>)
    requires keys != {}
    ensures exists k :: k in keys
  {
    if forall k :: k !in keys {
      assert false;
    }
  }

  /** prev holds, for every listed day but the first, the summary of the day before it. */
  ghost predicate PreviousOf(prev: map<int, Summary>, days: map<int, Summary>, keys: seq<int>, p: nat)
    requires p < |keys| && forall k :: k in keys ==> k in days
  {
    && (keys[p] in prev <==> p > 0)
    && (p > 0 ==> var k := keys[p - 1]; k in keys && prev[keys[p]] == days[k])
  }

  method PreviousDays(days: map<int, Summary>, keys: seq<int>) returns (prev: map<int, Summary>)
    requires Ascending(keys) && forall k :: k in keys ==> k in days
    ensures forall p :: 0 <= p < |keys| ==> PreviousOf(prev, days, keys, p)
  {
    prev := map[];
    if keys == [] {
      return;
    }
    for i := 1 to |keys|
      invariant forall p :: 0 <= p < i ==> PreviousOf(prev, days, keys, p)
      invariant forall k :: k in prev ==> exists p :: 0 < p < i && keys[p] == k
    {
      ghost var before := prev;
      assert keys[i - 1] in keys;
      prev := prev[keys[i] := days[keys[i - 1]]];
      forall p | 0 <= p < i + 1
        ensures PreviousOf(prev, days, keys, p)
      {
        assert p < i ==> PreviousOf(before, days, keys, p);
      }
    }
  }

  // ----- the average range of the days before

  function RangeOf(days: map<int, Summary>, key: int): real
    requires key in days
  {
    days[key].h - days[key].l
  }

  function RangeSum(days: map<int, Summary>, keys: seq<int>): real
    requires forall k :: k in keys ==> k in days
  {
    if keys == [] then 0.0 else RangeSum(days, keys[..|keys| - 1]) + RangeOf(days, keys[|keys| - 1])
  }

  lemma {:induction false} RangeSumFront(days: map<int, Summary>, keys: seq<int>)
    requires keys != [] && forall k :: k in keys ==> k in days
    ensures RangeSum(days, keys) == RangeOf(days, keys[0]) + RangeSum(days, keys[1..])
  {
    if |keys| > 1 {
      var front := keys[..|keys| - 1];
      RangeSumFront(days, front);
      assert front[1..] == keys[1..][..|keys| - 2];
    } else {
      assert keys[..0] == [] == keys[1..];
    }
  }

  /** The last lookback of these days. */
  function Tail(keys: seq<int>, lookback: nat): seq<int> {
    if |keys| <= lookback then keys else keys[|keys| - lookback..]
  }

  function Average(days: map<int, Summary>, earlier: seq<int>, lookback: nat): Option<real>
    requires forall k :: k in earlier ==> k in days
  {
    var window := Tail(earlier, lookback);
    if window == [] then None else Some(RangeSum(days, window) / |window| as real)
  }

  ghost predicate AverageOf(out: map<int, real>, days: map<int, Summary>, keys: seq<int>, p: nat, lookback: nat)
    requires p < |keys| && forall k :: k in keys ==> k in days
  {
    var mean := Average(days, keys[..p], lookback);
    (keys[p] in out <==> mean.Some?) && (keys[p] in out ==> mean == Some(out[keys[p]]))
  }

  /** The averages written for the first i days, and nothing else. */
  ghost predicate Averages(out: map<int, real>, days: map<int, Summary>, keys: seq<int>, i: nat, lookback: nat)
    requires i <= |keys| && forall k :: k in keys ==> k in days
  {
    && (forall p :: 0 <= p < i ==> AverageOf(out, days, keys, p, lookback))
    && (forall k :: k in out ==> k in keys[..i])
  }

  lemma FreshDay(keys: seq<int>, i: nat)
    requires i < |keys| && Ascending(keys)
    ensures keys[i] !in keys[..i]
  {
  }

  lemma AveragesStep(out: map<int, real>, more: map<int, real>, days: map<int, Summary>, keys: seq<int>, i: nat,
                     lookback: nat)
    requires i < |keys| && Ascending(keys) && forall k :: k in keys ==> k in days
    requires Averages(out, days, keys, i, lookback)
    requires var mean := Average(days, keys[..i], lookback);
             more == if mean.Some? then out[keys[i] := mean.value] else out
    ensures Averages(more, days, keys, i + 1, lookback)
  {
    hide Average;
    FreshDay(keys, i);
    assert keys[..i + 1] == keys[..i] + [keys[i]];
    forall p | 0 <= p < i + 1
      ensures AverageOf(more, days, keys, p, lookback)
    {
      if p < i {
        assert AverageOf(out, days, keys, p, lookback);
        assert keys[p] < keys[i];
      }
    }
  }

  /** The queued ranges are those of the held days, and sum is their sum. */
  ghost predicate Queue(days: map<int, Summary>, held: seq<int>, window: seq<real>, sum: real) {
    && (forall k :: k in held ==> k in days)
    && |held| == |window|
    && (forall j :: 0 <= j < |held| ==> held[j] in days && window[j] == RangeOf(days, held[j]))
    && sum == RangeSum(days, held)
  }

  lemma QueuePush(days: map<int, Summary>, held: seq<int>, window: seq<real>, sum: real, key: int)
    requires Queue(days, held, window, sum) && key in days
    ensures Queue(days, held + [key], window + [RangeOf(days, key)], sum + RangeOf(days, key))
  {
    hide RangeOf;
    assert (held + [key])[..|held|] == held;
  }

  lemma QueuePop(days: map<int, Summary>, held: seq<int>, window: seq<real>, sum: real)
    requires Queue(days, held, window, sum) && held != []
    ensures Queue(days, held[1..], window[1..], sum - window[0])
  {
    hide RangeOf;
    RangeSumFront(days, held);
  }

  method PriorDayRangeAverages(days: map<int, Summary>, keys: seq<int>, lookback: nat) returns (out: map<int, real>)
    requires Ascending(keys) && forall k :: k in keys ==> k in days
    ensures forall p :: 0 <= p < |keys| ==> AverageOf(out, days, keys, p, lookback)
  {
    hide Average, Queue, Tail, Ascending, AverageOf;
    out := map[];
    var window: seq<real> := [];
    var sum := 0.0;
    ghost var held: seq<int> := [];
    QueueStarts(days, keys, lookback);
    for i := 0 to |keys|
      invariant held == Tail(keys[..i], lookback) && Queue(days, held, window, sum)
      invariant Averages(out, days, keys, i, lookback)
    {
      ghost var before := out;
      QueueMean(days, keys[..i], lookback, window, sum);
      if |window| > 0 {
        out := out[keys[i] := sum / |window| as real];
      }
      AveragesStep(before, out, days, keys, i, lookback);
      var range := days[keys[i]].h - days[keys[i]].l;
      QueuePush(days, held, window, sum, keys[i]);
      window := window + [range];
      sum := sum + range;
      TailStep(keys, i, lookback);
      held := held + [keys[i]];
      QueueLength(days, held, window, sum);
      if |window| > lookback {
        QueuePop(days, held, window, sum);
        sum := sum - window[0];
        window := window[1..];
        held := held[1..];
      }
    }
  }

  lemma QueueStarts(days: map<int, Summary>, keys: seq<int>, lookback: nat)
    ensures Queue(days, [], [], 0.0) && Tail(keys[..0], lookback) == []
  {
  }

  lemma QueueLength(days: map<int, Summary>, held: seq<int>, window: seq<real>, sum: real)
    requires Queue(days, held, window, sum)
    ensures |held| == |window|
  {
  }

  lemma QueueMean(days: map<int, Summary>, earlier: seq<int>, lookback: nat, window: seq<real>, sum: real)
    requires (forall k :: k in earlier ==> k in days) && Queue(days, Tail(earlier, lookback), window, sum)
    ensures Average(days, earlier, lookback) == if |window| > 0 then Some(sum / |window| as real) else None
  {
    hide RangeSum;
  }

  lemma TailStep(keys: seq<int>, i: nat, lookback: nat)
    requires i < |keys|
    ensures var longer := Tail(keys[..i], lookback) + [keys[i]];
            Tail(keys[..i + 1], lookback) == if |longer| > lookback then longer[1..] else longer
  {
    assert keys[..i + 1] == keys[..i] + [keys[i]];
    if i > lookback {
      DropFirst(keys[..i], keys[i], i - lookback);
    }
  }

  lemma DropFirst(s: seq<int>, x: int, j: nat)
    requires j <= |s|
    ensures (s + [x])[j + 1..] == (s[j..] + [x])[1..]
  {
    var longer := s + [x];
    assert longer[j..] == s[j..] + [x];
    assert longer[j..][1..] == longer[j + 1..];
  }

  // ----- runs

  /** The part of a day's own bars that opens in the session window. */
  method SessionRun(bars: seq<Bar>, day: Summary, start: int, end: int) returns (run: Option<Run>)
    requires day.first <= day.last < |bars|
    ensures run == RunOf(bars, day.first, day.last + 1, start, end)
  {
    run := None;
    for i := day.first to day.last + 1
      invariant run == RunOf(bars, day.first, i, start, end)
    {
      var b := bars[i];
      if b.t < start || b.t >= end {
        continue;
      }
      if run.None? {
        run := Some(Run(start, end, b.o, b.h, b.l, b.c));
        continue;
      }
      run := Some(Run(start, end, run.value.o, Max(run.value.h, b.h), Min(run.value.l, b.l), b.c));
    }
  }

  /** A day's run, or none, goes to the end of the list. */
  lemma RunAppended(bars: seq<Bar>, keys: seq<int>, i: nat, s: Segment, run: Option<Run>)
    requires i < |keys| && run == RunOf(bars, 0, |bars|, keys[i] * DAY + s.start, keys[i] * DAY + s.end)
    ensures Runs(bars, |bars|, keys[..i + 1], s) == Runs(bars, |bars|, keys[..i], s) + ListOf(run)
    ensures run.None? ==> Runs(bars, |bars|, keys[..i + 1], s) == Runs(bars, |bars|, keys[..i], s)
  {
    hide Runs, RunOf;
    RunsLength(bars, |bars|, keys[..i], keys[i], s);
    assert keys[..i + 1] == keys[..i] + [keys[i]];
  }

  lemma RunsStart(bars: seq<Bar>, keys: seq<int>, s: Segment)
    ensures Runs(bars, |bars|, keys[..0], s) == []
    ensures Runs(bars, |bars|, keys[..|keys|], s) == Runs(bars, |bars|, keys, s)
  {
    assert keys[..|keys|] == keys;
  }

  method CollectSessionRuns(bars: seq<Bar>, days: map<int, Summary>, keys: seq<int>, s: Segment)
    returns (runs: seq<Run>)
    requires Summarizes(days, bars, |bars|) && (forall k :: k in keys ==> k in days)
    requires s.Valid() && s.end <= DAY
    ensures runs == Runs(bars, |bars|, keys, s)
  {
    hide Summarizes, RunOf, Runs;
    runs := [];
    RunsStart(bars, keys, s);
    for i := 0 to |keys|
      invariant runs == Runs(bars, |bars|, keys[..i], s)
    {
      var key := keys[i];
      var start, end := key * DAY + s.start, key * DAY + s.end;
      DayHolds(bars, days, key, s);
      var run := SessionRun(bars, days[key], start, end);
      if run.Some? {
        runs := runs + [run.value];
      }
      RunAppended(bars, keys, i, s, run);
    }
  }

  /** All bars of a session inside one day lie between the day's first and last bar. */
  lemma DayHolds(bars: seq<Bar>, days: map<int, Summary>, key: int, s: Segment)
    requires Summarizes(days, bars, |bars|) && key in days && s.Valid() && s.end <= DAY
    ensures days[key].first <= days[key].last < |bars|
    ensures RunOn(bars, |bars|, key, s)
            == RunOf(bars, days[key].first, days[key].last + 1, key * DAY + s.start, key * DAY + s.end)
  {
    hide Key, RunOf, SummaryOf;
    SummaryMeans(bars, |bars|, key);
    var start, end := key * DAY + s.start, key * DAY + s.end;
    forall j | 0 <= j < |bars| && Inside(bars[j], start, end)
      ensures OnDay(bars[j], key)
    {
      KeyIs(bars[j].t);
      KeyUnique(bars[j].t, key);
    }
    RunSkips(bars, days[key].first, days[key].last + 1, |bars|, start, end);
  }

  lemma KeyUnique(t: int, key: int)
    requires key * DAY <= t < key * DAY + DAY
    ensures Key(t) == key
  {
    hide Key;
    KeyIs(t);
  }

  /** The bars of one overnight segment, from the pointer on. */
  method OvernightRun(bars: seq<Bar>, ptr: nat, start: int, end: int) returns (run: Option<Run>)
    requires Sorted(bars) && ptr <= |bars|
    requires forall j :: 0 <= j < ptr ==> bars[j].t < start
    requires ptr < |bars| ==> bars[ptr].t >= start
    ensures run == RunOf(bars, 0, |bars|, start, end)
  {
    hide RunOf;
    run := None;
    var j := ptr;
    RunStarts(bars, ptr, start, end);
    while j < |bars| && bars[j].t < end
      invariant ptr <= j <= |bars| && run == RunOf(bars, ptr, j, start, end)
    {
      var b := bars[j];
      RunStep(bars, ptr, j, start, end);
      if run.None? {
        run := Some(Run(start, end, b.o, b.h, b.l, b.c));
      } else {
        run := Some(Run(start, end, run.value.o, Max(run.value.h, b.h), Min(run.value.l, b.l), b.c));
      }
      j := j + 1;
    }
    RunSkips(bars, ptr, j, |bars|, start, end);
  }

  lemma RunStarts(bars: seq<Bar>, lo: nat, start: int, end: int)
    requires lo <= |bars|
    ensures RunOf(bars, lo, lo, start, end) == None
  {
  }

  lemma RunStep(bars: seq<Bar>, lo: nat, j: nat, start: int, end: int)
    requires lo <= j < |bars| && Sorted(bars) && bars[lo].t >= start && bars[j].t < end
    ensures var before, b := RunOf(bars, lo, j, start, end), bars[j];
            && RunOf(bars, lo, j + 1, start, end).Some?
            && RunOf(bars, lo, j + 1, start, end).value
               == if before.None? then Run(start, end, b.o, b.h, b.l, b.c)
                  else Run(start, end, before.value.o, Max(before.value.h, b.h), Min(before.value.l, b.l), b.c)
  {
    assert bars[j].t >= start;
  }

  /** Every bar before the pointer opens before start. */
  ghost predicate Passed(bars: seq<Bar>, ptr: nat, start: int) {
    ptr <= |bars| && forall j :: 0 <= j < ptr ==> bars[j].t < start
  }

  method SkipBefore(bars: seq<Bar>, ptr: nat, start: int) returns (p: nat)
    requires Passed(bars, ptr, start)
    ensures Passed(bars, p, start) && (p < |bars| ==> bars[p].t >= start)
  {
    p := ptr;
    while p < |bars| && bars[p].t < start
      invariant Passed(bars, p, start)
    {
      p := p + 1;
    }
  }

  lemma PassedLater(bars: seq<Bar>, ptr: nat, before: int, start: int)
    requires Passed(bars, ptr, before) && before <= start
    ensures Passed(bars, ptr, start)
  {
  }

  lemma NextDay(keys: seq<int>, i: nat)
    requires Ascending(keys) && 0 < i < |keys|
    ensures keys[i - 1] < keys[i]
  {
  }

  method BuildOvernightRuns(bars: seq<Bar>, keys: seq<int>) returns (runs: seq<Run>)
    requires Sorted(bars) && Ascending(keys)
    ensures runs == Runs(bars, |bars|, keys, OVERNIGHT)
  {
    hide RunOf, Passed, Sorted, Ascending, Runs;
    runs := [];
    RunsStart(bars, keys, OVERNIGHT);
    var ptr := 0;
    ghost var reached := if keys == [] then 0 else keys[0] * DAY + OVERNIGHT.start;
    assert Passed(bars, 0, reached) by {
      NonePassed(bars, reached);
    }
    for i := 0 to |keys|
      invariant runs == Runs(bars, |bars|, keys[..i], OVERNIGHT)
      invariant Passed(bars, ptr, reached)
      invariant keys != [] ==> reached == keys[if i == 0 then 0 else i - 1] * DAY + OVERNIGHT.start
    {
      var key := keys[i];
      var start := key * DAY + OVERNIGHT.start;
      var end := start + 12 * HOUR;
      if i > 0 {
        NextDay(keys, i);
      }
      PassedLater(bars, ptr, reached, start);
      reached := start;
      ptr := SkipBefore(bars, ptr, start);
      PassedIs(bars, ptr, start);
      var run := OvernightRun(bars, ptr, start, end);
      if run.Some? {
        runs := runs + [run.value];
      }
      RunAppended(bars, keys, i, OVERNIGHT, run);
    }
  }

  lemma NonePassed(bars: seq<Bar>, start: int)
    ensures Passed(bars, 0, start)
  {
  }

  lemma PassedIs(bars: seq<Bar>, ptr: nat, start: int)
    requires Passed(bars, ptr, start)
    ensures ptr <= |bars| && forall j :: 0 <= j < ptr ==> bars[j].t < start
  {
  }

  // ----- the advancing pointer

  ghost predicate EndsAscend(runs: seq<Run>) {
    forall i, j :: 0 <= i < j < |runs| ==> runs[i].end < runs[j].end
  }

  lemma {:induction false} RunsAscend(bars: seq<Bar>, n: nat, keys: seq<int>, s: Segment)
    requires n <= |bars| && Ascending(keys)
    ensures EndsAscend(Runs(bars, n, keys, s))
    ensures forall r :: r in Runs(bars, n, keys, s) ==> keys != [] && r.end <= keys[|keys| - 1] * DAY + s.end
  {
    hide RunOn;
    if keys != [] {
      var front, key := keys[..|keys| - 1], keys[|keys| - 1];
      RunsAscend(bars, n, front, s);
      RunEnds(bars, n, key, s);
      var before := Runs(bars, n, front, s);
      if front != [] {
        assert keys[|front| - 1] < key;
      }
      assert forall j :: 0 <= j < |before| ==> before[j] in before;
    }
  }

  /** In ascending runs, those over by t come first. */
  lemma {:induction false} EndedIsFront(runs: seq<Run>, t: int, k: nat)
    requires EndsAscend(runs) && k <= |runs|
    requires forall j :: 0 <= j < k ==> runs[j].end <= t
    requires k < |runs| ==> runs[k].end > t
    ensures Ended(runs, t) == runs[..k]
  {
    if runs != [] {
      var front := runs[..|runs| - 1];
      if k == |runs| {
        EndedIsFront(front, t, k - 1);
      } else {
        assert runs[|runs| - 1].end > t;
        EndedIsFront(front, t, k);
        assert front[..k] == runs[..k];
      }
    }
  }

  /** The pointer moves to the last run that is over; it never has to move back. */
  method AdvancePointer(runs: seq<Run>, t: int, ptr: int) returns (p: int)
    requires EndsAscend(runs) && -1 <= ptr < |runs| && (ptr >= 0 ==> runs[ptr].end <= t)
    ensures -1 <= p < |runs| && Ended(runs, t) == runs[..p + 1] && (p >= 0 ==> runs[p].end <= t)
  {
    p := ptr;
    while p + 1 < |runs| && runs[p + 1].end <= t
      invariant -1 <= p < |runs| && (p >= 0 ==> runs[p].end <= t)
      decreases |runs| - p
    {
      p := p + 1;
    }
    EndedIsFront(runs, t, p + 1);
  }

  // ----- the rows

  datatype Running = Running(key: int, open: real, high: real, low: real)

  datatype LevelRow = LevelRow(prior: Option<Summary>, average: Option<real>, asia: Option<Run>, london: Option<Run>,
                               newYork: Option<Run>, overnight: Option<Run>, day: Running)

  /** The running day before the first bar. */
  const NO_DAY := Running(-1, 0.0, 0.0, 0.0)

  function NextRunning(before: Running, b: Bar): Running {
    if Key(b.t) != before.key then Running(Key(b.t), b.o, b.h, b.l)
    else before.(high := Max(before.high, b.h), low := Min(before.low, b.l))
  }

  function RunningAt(bars: seq<Bar>, i: nat): Running
    requires i < |bars|
  {
    NextRunning(if i == 0 then NO_DAY else RunningAt(bars, i - 1), bars[i])
  }

  /** The summed ranges of these days of the first n bars. */
  function RangesOf(bars: seq<Bar>, n: nat, keys: seq<int>): real
    requires n <= |bars|
  {
    if keys == [] then 0.0
    else
      var s := SummaryOf(bars, n, keys[|keys| - 1]);
      RangesOf(bars, n, keys[..|keys| - 1]) + if s.Some? then s.value.h - s.value.l else 0.0
  }

  /** The days before the one of bar i. */
  function Earlier(bars: seq<Bar>, n: nat, i: nat): seq<int>
    requires i < n <= |bars|
  {
    Upto(Keys(bars, n), Key(bars[i].t))
  }

  function PriorDay(bars: seq<Bar>, n: nat, i: nat): Option<Summary>
    requires i < n <= |bars|
  {
    if Earlier(bars, n, i) == [] then None else SummaryOf(bars, n, Last(Earlier(bars, n, i)))
  }

  function PriorAverage(bars: seq<Bar>, n: nat, i: nat, lookback: nat): Option<real>
    requires i < n <= |bars|
  {
    var window := Tail(Earlier(bars, n, i), lookback);
    if window == [] then None else Some(RangesOf(bars, n, window) / |window| as real)
  }

  /** What the first n bars say about bar i. */
  function RowAt(bars: seq<Bar>, n: nat, i: nat, lookback: nat): LevelRow
    requires i < n <= |bars|
  {
    var t := bars[i].t;
    LevelRow(PriorDay(bars, n, i), PriorAverage(bars, n, i, lookback),
             LastRun(bars, n, ASIA, t), LastRun(bars, n, LONDON, t), LastRun(bars, n, NEW_YORK, t),
             LastRun(bars, n, OVERNIGHT, t), RunningAt(bars, i))
  }

  lemma {:induction false} RangesAgree(bars: seq<Bar>, n: nat, days: map<int, Summary>, keys: seq<int>)
    requires n <= |bars| && Summarizes(days, bars, n) && forall k :: k in keys ==> k in days
    ensures RangesOf(bars, n, keys) == RangeSum(days, keys)
  {
    hide SummaryOf;
    if keys != [] {
      var key := keys[|keys| - 1];
      assert key in days;
      RangesAgree(bars, n, days, keys[..|keys| - 1]);
    }
  }

  lemma {:induction false} DayPosition(bars: seq<Bar>, n: nat, i: nat) returns (p: nat)
    requires i < n <= |bars| && Sorted(bars)
    ensures p < |Keys(bars, n)| && Keys(bars, n)[p] == Key(bars[i].t) && p + 1 == |Keys(bars, i + 1)|
    ensures Earlier(bars, n, i) == Keys(bars, n)[..p] == Keys(bars, i + 1)[..p]
  {
    hide Key, Keys, Upto;
    KeysAscend(bars, i + 1);
    KeysAscend(bars, n);
    KeysGrow(bars, i + 1, n);
    p := |Keys(bars, i + 1)| - 1;
    UptoIs(Keys(bars, n), p);
  }

  /** The two map lookups of a row. */
  lemma RowLookups(bars: seq<Bar>, i: nat, lookback: nat, days: map<int, Summary>, prev: map<int, Summary>,
                   averages: map<int, real>)
    requires i < |bars| && Sorted(bars) && Summarizes(days, bars, |bars|)
    requires forall k :: k in Keys(bars, |bars|) ==> k in days
    requires forall p :: 0 <= p < |Keys(bars, |bars|)| ==> PreviousOf(prev, days, Keys(bars, |bars|), p)
    requires forall p :: 0 <= p < |Keys(bars, |bars|)| ==> AverageOf(averages, days, Keys(bars, |bars|), p, lookback)
    ensures var key := Key(bars[i].t);
            && PriorDay(bars, |bars|, i) == (if key in prev then Some(prev[key]) else None)
            && PriorAverage(bars, |bars|, i, lookback) == (if key in averages then Some(averages[key]) else None)
  {
    hide Key, Keys, Upto, SummaryOf, RangeSum, RangesOf, Tail, Ascending, Sorted;
    var n := |bars|;
    var keys := Keys(bars, n);
    var p := DayPosition(bars, n, i);
    assert PreviousOf(prev, days, keys, p);
    assert AverageOf(averages, days, keys, p, lookback);
    var window := Tail(keys[..p], lookback);
    TailInside(keys[..p], lookback);
    RangesAgree(bars, n, days, window);
  }

  lemma TailInside(keys: seq<int>, lookback: nat)
    ensures forall k :: k in Tail(keys, lookback) ==> k in keys
  {
  }

  lemma KeysAreDays(bars: seq<Bar>, days: map<int, Summary>)
    requires Sorted(bars) && Summarizes(days, bars, |bars|)
    ensures Ascending(Keys(bars, |bars|)) && forall k :: k in Keys(bars, |bars|) <==> k in days
  {
    KeysAscend(bars, |bars|);
  }

  /** A pointer as the row before bar i leaves it. */
  ghost predicate Pointing(bars: seq<Bar>, s: Segment, runs: seq<Run>, ptr: int, i: nat)
    requires i <= |bars|
  {
    && runs == Runs(bars, |bars|, Keys(bars, |bars|), s) && EndsAscend(runs)
    && -1 <= ptr < |runs| && (ptr >= 0 ==> i > 0 && runs[ptr].end <= bars[i - 1].t)
  }

  lemma PointingStarts(bars: seq<Bar>, s: Segment, runs: seq<Run>)
    requires Sorted(bars) && runs == Runs(bars, |bars|, Keys(bars, |bars|), s)
    ensures Pointing(bars, s, runs, -1, 0)
  {
    KeysAscend(bars, |bars|);
    RunsAscend(bars, |bars|, Keys(bars, |bars|), s);
  }

  /** writePriorSession: the run a pointer column shows at bar i. */
  method WritePriorRun(bars: seq<Bar>, s: Segment, runs: seq<Run>, ptr: int, i: nat)
    returns (p: int, shown: Option<Run>)
    requires i < |bars| && Sorted(bars) && Pointing(bars, s, runs, ptr, i)
    ensures Pointing(bars, s, runs, p, i + 1) && shown == LastRun(bars, |bars|, s, bars[i].t)
  {
    hide Runs, Ended, Keys;
    InOrder(bars, i);
    p := AdvancePointer(runs, bars[i].t, ptr);
    shown := if p >= 0 then Some(runs[p]) else None;
  }

  lemma InOrder(bars: seq<Bar>, i: nat)
    requires Sorted(bars) && i < |bars|
    ensures i > 0 ==> bars[i - 1].t <= bars[i].t
  {
  }

  /** The level columns of Build for a sorted series: summaries and runs first, then one pass over the bars. */
  method Build(bars: seq<Bar>, lookback: nat) returns (rows: seq<LevelRow>)
    requires Sorted(bars)
    ensures |rows| == |bars| && forall i :: 0 <= i < |bars| ==> rows[i] == RowAt(bars, |bars|, i, lookback)
  {
    hide Sorted, Key, Keys, Runs, LastRun, PriorDay, PriorAverage, Pointing, PreviousOf, AverageOf, Summarizes,
         Ascending;
    var days := SummarizeDays(bars);
    var keys := SortedDayKeys(days);
    KeysAreDays(bars, days);
    AscendingIsUnique(keys, Keys(bars, |bars|));
    var prev := PreviousDays(days, keys);
    var averages := PriorDayRangeAverages(days, keys, lookback);
    var asia := CollectSessionRuns(bars, days, keys, ASIA);
    var london := CollectSessionRuns(bars, days, keys, LONDON);
    var newYork := CollectSessionRuns(bars, days, keys, NEW_YORK);
    var overnight := BuildOvernightRuns(bars, keys);
    PointingStarts(bars, ASIA, asia);
    PointingStarts(bars, LONDON, london);
    PointingStarts(bars, NEW_YORK, newYork);
    PointingStarts(bars, OVERNIGHT, overnight);
    rows := [];
    var day := NO_DAY;
    var asiaPtr, londonPtr, newYorkPtr, overnightPtr := -1, -1, -1, -1;
    for i := 0 to |bars|
      invariant |rows| == i && forall j :: 0 <= j < i ==> rows[j] == RowAt(bars, |bars|, j, lookback)
      invariant day == if i == 0 then NO_DAY else RunningAt(bars, i - 1)
      invariant Pointing(bars, ASIA, asia, asiaPtr, i) && Pointing(bars, LONDON, london, londonPtr, i)
      invariant Pointing(bars, NEW_YORK, newYork, newYorkPtr, i)
                && Pointing(bars, OVERNIGHT, overnight, overnightPtr, i)
    {
      var b := bars[i];
      var key := Key(b.t);
      if key != day.key {
        day := Running(key, b.o, b.h, b.l);
      } else {
        day := day.(high := Max(day.high, b.h), low := Min(day.low, b.l));
      }
      RowLookups(bars, i, lookback, days, prev, averages);
      var prior := if key in prev then Some(prev[key]) else None;
      var average := if key in averages then Some(averages[key]) else None;
      var a, l, y, o;
      asiaPtr, a := WritePriorRun(bars, ASIA, asia, asiaPtr, i);
      londonPtr, l := WritePriorRun(bars, LONDON, london, londonPtr, i);
      newYorkPtr, y := WritePriorRun(bars, NEW_YORK, newYork, newYorkPtr, i);
      overnightPtr, o := WritePriorRun(bars, OVERNIGHT, overnight, overnightPtr, i);
      rows := rows + [LevelRow(prior, average, a, l, y, o, day)];
    }
  }

  // ----- no look-ahead

  /** Days before bar i are summarised alike by the first i+1 bars and by any more. */
  lemma EarlierIsCausal(bars: seq<Bar>, n: nat, i: nat)
    requires i < n <= |bars| && Sorted(bars)
    ensures Earlier(bars, n, i) == Earlier(bars, i + 1, i)
    ensures forall k :: k in Earlier(bars, n, i) ==> SummaryOf(bars, n, k) == SummaryOf(bars, i + 1, k)
  {
    hide Key, Keys, Upto, SummaryOf;
    var p := DayPosition(bars, n, i);
    var q := DayPosition(bars, i + 1, i);
    KeysAscend(bars, i + 1);
    forall k | k in Earlier(bars, n, i)
      ensures SummaryOf(bars, n, k) == SummaryOf(bars, i + 1, k)
    {
      forall j | i + 1 <= j < n
        ensures !OnDay(bars[j], k)
      {
        KeyOrder(bars[i].t, bars[j].t);
      }
      SummaryKeeps(bars, i + 1, n, k);
    }
  }

  lemma {:induction false} RangesKeep(bars: seq<Bar>, m: nat, n: nat, keys: seq<int>)
    requires m <= |bars| && n <= |bars|
    requires forall k :: k in keys ==> SummaryOf(bars, n, k) == SummaryOf(bars, m, k)
    ensures RangesOf(bars, n, keys) == RangesOf(bars, m, keys)
  {
    hide SummaryOf;
    if keys != [] {
      assert keys[|keys| - 1] in keys;
      RangesKeep(bars, m, n, keys[..|keys| - 1]);
    }
  }

  /** Every level of bar i from n bars of a sorted series is what the first i+1 bars already say. */
  lemma RowIsCausal(bars: seq<Bar>, n: nat, i: nat, lookback: nat)
    requires i < n <= |bars| && Sorted(bars)
    ensures RowAt(bars, n, i, lookback) == RowAt(bars, i + 1, i, lookback)
  {
    hide Key, Keys, Sorted, LastRun, Earlier, RangesOf, SummaryOf, Tail;
    EarlierIsCausal(bars, n, i);
    var earlier := Earlier(bars, n, i);
    assert earlier != [] ==> Last(earlier) in earlier;
    TailInside(earlier, lookback);
    RangesKeep(bars, i + 1, n, Tail(earlier, lookback));
    LastRunIsCausal(bars, n, i, ASIA);
    LastRunIsCausal(bars, n, i, LONDON);
    LastRunIsCausal(bars, n, i, NEW_YORK);
    LastRunIsCausal(bars, n, i, OVERNIGHT);
  }

  lemma {:induction false} RunningPrefix(bars: seq<Bar>, i: nat, m: nat)
    requires i < m <= |bars|
    ensures RunningAt(bars[..m], i) == RunningAt(bars, i)
  {
    hide NextRunning;
    if i > 0 {
      RunningPrefix(bars, i - 1, m);
    }
  }

  lemma {:induction false} RangesPrefix(bars: seq<Bar>, n: nat, m: nat, keys: seq<int>)
    requires n <= m <= |bars|
    ensures RangesOf(bars[..m], n, keys) == RangesOf(bars, n, keys)
  {
    hide SummaryOf;
    if keys != [] {
      SegmentsPrefix(bars, n, m, keys[|keys| - 1], 0, 0, 0);
      RangesPrefix(bars, n, m, keys[..|keys| - 1]);
    }
  }

  /** Built from bars 0..i alone, row i is the same as built from the whole series. */
  lemma NoLookAhead(bars: seq<Bar>, i: nat, lookback: nat)
    requires i < |bars| && Sorted(bars)
    ensures RowAt(bars[..i + 1], i + 1, i, lookback) == RowAt(bars, |bars|, i, lookback)
  {
    hide Key, Keys, Sorted, Upto, RangesOf, SummaryOf, Tail, Runs, Ended, RunningAt;
    var n, cut := i + 1, bars[..i + 1];
    RowIsCausal(bars, |bars|, i, lookback);
    RunningPrefix(bars, i, n);
    SegmentsPrefix(bars, n, n, 0, 0, 0, 0);
    var earlier := Earlier(bars, n, i);
    RangesPrefix(bars, n, n, Tail(earlier, lookback));
    if earlier != [] {
      SegmentsPrefix(bars, n, n, Last(earlier), 0, 0, 0);
    }
    RunsPrefix(bars, n, n, Keys(bars, n), ASIA);
    RunsPrefix(bars, n, n, Keys(bars, n), LONDON);
    RunsPrefix(bars, n, n, Keys(bars, n), NEW_YORK);
    RunsPrefix(bars, n, n, Keys(bars, n), OVERNIGHT);
  }

  // ----- the running day

  /**
    The running open, high and low are those of the day so far, except on the day before the
    epoch when it is the first day of the series: its number is the marker for "no day yet",
    so the running values start from zero.
  */
  lemma {:induction false} RunningDay(bars: seq<Bar>, i: nat)
    requires i < |bars| && Sorted(bars)
    ensures var r, s := RunningAt(bars, i), SummaryOf(bars, i + 1, Key(bars[i].t));
            && s.Some? && r.key == Key(bars[i].t)
            && if Key(bars[0].t) == -1 && r.key == -1
               then r.open == 0.0 && r.high == Max(0.0, s.value.h) && r.low == Min(0.0, s.value.l)
               else r.open == s.value.o && r.high == s.value.h && r.low == s.value.l
  {
    hide Key;
    if i > 0 {
      RunningDay(bars, i - 1);
      KeyOrder(bars[i - 1].t, bars[i].t);
      KeyOrder(bars[0].t, bars[i].t);
      KeysAscend(bars, i);
      if Key(bars[i].t) != Key(bars[i - 1].t) {
        NewDay(bars, i);
      }
    } else {
      assert SummaryOf(bars, 0, Key(bars[0].t)) == None;
    }
  }

  lemma NewDay(bars: seq<Bar>, i: nat)
    requires 0 < i < |bars| && Sorted(bars) && Key(bars[i].t) != Key(bars[i - 1].t)
    ensures SummaryOf(bars, i, Key(bars[i].t)) == None
    ensures Key(bars[i - 1].t) < Key(bars[i].t) && Key(bars[0].t) < Key(bars[i].t)
  {
    hide Key, Keys;
    KeyOrder(bars[i - 1].t, bars[i].t);
    KeysAscend(bars, i);
    var keys := Keys(bars, i);
    assert forall k :: k in keys ==> k <= keys[|keys| - 1];
    assert bars[0].t <= bars[i - 1].t;
    KeyOrder(bars[0].t, bars[i - 1].t);
  }
}
