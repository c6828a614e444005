/**
  Scheduling source decisions on chart bars (engine/entry_scheduler.go): one pass with a chart
  pointer that never moves back, proved equal to a search for every event.
*/
module EntryScheduler {
  import opened Common

  datatype ScheduledEntry = ScheduledEntry(sourceIndex: int, chartIndex: nat, sourceClose: int, entryTime: int)

  // ----- the bar duration

  ghost predicate IsGap(times: seq<int>, i: nat, d: int) {
    1 <= i < |times| && times[i] - times[i - 1] == d && d > 0
  }

  /** inferredDuration: the least positive step between neighbouring bars, or zero when there is none. */
  method InferredDuration(times: seq<int>) returns (d: int)
    ensures d == DurationOf(times, |times|)
  {
    d := 0;
    if times == [] {
      return;
    }
    for i := 1 to |times|
      invariant d == DurationOf(times, i)
    {
      var delta := times[i] - times[i - 1];
      if delta > 0 && (d == 0 || delta < d) {
        d := delta;
      }
    }
  }

  function DurationOf(times: seq<int>, n: nat): int
    requires n <= |times|
  {
    if n < 2 then 0
    else
      var before, delta := DurationOf(times, n - 1), times[n - 1] - times[n - 2];
      if delta > 0 && (before == 0 || delta < before) then delta else before
  }

  lemma {:induction false} DurationIsLeastGap(times: seq<int>, n: nat)
    requires n <= |times|
    ensures DurationOf(times, n) >= 0
    ensures DurationOf(times, n) == 0 <==> forall i: nat, d :: i < n ==> !IsGap(times, i, d)
    ensures DurationOf(times, n) > 0 ==> exists i: nat :: i < n && IsGap(times, i, DurationOf(times, n))
    ensures DurationOf(times, n) > 0 ==> forall i: nat, d :: i < n && IsGap(times, i, d) ==> DurationOf(times, n) <= d
  {
    if n >= 2 {
      DurationIsLeastGap(times, n - 1);
      var delta := times[n - 1] - times[n - 2];
      if delta > 0 {
        assert IsGap(times, n - 1, delta);
      }
    }
  }

  // ----- the search

  /** The first chart bar that closes strictly after t, or the number of bars. */
  function FirstAfter(chart: seq<int>, duration: int, t: int, from: nat): (c: nat)
    requires from <= |chart|
    ensures from <= c <= |chart|
    ensures forall j :: from <= j < c ==> chart[j] + duration <= t
    ensures c < |chart| ==> chart[c] + duration > t
    decreases |chart| - from
  {
    if from == |chart| || chart[from] + duration > t then from else FirstAfter(chart, duration, t, from + 1)
  }

  lemma {:induction false} FirstAfterFrom(chart: seq<int>, duration: int, t: int, from: nat, c: nat)
    requires from <= c <= |chart|
    requires forall j :: from <= j < c ==> chart[j] + duration <= t
    requires c < |chart| ==> chart[c] + duration > t
    ensures FirstAfter(chart, duration, t, from) == c
    decreases c - from
  {
    if from < c {
      FirstAfterFrom(chart, duration, t, from + 1, c);
    }
  }

  lemma {:induction false} LaterSearch(chart: seq<int>, duration: int, s: int, t: int, from: nat)
    requires s <= t && from <= |chart|
    ensures FirstAfter(chart, duration, s, from) <= FirstAfter(chart, duration, t, from)
    decreases |chart| - from
  {
    if from < |chart| && chart[from] + duration <= s {
      LaterSearch(chart, duration, s, t, from + 1);
    }
  }

  /** A source decision that the pass looks at: a real bar that closes no earlier than the chart opens. */
  predicate Considered(source: seq<int>, chart: seq<int>, duration: int, index: int) {
    0 <= index < |source| && chart != [] && source[index] + duration >= chart[0]
  }

  function CloseOf(source: seq<int>, duration: int, index: int): int
    requires 0 <= index < |source|
  {
    source[index] + duration
  }

  /** The latest considered close among the first q decisions. */
  function Latest(source: seq<int>, chart: seq<int>, duration: int, indices: seq<int>, q: nat): Option<int>
    requires q <= |indices|
  {
    if q == 0 then None
    else
      var before, index := Latest(source, chart, duration, indices, q - 1), indices[q - 1];
      if !Considered(source, chart, duration, index) then before
      else match before
        case None => Some(CloseOf(source, duration, index))
        case Some(t) => Some(if t < CloseOf(source, duration, index) then CloseOf(source, duration, index) else t)
  }

  /** Where the pass stands after q decisions. */
  function Pointer(source: seq<int>, chart: seq<int>, ds: int, dc: int, indices: seq<int>, q: nat): (c: nat)
    requires q <= |indices|
    ensures c <= |chart|
  {
    match Latest(source, chart, ds, indices, q)
    case None => 0
    case Some(t) => FirstAfter(chart, dc, t, 0)
  }

  /** The entry of decision q, if it is the first of its index, considered, and the chart still has a bar. */
  function EntryOf(source: seq<int>, chart: seq<int>, ds: int, dc: int, indices: seq<int>,
                   q: nat): Option<ScheduledEntry>
    requires q < |indices|
  {
    var index, c := indices[q], Pointer(source, chart, ds, dc, indices, q + 1);
    if !Considered(source, chart, ds, index) || index in indices[..q] || c == |chart| then None
    else Some(ScheduledEntry(index, c, CloseOf(source, ds, index), chart[c] + dc))
  }

  function Plan(source: seq<int>, chart: seq<int>, ds: int, dc: int, indices: seq<int>, q: nat): seq<ScheduledEntry>
    requires q <= |indices|
  {
    if q == 0 then []
    else
      Plan(source, chart, ds, dc, indices, q - 1)
      + match EntryOf(source, chart, ds, dc, indices, q - 1)
        case None => []
        case Some(e) => [e]
  }

  /** ScheduleSourceEvents. */
  method ScheduleSourceEvents(source: seq<int>, chart: seq<int>, indices: seq<int>) returns (out: seq<ScheduledEntry>)
    ensures var ds, dc := DurationOf(source, |source|), DurationOf(chart, |chart|);
            out == if ds <= 0 || dc <= 0 then [] else Plan(source, chart, ds, dc, indices, |indices|)
  {
    hide FirstAfter, DurationOf, Latest;
    var ds := InferredDuration(source);
    var dc := InferredDuration(chart);
    out := [];
    if ds <= 0 || dc <= 0 {
      return;
    }
    ChartNotEmpty(chart);
    var seen: set<int> := {};
    var chartIndex := 0;
    NoDecisions(source, chart, ds, indices);
    for q := 0 to |indices|
      invariant forall x :: x in seen <==> x in indices[..q] && 0 <= x < |source|
      invariant chartIndex == Pointer(source, chart, ds, dc, indices, q)
      invariant out == Plan(source, chart, ds, dc, indices, q)
    {
      var index := indices[q];
      assert indices[..q + 1] == indices[..q] + [index];
      LatestStep(source, chart, ds, indices, q);
      if index < 0 || index >= |source| || index in seen {
        if index in seen {
          SeenIsCovered(source, chart, ds, indices, q);
        }
        continue;
      }
      seen := seen + {index};
      var sourceClose := source[index] + ds;
      if sourceClose < chart[0] {
        continue;
      }
      ghost var start := chartIndex;
      while chartIndex < |chart| && chart[chartIndex] + dc <= sourceClose
        invariant start <= chartIndex <= |chart|
        invariant forall j :: start <= j < chartIndex ==> chart[j] + dc <= sourceClose
      {
        chartIndex := chartIndex + 1;
      }
      PointerMoves(source, chart, ds, dc, indices, q, chartIndex);
      if chartIndex >= |chart| {
        continue;
      }
      out := out + [ScheduledEntry(index, chartIndex, sourceClose, chart[chartIndex] + dc)];
    }
  }

  lemma ChartNotEmpty(chart: seq<int>)
    requires DurationOf(chart, |chart|) > 0
    ensures chart != []
  {
  }

  lemma NoDecisions(source: seq<int>, chart: seq<int>, duration: int, indices: seq<int>)
    ensures Latest(source, chart, duration, indices, 0) == None
  {
  }

  lemma LatestStep(source: seq<int>, chart: seq<int>, duration: int, indices: seq<int>, q: nat)
    requires q < |indices|
    ensures var before, index := Latest(source, chart, duration, indices, q), indices[q];
            var own := if Considered(source, chart, duration, index) then Some(CloseOf(source, duration, index))
                       else None;
            Latest(source, chart, duration, indices, q + 1)
            == if own.None? || (before.Some? && before.value >= own.value) then before else own
  {
  }

  /** An index seen before has already been taken into account. */
  lemma {:induction false} LatestCovers(source: seq<int>, chart: seq<int>, duration: int, indices: seq<int>, q: nat,
                                        r: nat)
    requires r < q <= |indices| && Considered(source, chart, duration, indices[r])
    ensures var t := Latest(source, chart, duration, indices, q);
            t.Some? && CloseOf(source, duration, indices[r]) <= t.value
  {
    if r < q - 1 {
      LatestCovers(source, chart, duration, indices, q - 1, r);
    }
  }

  lemma SeenIsCovered(source: seq<int>, chart: seq<int>, duration: int, indices: seq<int>, q: nat)
    requires q < |indices| && indices[q] in indices[..q]
    ensures Latest(source, chart, duration, indices, q + 1) == Latest(source, chart, duration, indices, q)
  {
    if Considered(source, chart, duration, indices[q]) {
      var r :| 0 <= r < q && indices[..q][r] == indices[q];
      LatestCovers(source, chart, duration, indices, q, r);
    }
  }

  /** Advancing from where the pass stood reaches the search result for the latest close. */
  lemma PointerMoves(source: seq<int>, chart: seq<int>, ds: int, dc: int, indices: seq<int>, q: nat, c: nat)
    requires q < |indices| && Considered(source, chart, ds, indices[q])
    requires Pointer(source, chart, ds, dc, indices, q) <= c <= |chart|
    requires forall j :: Pointer(source, chart, ds, dc, indices, q) <= j < c ==>
               chart[j] + dc <= CloseOf(source, ds, indices[q])
    requires c < |chart| ==> chart[c] + dc > CloseOf(source, ds, indices[q])
    ensures c == Pointer(source, chart, ds, dc, indices, q + 1)
  {
    hide Latest;
    LatestStep(source, chart, ds, indices, q);
    var before := Latest(source, chart, ds, indices, q);
    var now := Latest(source, chart, ds, indices, q + 1).value;
    if before.None? || before.value < now {
      FirstAfterFrom(chart, dc, now, 0, c);
    } else {
      var p := FirstAfter(chart, dc, now, 0);
      assert p < |chart| ==> chart[p] + dc > now;
    }
  }

  // ----- what the plan means

  /** The decision names a source bar, and the chart has a bar that opens no later than that bar closes. */
  predicate Covered(source: seq<int>, chart: seq<int>, duration: int, index: int) {
    && 0 <= index < |source| && chart != []
    && var close := source[index] + duration;
       chart[0] <= close
  }

  /** What a search for one decision alone gives: the least chart bar closing strictly after its close, if any. */
  function OwnEntry(source: seq<int>, chart: seq<int>, ds: int, dc: int, index: int): (e: Option<ScheduledEntry>)
    requires Covered(source, chart, ds, index)
    ensures e.None? ==> forall j :: 0 <= j < |chart| ==> chart[j] + dc <= source[index] + ds
    ensures e.Some? ==>
              && 0 <= e.value.chartIndex < |chart| && e.value.entryTime == chart[e.value.chartIndex] + dc
              && e.value.entryTime > e.value.sourceClose == source[index] + ds
              && forall j :: 0 <= j < e.value.chartIndex ==> chart[j] + dc <= e.value.sourceClose
  {
    var t := CloseOf(source, ds, index);
    var c := FirstAfter(chart, dc, t, 0);
    if c == |chart| then None else Some(ScheduledEntry(index, c, t, chart[c] + dc))
  }

  ghost predicate Ascending(s: seq<int>) {
    forall i, j :: 0 <= i < j < |s| ==> s[i] < s[j]
  }

  ghost predicate Nondecreasing(s: seq<int>) {
    forall i, j :: 0 <= i < j < |s| ==> s[i] <= s[j]
  }

  /** With decisions in order, the latest close is always the current one. */
  lemma {:induction false} LatestIsOwn(source: seq<int>, chart: seq<int>, duration: int, indices: seq<int>, q: nat)
    requires Ascending(source) && Nondecreasing(indices) && q < |indices|
             && Considered(source, chart, duration, indices[q])
    ensures Latest(source, chart, duration, indices, q + 1) == Some(CloseOf(source, duration, indices[q]))
  {
    LatestStep(source, chart, duration, indices, q);
    LatestBelow(source, chart, duration, indices, q, CloseOf(source, duration, indices[q]), indices[q]);
  }

  lemma {:induction false} LatestBelow(source: seq<int>, chart: seq<int>, duration: int, indices: seq<int>, q: nat,
                                       t: int, top: int)
    requires Ascending(source) && q <= |indices| && 0 <= top < |source| && t == CloseOf(source, duration, top)
    requires forall r :: 0 <= r < q ==> indices[r] <= top
    ensures Latest(source, chart, duration, indices, q).Some? ==> Latest(source, chart, duration, indices, q).value <= t
  {
    if q > 0 {
      LatestBelow(source, chart, duration, indices, q - 1, t, top);
      assert indices[q - 1] <= top;
    }
  }

  /**
    For decisions in order the one pass equals the search it replaces: decision q is scheduled
    just as its own search says when it is considered and the first of its index, and not at all
    otherwise.
  */
  lemma PassIsSearch(source: seq<int>, chart: seq<int>, ds: int, dc: int, indices: seq<int>, q: nat)
    requires Ascending(source) && Nondecreasing(indices) && q < |indices|
    ensures var index := indices[q];
            EntryOf(source, chart, ds, dc, indices, q)
            == if Covered(source, chart, ds, index) && index !in indices[..q]
               then OwnEntry(source, chart, ds, dc, index) else None
  {
    hide Latest, FirstAfter;
    if Considered(source, chart, ds, indices[q]) {
      LatestIsOwn(source, chart, ds, indices, q);
    }
  }

  /** The latest close belongs to a considered decision. */
  lemma {:induction false} LatestAttained(source: seq<int>, chart: seq<int>, duration: int, indices: seq<int>, q: nat)
    returns (r: nat)
    requires q <= |indices| && Latest(source, chart, duration, indices, q).Some?
    ensures r < q && Considered(source, chart, duration, indices[r])
    ensures Latest(source, chart, duration, indices, q) == Some(CloseOf(source, duration, indices[r]))
  {
    LatestStep(source, chart, duration, indices, q - 1);
    if Latest(source, chart, duration, indices, q) == Latest(source, chart, duration, indices, q - 1) {
      r := LatestAttained(source, chart, duration, indices, q - 1);
    } else {
      r := q - 1;
    }
  }

  /** No considered decision up to q has to wait for a later chart bar than decision q itself. */
  ghost predicate NoneWaitsLonger(source: seq<int>, chart: seq<int>, ds: int, dc: int, indices: seq<int>, q: nat)
    requires q < |indices| && 0 <= indices[q] < |source|
  {
    forall r :: 0 <= r <= q && Considered(source, chart, ds, indices[r]) ==>
      FirstAfter(chart, dc, CloseOf(source, ds, indices[r]), 0)
      <= FirstAfter(chart, dc, CloseOf(source, ds, indices[q]), 0)
  }

  /**
    In any order: a considered decision that is the first of its index gets what its own search
    gives, an entry or nothing, if and only if no decision considered before it had to wait for
    a later chart bar. Whatever it gets lies after its source close.
  */
  lemma SearchedExactlyWhen(source: seq<int>, chart: seq<int>, ds: int, dc: int, indices: seq<int>, q: nat)
    requires q < |indices| && Covered(source, chart, ds, indices[q]) && indices[q] !in indices[..q]
    ensures var e := EntryOf(source, chart, ds, dc, indices, q);
            && (e.Some? ==> e.value.entryTime > e.value.sourceClose)
            && (e == OwnEntry(source, chart, ds, dc, indices[q])
                <==> NoneWaitsLonger(source, chart, ds, dc, indices, q))
  {
    hide Latest, FirstAfter;
    var own := CloseOf(source, ds, indices[q]);
    LatestStep(source, chart, ds, indices, q);
    var top := Latest(source, chart, ds, indices, q + 1).value;
    LaterSearch(chart, dc, own, top, 0);
    forall r | 0 <= r <= q && Considered(source, chart, ds, indices[r])
      ensures FirstAfter(chart, dc, CloseOf(source, ds, indices[r]), 0) <= FirstAfter(chart, dc, top, 0)
    {
      LatestCovers(source, chart, ds, indices, q + 1, r);
      LaterSearch(chart, dc, CloseOf(source, ds, indices[r]), top, 0);
    }
    var r := LatestAttained(source, chart, ds, indices, q + 1);
  }

  lemma {:induction false} PointerGrows(source: seq<int>, chart: seq<int>, ds: int, dc: int, indices: seq<int>, p: nat,
                                        q: nat)
    requires p <= q <= |indices|
    ensures Pointer(source, chart, ds, dc, indices, p) <= Pointer(source, chart, ds, dc, indices, q)
  {
    hide Latest, FirstAfter;
    if p < q {
      PointerGrows(source, chart, ds, dc, indices, p, q - 1);
      LatestStep(source, chart, ds, indices, q - 1);
      var before, now := Latest(source, chart, ds, indices, q - 1), Latest(source, chart, ds, indices, q);
      if before.Some? {
        LaterSearch(chart, dc, before.value, now.value, 0);
      }
    }
  }

  /** Each index is scheduled at most once and chart indexes never go back, whatever the order. */
  lemma {:induction false} PlanIsOrderly(source: seq<int>, chart: seq<int>, ds: int, dc: int, indices: seq<int>, q: nat)
    requires q <= |indices|
    ensures forall j :: 0 <= j < |Plan(source, chart, ds, dc, indices, q)| ==>
              var e := Plan(source, chart, ds, dc, indices, q)[j];
              e.sourceIndex in indices[..q] && e.chartIndex <= Pointer(source, chart, ds, dc, indices, q)
    ensures forall j, k :: 0 <= j < k < |Plan(source, chart, ds, dc, indices, q)| ==>
              InOrder(Plan(source, chart, ds, dc, indices, q)[j], Plan(source, chart, ds, dc, indices, q)[k])
  {
    hide Pointer;
    if q > 0 {
      PlanIsOrderly(source, chart, ds, dc, indices, q - 1);
      PointerGrows(source, chart, ds, dc, indices, q - 1, q);
      assert indices[..q] == indices[..q - 1] + [indices[q - 1]];
    }
  }

  ghost predicate InOrder(a: ScheduledEntry, b: ScheduledEntry) {
    a.chartIndex <= b.chartIndex && a.sourceIndex != b.sourceIndex
  }

  /** Out of order the pass and the search differ: the earlier decision is sent to the later one's bar. */
  lemma OutOfOrderDiffers()
    ensures var source, chart, indices := [0, 10, 20], [0, 5, 10, 15, 20, 25, 30, 35], [2, 0];
            && DurationOf(source, 3) == 10 && DurationOf(chart, 8) == 5
            && EntryOf(source, chart, 10, 5, indices, 1) == Some(ScheduledEntry(0, 6, 10, 35))
            && OwnEntry(source, chart, 10, 5, 0) == Some(ScheduledEntry(0, 2, 10, 15))
  {
    var source, chart, indices := [0, 10, 20], [0, 5, 10, 15, 20, 25, 30, 35], [2, 0];
    assert DurationOf(chart, 4) == 5;
    assert DurationOf(chart, 6) == 5;
    FirstAfterFrom(chart, 5, 10, 0, 2);
    FirstAfterFrom(chart, 5, 30, 0, 6);
    LatestStep(source, chart, 10, indices, 0);
    LatestStep(source, chart, 10, indices, 1);
    assert indices[..1] == [2];
  }

  /** Out of order a decision is even lost: the chart ends before a bar closes after the later one. */
  lemma OutOfOrderLoses()
    ensures var source, chart, indices := [0, 10, 20], [0, 5, 10, 15, 20], [2, 0];
            && DurationOf(source, 3) == 10 && DurationOf(chart, 5) == 5
            && EntryOf(source, chart, 10, 5, indices, 1) == None
            && OwnEntry(source, chart, 10, 5, 0) == Some(ScheduledEntry(0, 2, 10, 15))
  {
    var source, chart, indices := [0, 10, 20], [0, 5, 10, 15, 20], [2, 0];
    assert DurationOf(chart, 3) == 5;
    FirstAfterFrom(chart, 5, 10, 0, 2);
    FirstAfterFrom(chart, 5, 30, 0, 5);
    LatestStep(source, chart, 10, indices, 0);
    LatestStep(source, chart, 10, indices, 1);
    assert indices[..1] == [2];
  }
}
