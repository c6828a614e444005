/**
  The trading-day series read by the optional placement gates
  (buildClockTradingDays, priorIndex and atr in engine/family_clock_range_breakout.go).
*/
module TradingDays {
  import opened Common
  import opened ClockSchedule

  const MIN_SPAN_MS := 4 * 60 * 60 * 1000

  datatype TradingDay = TradingDay(key: int, o: real, h: real, l: real, c: real)

  /** Open, high and low of short dates waiting to be merged into a later date. */
  datatype Carry = Carry(o: real, h: real, l: real)

  /** The first bar of the clock date that bar e belongs to. */
  function DateStart(s: Schedule, bars: seq<Bar>, e: nat): (a: nat)
    requires e < |bars|
    ensures a <= e
  {
    if e > 0 && s.DayOf(bars[e - 1].t) == s.DayOf(bars[e].t) then DateStart(s, bars, e - 1) else e
  }

  /**
    Whether a trading day ends at bar e: e is the last bar of its date, and the date
    spans at least four hours or no later bar exists.
  */
  predicate IsFiledEnd(s: Schedule, bars: seq<Bar>, e: nat)
    requires e < |bars|
  {
    e + 1 == |bars|
    || (s.DayOf(bars[e + 1].t) != s.DayOf(bars[e].t)
        && bars[e].t + s.tf - bars[DateStart(s, bars, e)].t >= MIN_SPAN_MS)
  }

  /** One past the last trading-day end among the first k bars. */
  function BlockStart(s: Schedule, bars: seq<Bar>, k: nat): (a: nat)
    requires k <= |bars|
    ensures a <= k
  {
    if k == 0 then 0
    else if IsFiledEnd(s, bars, k - 1) then k
    else BlockStart(s, bars, k - 1)
  }

  /** Bars a..e as one trading day, filed under the date of its last bar. */
  function Aggregate(s: Schedule, bars: seq<Bar>, a: nat, e: nat): TradingDay
    requires a <= e < |bars|
  {
    TradingDay(s.DayOf(bars[e].t), bars[a].o, HighestHigh(bars, a, e + 1), LowestLow(bars, a, e + 1), bars[e].c)
  }

  /** The trading days that end among the first k bars: blocks between filed ends. */
  function FiledBy(s: Schedule, bars: seq<Bar>, k: nat): seq<TradingDay>
    requires k <= |bars|
  {
    if k == 0 then []
    else if IsFiledEnd(s, bars, k - 1)
    then FiledBy(s, bars, k - 1) + [Aggregate(s, bars, BlockStart(s, bars, k - 1), k - 1)]
    else FiledBy(s, bars, k - 1)
  }

  function AllDays(s: Schedule, bars: seq<Bar>): seq<TradingDay> {
    FiledBy(s, bars, |bars|)
  }

  /** Nothing is filed strictly inside a clock date. */
  lemma {:induction false} InsideDate(s: Schedule, bars: seq<Bar>, first: nat, last: nat)
    requires first <= last < |bars|
    requires forall j :: first <= j <= last ==> s.DayOf(bars[j].t) == s.DayOf(bars[first].t)
    ensures FiledBy(s, bars, last) == FiledBy(s, bars, first)
    ensures BlockStart(s, bars, last) == BlockStart(s, bars, first)
    ensures (first > 0 ==> s.DayOf(bars[first - 1].t) != s.DayOf(bars[first].t)) ==> DateStart(s, bars, last) == first
  {
    if first < last {
      InsideDate(s, bars, first, last - 1);
    }
  }

  /** What the carry holds after the bars before `first`. */
  function CarryAt(s: Schedule, bars: seq<Bar>, first: nat): Option<Carry>
    requires first <= |bars|
  {
    var a := BlockStart(s, bars, first);
    if a == first then None
    else Some(Carry(bars[a].o, HighestHigh(bars, a, first), LowestLow(bars, a, first)))
  }

  /** One clock date first..last, folded into the block it belongs to. */
  lemma DateStep(s: Schedule, bars: seq<Bar>, first: nat, last: nat)
    requires first <= last < |bars|
    requires forall j :: first <= j <= last ==> s.DayOf(bars[j].t) == s.DayOf(bars[first].t)
    requires first > 0 ==> s.DayOf(bars[first - 1].t) != s.DayOf(bars[first].t)
    requires last + 1 < |bars| ==> s.DayOf(bars[last + 1].t) != s.DayOf(bars[last].t)
    ensures var a := BlockStart(s, bars, first);
            var c := CarryAt(s, bars, first);
            var high, low := HighestHigh(bars, first, last + 1), LowestLow(bars, first, last + 1);
            var o, h, l := if c.None? then bars[first].o else c.value.o,
                           if c.None? then high else Max(high, c.value.h),
                           if c.None? then low else Min(low, c.value.l);
            if bars[last].t + s.tf - bars[first].t < MIN_SPAN_MS && last + 1 < |bars|
            then FiledBy(s, bars, last + 1) == FiledBy(s, bars, first)
                 && CarryAt(s, bars, last + 1) == Some(Carry(o, h, l))
            else FiledBy(s, bars, last + 1)
                 == FiledBy(s, bars, first) + [TradingDay(s.DayOf(bars[last].t), o, h, l, bars[last].c)]
                 && CarryAt(s, bars, last + 1) == None
  {
    InsideDate(s, bars, first, last);
    var a := BlockStart(s, bars, first);
    if a < first {
      HighLowSplit(bars, a, first, last + 1);
    }
  }

  /**
    The carrying loop of the source builds exactly the blocks between filed ends.
  */
  method BuildTradingDays(s: Schedule, bars: seq<Bar>) returns (days: seq<TradingDay>)
    ensures days == AllDays(s, bars)
  {
    days := [];
    var carry: Option<Carry> := None;
    var first := 0;
    while first < |bars|
      invariant 0 <= first <= |bars|
      invariant 0 < first < |bars| ==> s.DayOf(bars[first - 1].t) != s.DayOf(bars[first].t)
      invariant days == FiledBy(s, bars, first)
      invariant carry == CarryAt(s, bars, first)
    {
      var day := s.DayOf(bars[first].t);
      var last := first;
      while last + 1 < |bars| && s.DayOf(bars[last + 1].t) == day
        invariant first <= last < |bars|
        invariant forall j :: first <= j <= last ==> s.DayOf(bars[j].t) == day
      {
        last := last + 1;
      }
      var open, high, low := bars[first].o, bars[first].h, bars[first].l;
      for j := first + 1 to last + 1
        invariant high == HighestHigh(bars, first, j) && low == LowestLow(bars, first, j)
      {
        high, low := Max(high, bars[j].h), Min(low, bars[j].l);
      }
      DateStep(s, bars, first, last);
      if carry.Some? {
        open, high, low := carry.value.o, Max(high, carry.value.h), Min(low, carry.value.l);
        carry := None;
      }
      var span := bars[last].t + s.tf - bars[first].t;
      if span < MIN_SPAN_MS && last + 1 < |bars| {
        carry := Some(Carry(open, high, low));
      } else {
        days := days + [TradingDay(day, open, high, low, bars[last].c)];
      }
      first := last + 1;
    }
  }

  // ----- what a trading day is

  /** Bars a..e are whole clock dates, the last of them filed; nothing before e in them is. */
  ghost predicate Block(s: Schedule, bars: seq<Bar>, a: nat, e: nat) {
    && a <= e < |bars| && Files(s, bars, e) && (a > 0 ==> Files(s, bars, a - 1))
    && forall j :: a <= j < e ==> !Files(s, bars, j)
  }

  /** Bar e ends its clock date, which lasted four hours from its first open to its last close, or the series. */
  ghost predicate Files(s: Schedule, bars: seq<Bar>, e: nat) {
    e < |bars| &&
    (e + 1 == |bars|
     || exists first: nat :: first <= e && WholeDate(s, bars, first, e)
                             && bars[e].t + s.tf - bars[first].t >= 14_400_000)
  }

  /** Bars first..e are all the bars of their clock date. */
  ghost predicate WholeDate(s: Schedule, bars: seq<Bar>, first: nat, e: nat)
    requires first <= e < |bars| - 1
  {
    && (forall j :: first <= j <= e ==> s.DayOf(bars[j].t) == s.DayOf(bars[e].t))
    && s.DayOf(bars[e + 1].t) != s.DayOf(bars[e].t)
    && (first > 0 ==> s.DayOf(bars[first - 1].t) != s.DayOf(bars[e].t))
  }

  lemma {:induction false} DateStartIs(s: Schedule, bars: seq<Bar>, e: nat, first: nat)
    requires first <= e < |bars|
    requires forall j :: first <= j <= e ==> s.DayOf(bars[j].t) == s.DayOf(bars[e].t)
    requires first > 0 ==> s.DayOf(bars[first - 1].t) != s.DayOf(bars[e].t)
    ensures DateStart(s, bars, e) == first
  {
    if first < e {
      assert s.DayOf(bars[e - 1].t) == s.DayOf(bars[e].t);
      DateStartIs(s, bars, e - 1, first);
    }
  }

  lemma {:induction false} DateStartMeans(s: Schedule, bars: seq<Bar>, e: nat)
    requires e < |bars|
    ensures var first := DateStart(s, bars, e);
            && (forall j :: first <= j <= e ==> s.DayOf(bars[j].t) == s.DayOf(bars[e].t))
            && (first > 0 ==> s.DayOf(bars[first - 1].t) != s.DayOf(bars[e].t))
  {
    if e > 0 && s.DayOf(bars[e - 1].t) == s.DayOf(bars[e].t) {
      DateStartMeans(s, bars, e - 1);
    }
  }

  lemma FilesIs(s: Schedule, bars: seq<Bar>, e: nat)
    requires e < |bars|
    ensures IsFiledEnd(s, bars, e) <==> Files(s, bars, e)
  {
    DateStartMeans(s, bars, e);
    if e + 1 < |bars| {
      if IsFiledEnd(s, bars, e) {
        assert WholeDate(s, bars, DateStart(s, bars, e), e);
      }
      forall first: nat | first <= e && WholeDate(s, bars, first, e)
        ensures DateStart(s, bars, e) == first
      {
        DateStartIs(s, bars, e, first);
      }
    }
  }

  lemma {:induction false} BlockStartMeans(s: Schedule, bars: seq<Bar>, k: nat)
    requires k <= |bars|
    ensures var a := BlockStart(s, bars, k);
            && (a > 0 ==> Files(s, bars, a - 1))
            && forall j :: a <= j < k ==> !Files(s, bars, j)
  {
    hide Files, IsFiledEnd;
    if k > 0 {
      FilesIs(s, bars, k - 1);
      BlockStartMeans(s, bars, k - 1);
    }
  }

  /**
    A trading day is a block of bars: the open of its first, the close of its last, their attained
    extremes, filed under the last one's clock date. A date shorter than four hours joins the next.
  */
  lemma {:induction false} DayIsBlock(s: Schedule, bars: seq<Bar>, k: nat, d: nat) returns (a: nat, e: nat)
    requires k <= |bars| && d < |FiledBy(s, bars, k)|
    ensures a <= e < k && Block(s, bars, a, e)
    ensures var day := FiledBy(s, bars, k)[d];
            && day.key == s.DayOf(bars[e].t) && day.o == bars[a].o && day.c == bars[e].c
            && (forall j :: a <= j <= e ==> day.l <= bars[j].l && bars[j].h <= day.h)
            && (exists j :: a <= j <= e && bars[j].h == day.h)
            && (exists j :: a <= j <= e && bars[j].l == day.l)
  {
    hide Files, IsFiledEnd;
    FilesIs(s, bars, k - 1);
    if IsFiledEnd(s, bars, k - 1) && d == |FiledBy(s, bars, k - 1)| {
      e := k - 1;
      a := BlockStart(s, bars, e);
      BlockStartMeans(s, bars, e);
      HighLowAreExtremes(bars, a, e + 1);
    } else {
      a, e := DayIsBlock(s, bars, k - 1, d);
    }
  }

  /** The mean true range lies between any bounds of the ranges it is taken over. */
  lemma DailyATRStaysInBand(days: seq<TradingDay>, i: int, n: int, lo: real, hi: real)
    requires 0 < n <= i < |days| && forall j :: i - n < j <= i ==> lo <= TrueRange(days, j) <= hi
    ensures DailyATR(days, i, n).Some? && lo <= DailyATR(days, i, n).value <= hi
  {
    hide TrueRange, TrueRangeSum;
    SumStaysInBand(days, i - n + 1, i + 1, lo, hi);
    MeanInBand(TrueRangeSum(days, i - n + 1, i + 1), n, lo, hi);
  }

  lemma {:induction false} SumStaysInBand(days: seq<TradingDay>, a: int, b: int, lo: real, hi: real)
    requires 1 <= a <= b <= |days| && forall j :: a <= j < b ==> lo <= TrueRange(days, j) <= hi
    ensures lo * (b - a) as real <= TrueRangeSum(days, a, b) <= hi * (b - a) as real
    decreases b - a
  {
    hide TrueRange;
    if a < b {
      SumStaysInBand(days, a, b - 1, lo, hi);
      OneMoreOf(lo, b - 1 - a);
      OneMoreOf(hi, b - 1 - a);
    }
  }

  // ----- lookups

  ghost predicate KeysIncreasing(days: seq<TradingDay>) {
    forall i, j :: 0 <= i < j < |days| ==> days[i].key < days[j].key
  }

  /** The last trading day filed before clock day `day`, or -1. */
  function PriorIndex(days: seq<TradingDay>, day: int): (r: int)
    ensures -1 <= r < |days|
    ensures forall j :: r < j < |days| ==> days[j].key >= day
    ensures r >= 0 ==> days[r].key < day
  {
    if days == [] then -1
    else if days[|days| - 1].key < day then |days| - 1
    else PriorIndex(days[..|days| - 1], day)
  }

  function TrueRange(days: seq<TradingDay>, j: int): real
    requires 1 <= j < |days|
  {
    var prev := days[j - 1].c;
    Max(days[j].h - days[j].l, Max(Abs(days[j].h - prev), Abs(days[j].l - prev)))
  }

  function TrueRangeSum(days: seq<TradingDay>, lo: int, hi: int): real
    requires 1 <= lo <= hi <= |days|
  {
    if lo == hi then 0.0 else TrueRangeSum(days, lo, hi - 1) + TrueRange(days, hi - 1)
  }

  /** Mean true range of the n trading days ending at i; absent when day i - n is missing. */
  function DailyATR(days: seq<TradingDay>, i: int, n: int): Option<real>
    requires -1 <= i < |days| && n > 0
  {
    if i < n then None else Some(TrueRangeSum(days, i - n + 1, i + 1) / (n as real))
  }

  method ComputeDailyATR(days: seq<TradingDay>, i: int, n: int) returns (atr: Option<real>)
    requires -1 <= i < |days| && n > 0
    ensures atr == DailyATR(days, i, n)
  {
    if i < n {
      return None;
    }
    var sum := 0.0;
    for j := i - n + 1 to i + 1
      invariant sum == TrueRangeSum(days, i - n + 1, j)
    {
      var prev := days[j - 1].c;
      sum := sum + Max(days[j].h - days[j].l, Max(Abs(days[j].h - prev), Abs(days[j].l - prev)));
    }
    return Some(sum / (n as real));
  }

  // ----- causality

  lemma {:induction false} FiledKeys(s: Schedule, bars: seq<Bar>, k: nat)
    requires k <= |bars| && Increasing(bars)
    ensures KeysIncreasing(FiledBy(s, bars, k))
    ensures k < |bars| ==>
              forall j :: 0 <= j < |FiledBy(s, bars, k)| ==> FiledBy(s, bars, k)[j].key < s.DayOf(bars[k].t)
  {
    if k > 0 {
      FiledKeys(s, bars, k - 1);
      if k < |bars| {
        DayOfMonotone(s, bars[k - 1].t, bars[k].t);
      }
    }
  }

  /** Which bars end trading days is settled as soon as one later bar is known. */
  lemma {:induction false} FiledPrefix(s: Schedule, bars: seq<Bar>, m: nat, q: nat)
    requires q < m <= |bars|
    ensures FiledBy(s, bars[..m], q) == FiledBy(s, bars, q)
    ensures BlockStart(s, bars[..m], q) == BlockStart(s, bars, q)
  {
    if q > 0 {
      FiledPrefix(s, bars, m, q - 1);
      DateStartPrefix(s, bars, m, q - 1);
      var a := BlockStart(s, bars, q - 1);
      HighLowPrefix(bars, a, q, m);
    }
  }

  lemma {:induction false} DateStartPrefix(s: Schedule, bars: seq<Bar>, m: nat, e: nat)
    requires e < m <= |bars|
    ensures DateStart(s, bars[..m], e) == DateStart(s, bars, e)
  {
    if e > 0 {
      DateStartPrefix(s, bars, m, e - 1);
    }
  }

  /** Bars from q on only append trading days whose key is at least that of bar q. */
  lemma {:induction false} FiledExtends(s: Schedule, bars: seq<Bar>, q: nat, k: nat)
    requires q < |bars| && q <= k <= |bars| && Increasing(bars)
    ensures FiledBy(s, bars, q) <= FiledBy(s, bars, k)
    ensures forall j :: |FiledBy(s, bars, q)| <= j < |FiledBy(s, bars, k)| ==>
              FiledBy(s, bars, k)[j].key >= s.DayOf(bars[q].t)
  {
    if q < k {
      FiledExtends(s, bars, q, k - 1);
      if q < k - 1 {
        DayOfMonotone(s, bars[q].t, bars[k - 1].t);
      }
    }
  }

  lemma {:induction false} PriorIndexSplit(days: seq<TradingDay>, cut: nat, day: int)
    requires cut <= |days|
    requires forall j :: 0 <= j < cut ==> days[j].key < day
    requires forall j :: cut <= j < |days| ==> days[j].key >= day
    ensures PriorIndex(days, day) == cut - 1
  {
    if cut < |days| {
      PriorIndexSplit(days[..|days| - 1], cut, day);
    }
  }

  /** The least bar of clock day `day` or later. */
  function FirstOfDay(s: Schedule, bars: seq<Bar>, day: int): (q: nat)
    ensures q <= |bars|
    ensures forall j :: 0 <= j < q ==> s.DayOf(bars[j].t) < day
    ensures q < |bars| ==> s.DayOf(bars[q].t) >= day
  {
    if bars == [] then 0
    else
      var r := FirstOfDay(s, bars[..|bars| - 1], day);
      if r < |bars| - 1 then r
      else if s.DayOf(bars[r].t) >= day then r else r + 1
  }

  /**
    The gates see no future: once a prefix holds a bar of clock day `day` or later,
    the prior trading day, everything filed up to it, and so every daily ATR read
    there, are those of the whole series.
  */
  lemma PriorDaysAreCausal(s: Schedule, bars: seq<Bar>, m: nat, p: nat, day: int, n: nat)
    requires Increasing(bars) && p < m <= |bars| && s.DayOf(bars[p].t) >= day && n > 0
    ensures var full, known := AllDays(s, bars), AllDays(s, bars[..m]);
            var i := PriorIndex(full, day);
            && PriorIndex(known, day) == i
            && full[..i + 1] == known[..i + 1]
            && DailyATR(full, i, n) == DailyATR(known, i, n)
  {
    var q := FirstOfDay(s, bars, day);
    var full, known, filed := AllDays(s, bars), AllDays(s, bars[..m]), FiledBy(s, bars, q);
    assert q <= p;
    PriorIndexIsFiled(s, bars, q, day);
    FiledPrefix(s, bars, m, q);
    PriorIndexIsFiled(s, bars[..m], q, day);
    var i := |filed| - 1;
    assert full[..i + 1] == filed && known[..i + 1] == filed;
    SharedATR(full, known, i, n);
  }

  /** With q the first bar of clock day `day` or later, exactly the days filed before q precede `day`. */
  lemma PriorIndexIsFiled(s: Schedule, bars: seq<Bar>, q: nat, day: int)
    requires Increasing(bars) && q < |bars| && s.DayOf(bars[q].t) >= day
    requires forall j :: 0 <= j < q ==> s.DayOf(bars[j].t) < day
    ensures PriorIndex(AllDays(s, bars), day) == |FiledBy(s, bars, q)| - 1
    ensures AllDays(s, bars)[..|FiledBy(s, bars, q)|] == FiledBy(s, bars, q)
  {
    FiledExtends(s, bars, q, |bars|);
    FiledBefore(s, bars, q, day);
    PriorIndexSplit(AllDays(s, bars), |FiledBy(s, bars, q)|, day);
  }

  lemma SharedATR(a: seq<TradingDay>, b: seq<TradingDay>, i: int, n: nat)
    requires -1 <= i < |a| && i < |b| && a[..i + 1] == b[..i + 1] && n > 0
    ensures DailyATR(a, i, n) == DailyATR(b, i, n)
  {
    if n <= i {
      TrueRangeAgree(a, b, i - n + 1, i + 1);
    }
  }

  lemma {:induction false} FiledBefore(s: Schedule, bars: seq<Bar>, q: nat, day: int)
    requires q <= |bars| && forall j :: 0 <= j < q ==> s.DayOf(bars[j].t) < day
    ensures forall j :: 0 <= j < |FiledBy(s, bars, q)| ==> FiledBy(s, bars, q)[j].key < day
  {
    if q > 0 {
      FiledBefore(s, bars, q - 1, day);
    }
  }

  lemma {:induction false} TrueRangeAgree(a: seq<TradingDay>, b: seq<TradingDay>, lo: int, hi: int)
    requires 1 <= lo <= hi <= |a| && hi <= |b| && a[..hi] == b[..hi]
    ensures TrueRangeSum(a, lo, hi) == TrueRangeSum(b, lo, hi)
  {
    if lo < hi {
      assert a[..hi - 1] == a[..hi][..hi - 1] == b[..hi - 1];
      assert a[hi - 1] == a[..hi][hi - 1] && a[hi - 2] == a[..hi][hi - 2];
      assert b[hi - 1] == b[..hi][hi - 1] && b[hi - 2] == b[..hi][hi - 2];
      TrueRangeAgree(a, b, lo, hi - 1);
    }
  }
}
