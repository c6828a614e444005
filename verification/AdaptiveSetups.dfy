/**
  When a row of the adaptive flag is a valid setup, said of the bars: a recent pole of enough
  average ranges between the latest pivots, and a flag that stays inside its share of the pole.
*/
module AdaptiveSetups {
  import opened Common
  import opened AdaptiveBracket
  import opened AdaptiveSignals

  // ----- pivots and flags

  /** Bar k is higher than every other bar within reach of it. */
  ghost predicate Peak(bars: seq<FlagBar>, k: nat, reach: nat) {
    reach <= k && k + reach < |bars| &&
    forall j :: k - reach <= j <= k + reach && j != k ==> bars[j].high < bars[k].high
  }

  ghost predicate Trough(bars: seq<FlagBar>, k: nat, reach: nat) {
    reach <= k && k + reach < |bars| &&
    forall j :: k - reach <= j <= k + reach && j != k ==> bars[k].low < bars[j].low
  }

  /** Bar k is the latest peak that has all the bars within reach of it by row i. */
  ghost predicate LatestPeak(bars: seq<FlagBar>, i: nat, reach: nat, k: nat) {
    k + reach <= i && Peak(bars, k, reach) && forall j :: k < j && j + reach <= i ==> !Peak(bars, j, reach)
  }

  ghost predicate LatestTrough(bars: seq<FlagBar>, i: nat, reach: nat, k: nat) {
    k + reach <= i && Trough(bars, k, reach) && forall j :: k < j && j + reach <= i ==> !Trough(bars, j, reach)
  }

  /** The number of flag bars: as many as since the latest peak, within the two limits. */
  function FlagLength(r: SignalRules, since: nat): nat {
    if since <= r.minFlagBars then r.minFlagBars
    else if since >= r.maxFlagBars then r.maxFlagBars
    else since
  }

  /** Bar j is one of the flag bars of row i when the latest peak is bar hi. */
  predicate InFlag(r: SignalRules, i: nat, hi: nat, j: nat) {
    hi <= i && j <= i && i < j + FlagLength(r, i - hi)
  }

  // ----- the filters

  /** The fast average is on the side, or the close is beyond it. */
  ghost predicate AveragesAgree(bars: seq<FlagBar>, r: SignalRules, i: nat, side: Side)
    requires i < |bars|
  {
    var fast, slow, close := Ema(bars, r.fastLen, i), Ema(bars, r.slowLen, i), bars[i].close;
    r.useEMA ==>
      match side
      case Long => slow < fast || fast < close
      case Short => fast < slow || close < fast
  }

  /** The volume exceeds its multiple of the mean over the last volumeLen rows, which must exist. */
  ghost predicate VolumeExceeds(bars: seq<FlagBar>, r: SignalRules, i: nat)
    requires i < |bars| && r.Valid()
  {
    r.useVolume ==>
      && r.volumeLen <= i + 1
      && r.volumeLen as real * bars[i].volume > VolumeSum(bars, i + 1 - r.volumeLen, i + 1) * r.volumeMult
  }

  // ----- the two sides

  function Times(a: real, b: real): real {
    a * b
  }

  /** A pole of enough average ranges, and flag bars inside their share of it. */
  ghost predicate PoleAndFlag(bars: seq<FlagBar>, r: SignalRules, i: nat, hi: nat, pole: real)
    requires i < |bars| && r.Valid()
  {
    && r.atrLen <= i + 1 && AverageRange(bars, r.atrLen, i).Some?
    && pole >= Times(r.minPoleATR, AverageRange(bars, r.atrLen, i).value)
    && (forall j: nat, k: nat :: InFlag(r, i, hi, j) && InFlag(r, i, hi, k) ==>
          bars[j].high - bars[k].low <= Times(pole, r.widthMult))
  }

  /** A rise from the latest trough, at bar lo, to the newest bar a pivot could be, and a flag after the peak at hi. */
  ghost predicate LongSetup(bars: seq<FlagBar>, r: SignalRules, i: nat, lo: nat, hi: nat)
    requires i < |bars| && r.Valid()
  {
    && LatestTrough(bars, i, r.sensitivity, lo) && LatestPeak(bars, i, r.sensitivity, hi) && lo < hi
    && i - lo <= r.sensitivity + r.maxFlagBars + 6
    && AveragesAgree(bars, r, i, Long) && VolumeExceeds(bars, r, i)
    && var pole := bars[i - r.sensitivity].high - bars[lo].low;
       PoleAndFlag(bars, r, i, hi, pole)
       && forall j: nat :: InFlag(r, i, hi, j) ==> bars[hi].high - bars[j].low <= Times(pole, r.maxFlagRetrace)
  }

  /** A fall from the latest peak, at bar hi, and a flag that has not risen far from the trough at lo. */
  ghost predicate ShortSetup(bars: seq<FlagBar>, r: SignalRules, i: nat, lo: nat, hi: nat)
    requires i < |bars| && r.Valid()
  {
    && LatestTrough(bars, i, r.sensitivity, lo) && LatestPeak(bars, i, r.sensitivity, hi) && hi < lo
    && i - hi <= r.sensitivity + r.maxFlagBars + 6
    && AveragesAgree(bars, r, i, Short) && VolumeExceeds(bars, r, i)
    && var pole := bars[hi].high - bars[i - r.sensitivity].low;
       PoleAndFlag(bars, r, i, hi, pole)
       && forall j: nat :: InFlag(r, i, hi, j) ==> bars[j].high - bars[lo].low <= Times(pole, r.maxFlagRetrace)
  }

  lemma LastHighIs(bars: seq<FlagBar>, i: nat, reach: nat)
    requires i < |bars|
    ensures match LastPivot(bars, i, reach, true)
            case None => forall k :: !LatestPeak(bars, i, reach, k)
            case Some(p) =>
              && LatestPeak(bars, i, reach, p.index) && p.price == bars[p.index].high
              && forall k :: LatestPeak(bars, i, reach, k) ==> k == p.index
  {
    LastPivotIsLatest(bars, i, reach, true);
    forall k | reach <= k && k + reach < |bars|
      ensures Peak(bars, k, reach) <==> IsPivot(bars, k, reach, true)
    {
    }
  }

  lemma LastLowIs(bars: seq<FlagBar>, i: nat, reach: nat)
    requires i < |bars|
    ensures match LastPivot(bars, i, reach, false)
            case None => forall k :: !LatestTrough(bars, i, reach, k)
            case Some(p) =>
              && LatestTrough(bars, i, reach, p.index) && p.price == bars[p.index].low
              && forall k :: LatestTrough(bars, i, reach, k) ==> k == p.index
  {
    LastPivotIsLatest(bars, i, reach, false);
    forall k | reach <= k && k + reach < |bars|
      ensures Trough(bars, k, reach) <==> IsPivot(bars, k, reach, false)
    {
    }
  }

  lemma LatestAre(bars: seq<FlagBar>, i: nat, reach: nat, lo: nat, hi: nat)
    requires i < |bars| && LatestTrough(bars, i, reach, lo) && LatestPeak(bars, i, reach, hi)
    ensures lo + reach <= i && hi + reach <= i
    ensures LastPivot(bars, i, reach, false).Some? && LastPivot(bars, i, reach, true).Some?
    ensures var p, q := LastPivot(bars, i, reach, false).value, LastPivot(bars, i, reach, true).value;
            p.index == lo && p.price == bars[lo].low && q.index == hi && q.price == bars[hi].high
  {
    LastHighIs(bars, i, reach);
    LastLowIs(bars, i, reach);
    hide LastPivot;
  }

  lemma FlagIs(r: SignalRules, i: nat, lastHi: Option<Pivot>, hi: nat)
    requires r.Valid() && lastHi.Some? && lastHi.value.index == hi <= i
    ensures forall j: nat :: InFlag(r, i, hi, j) <==> FlagStart(i, lastHi, r) <= j <= i
    ensures FlagStart(i, lastHi, r) <= i
  {
  }

  /** The flag's extremes are bounded exactly when every flag bar is. */
  lemma FlagBounds(bars: seq<FlagBar>, r: SignalRules, i: nat, lastHi: Option<Pivot>, hi: nat, x: real, t: real)
    requires r.Valid() && lastHi.Some? && lastHi.value.index == hi <= i < |bars|
    ensures var start := FlagStart(i, lastHi, r);
            && start <= i
            && (x - WindowLow(bars, start, i + 1) <= t <==>
                  forall j: nat :: InFlag(r, i, hi, j) ==> x - bars[j].low <= t)
            && (WindowHigh(bars, start, i + 1) - x <= t <==>
                  forall j: nat :: InFlag(r, i, hi, j) ==> bars[j].high - x <= t)
  {
    FlagIs(r, i, lastHi, hi);
    hide FlagStart, InFlag;
    WindowExtremes(bars, FlagStart(i, lastHi, r), i + 1);
  }

  lemma WidthBound(bars: seq<FlagBar>, start: nat, i: nat, width: real)
    requires start <= i < |bars|
    ensures WindowHigh(bars, start, i + 1) - WindowLow(bars, start, i + 1) <= width
            <==> forall j, k :: start <= j <= i && start <= k <= i ==> bars[j].high - bars[k].low <= width
  {
    WindowExtremes(bars, start, i + 1);
    var a :| start <= a < i + 1 && bars[a].high == WindowHigh(bars, start, i + 1);
    var b :| start <= b < i + 1 && bars[b].low == WindowLow(bars, start, i + 1);
  }

  lemma VolumeIs(bars: seq<FlagBar>, r: SignalRules, i: nat)
    requires i < |bars| && r.Valid()
    ensures VolumeOK(FactsAt(bars, r, i), r) <==> VolumeExceeds(bars, r, i)
  {
    hide Ema, AverageRange, LastPivot, PivotAt, WindowHigh, WindowLow, TrueRange;
    if r.volumeLen <= i + 1 {
      MeanTimes(VolumeSum(bars, i + 1 - r.volumeLen, i + 1), r.volumeLen as real, r.volumeMult, bars[i].volume);
    }
  }

  lemma MeanTimes(sum: real, n: real, mult: real, x: real)
    requires n > 0.0
    ensures x > (sum / n) * mult <==> n * x > sum * mult
  {
    var mean := sum / n;
    assert n * mean == sum;
    assert n * (mean * mult) == sum * mult;
    Scale(n, x, mean * mult);
  }

  lemma Scale(n: real, x: real, y: real)
    requires n > 0.0
    ensures x > y <==> n * x > n * y
  {
    assert n * x - n * y == n * (x - y);
    if x > y {
      assert n * (x - y) > 0.0;
    } else {
      assert n * (y - x) >= 0.0;
    }
  }

  lemma AveragesAre(bars: seq<FlagBar>, r: SignalRules, i: nat)
    requires i < |bars| && r.Valid()
    ensures var f := FactsAt(bars, r, i);
            && f.i == i && f.bar == bars[i] && f.atr == AverageRange(bars, r.atrLen, i)
            && f.lastHi == LastPivot(bars, i, r.sensitivity, true)
            && f.lastLo == LastPivot(bars, i, r.sensitivity, false)
            && f.flagStart == FlagStart(i, f.lastHi, r) <= i
            && f.flagHigh == WindowHigh(bars, f.flagStart, i + 1) && f.flagLow == WindowLow(bars, f.flagStart, i + 1)
            && (i >= r.sensitivity ==>
                  f.poleHigh == bars[i - r.sensitivity].high && f.poleLow == bars[i - r.sensitivity].low)
            && (AveragesAgree(bars, r, i, Long) <==> !r.useEMA || f.fast > f.slow || f.bar.close > f.fast)
            && (AveragesAgree(bars, r, i, Short) <==> !r.useEMA || f.fast < f.slow || f.bar.close < f.fast)
  {
    hide Ema, AverageRange, LastPivot, PivotAt, WindowHigh, WindowLow, TrueRange, VolumeMean;
  }

  lemma RangeKnown(bars: seq<FlagBar>, length: nat, i: nat)
    requires length >= 1 && i < |bars|
    ensures AverageRange(bars, length, i).Some? ==> length <= i + 1
  {
  }

  lemma RecentIs(age: nat, r: SignalRules)
    ensures PoleRecent(age, r) <==> age <= r.sensitivity + r.maxFlagBars + 6
  {
  }

  lemma PoleIs(bars: seq<FlagBar>, r: SignalRules, i: nat, hi: nat, pole: real)
    requires i < |bars| && r.Valid() && hi <= i && FactsAt(bars, r, i).lastHi.Some?
    requires FactsAt(bars, r, i).lastHi.value.index == hi
    ensures var f := FactsAt(bars, r, i);
            PoleAndFlag(bars, r, i, hi, pole)
            <==> f.atr.Some? && pole >= Times(r.minPoleATR, f.atr.value)
                 && f.flagHigh - f.flagLow <= Times(pole, r.widthMult)
  {
    var f := FactsAt(bars, r, i);
    AveragesAre(bars, r, i);
    FlagIs(r, i, f.lastHi, hi);
    RangeKnown(bars, r.atrLen, i);
    hide FactsAt, AverageRange, WindowHigh, WindowLow, InFlag, FlagStart, AveragesAgree, Times;
    WidthBound(bars, f.flagStart, i, Times(pole, r.widthMult));
  }

  /** The tests of a long row, the pole's height spelled out. */
  lemma BullTests(f: Facts, r: SignalRules, pole: real)
    requires f.lastLo.Some? && f.lastHi.Some? && pole == f.poleHigh - f.lastLo.value.price
    ensures BullValid(f, r) <==>
              && PoleRecent(Age(f.i, f.lastLo.value), r) && f.lastHi.value.index > f.lastLo.value.index
              && f.atr.Some? && pole >= Times(r.minPoleATR, f.atr.value)
              && f.flagHigh - f.flagLow <= Times(pole, r.widthMult)
              && f.lastHi.value.price - f.flagLow <= Times(pole, r.maxFlagRetrace)
              && (!r.useEMA || f.fast > f.slow || f.bar.close > f.fast) && VolumeOK(f, r)
  {
    hide VolumeOK, PoleRecent;
  }

  lemma BearTests(f: Facts, r: SignalRules, pole: real)
    requires f.lastLo.Some? && f.lastHi.Some? && pole == f.lastHi.value.price - f.poleLow
    ensures BearValid(f, r) <==>
              && PoleRecent(Age(f.i, f.lastHi.value), r) && f.lastLo.value.index > f.lastHi.value.index
              && f.atr.Some? && pole >= Times(r.minPoleATR, f.atr.value)
              && f.flagHigh - f.flagLow <= Times(pole, r.widthMult)
              && f.flagHigh - f.lastLo.value.price <= Times(pole, r.maxFlagRetrace)
              && (!r.useEMA || f.fast < f.slow || f.bar.close < f.fast) && VolumeOK(f, r)
  {
    hide VolumeOK, PoleRecent;
  }

  lemma BullIs(bars: seq<FlagBar>, r: SignalRules, i: nat, lo: nat, hi: nat)
    requires i < |bars| && r.Valid()
    requires LatestTrough(bars, i, r.sensitivity, lo) && LatestPeak(bars, i, r.sensitivity, hi)
    ensures BullValid(FactsAt(bars, r, i), r) <==> LongSetup(bars, r, i, lo, hi)
  {
    var f := FactsAt(bars, r, i);
    hide FactsAt, Times, BullValid, AverageRange, LastPivot, WindowHigh, WindowLow, VolumeOK, VolumeExceeds,
         AveragesAgree, InFlag, FlagStart, PoleRecent, PoleAndFlag, LatestPeak, LatestTrough;
    AveragesAre(bars, r, i);
    VolumeIs(bars, r, i);
    LatestAre(bars, i, r.sensitivity, lo, hi);
    RecentIs(i - lo, r);
    var pole := bars[i - r.sensitivity].high - bars[lo].low;
    BullTests(f, r, pole);
    PoleIs(bars, r, i, hi, pole);
    FlagBounds(bars, r, i, f.lastHi, hi, bars[hi].high, Times(pole, r.maxFlagRetrace));
  }

  lemma BearIs(bars: seq<FlagBar>, r: SignalRules, i: nat, lo: nat, hi: nat)
    requires i < |bars| && r.Valid()
    requires LatestTrough(bars, i, r.sensitivity, lo) && LatestPeak(bars, i, r.sensitivity, hi)
    ensures BearValid(FactsAt(bars, r, i), r) <==> ShortSetup(bars, r, i, lo, hi)
  {
    var f := FactsAt(bars, r, i);
    hide FactsAt, Times, BearValid, AverageRange, LastPivot, WindowHigh, WindowLow, VolumeOK, VolumeExceeds,
         AveragesAgree, InFlag, FlagStart, PoleRecent, PoleAndFlag, LatestPeak, LatestTrough;
    AveragesAre(bars, r, i);
    VolumeIs(bars, r, i);
    LatestAre(bars, i, r.sensitivity, lo, hi);
    RecentIs(i - hi, r);
    var pole := bars[hi].high - bars[i - r.sensitivity].low;
    BearTests(f, r, pole);
    PoleIs(bars, r, i, hi, pole);
    FlagBounds(bars, r, i, f.lastHi, hi, bars[lo].low, Times(pole, r.maxFlagRetrace));
  }

  /** A row is a valid long exactly when some trough and peak make it a long setup; shorts likewise. */
  lemma ValidExactlyWhen(bars: seq<FlagBar>, r: SignalRules, i: nat)
    requires i < |bars| && r.Valid()
    ensures SnapshotAt(bars, r, i).bullValid <==> exists lo, hi :: LongSetup(bars, r, i, lo, hi)
    ensures SnapshotAt(bars, r, i).bearValid <==> exists lo, hi :: ShortSetup(bars, r, i, lo, hi)
  {
    var f := FactsAt(bars, r, i);
    AveragesAre(bars, r, i);
    LastHighIs(bars, i, r.sensitivity);
    LastLowIs(bars, i, r.sensitivity);
    hide FactsAt, LatestPeak, LatestTrough, LastPivot, PoleAndFlag, PoleRecent, VolumeOK, InFlag, AveragesAgree,
         VolumeExceeds;
    if f.lastHi.Some? && f.lastLo.Some? {
      BullIs(bars, r, i, f.lastLo.value.index, f.lastHi.value.index);
      BearIs(bars, r, i, f.lastLo.value.index, f.lastHi.value.index);
    }
  }

  /**
    The rest of a snapshot: the pivots it confirms are the peak and the trough that its row is the
    first to see whole, and its heights are the two poles while they are recent, else nothing.
  */
  lemma SnapshotShown(bars: seq<FlagBar>, r: SignalRules, i: nat)
    requires i < |bars| && r.Valid()
    ensures var s, f := SnapshotAt(bars, r, i), SnapshotAt(bars, r, i).facts;
            && (f.hi.Some? <==> i >= r.sensitivity && Peak(bars, i - r.sensitivity, r.sensitivity))
            && (f.lo.Some? <==> i >= r.sensitivity && Trough(bars, i - r.sensitivity, r.sensitivity))
            && (f.hi.Some? ==> f.hi.value == Pivot(i - r.sensitivity, i, bars[i - r.sensitivity].high))
            && (f.lo.Some? ==> f.lo.value == Pivot(i - r.sensitivity, i, bars[i - r.sensitivity].low))
            && (forall lo: nat :: LatestTrough(bars, i, r.sensitivity, lo) ==>
                  s.bullHeight == if i - lo <= r.sensitivity + r.maxFlagBars + 6
                                  then bars[i - r.sensitivity].high - bars[lo].low else 0.0)
            && (forall hi: nat :: LatestPeak(bars, i, r.sensitivity, hi) ==>
                  s.bearHeight == if i - hi <= r.sensitivity + r.maxFlagBars + 6
                                  then bars[hi].high - bars[i - r.sensitivity].low else 0.0)
            && ((forall lo: nat :: !LatestTrough(bars, i, r.sensitivity, lo)) ==> s.bullHeight == 0.0)
            && ((forall hi: nat :: !LatestPeak(bars, i, r.sensitivity, hi)) ==> s.bearHeight == 0.0)
  {
    hide LastPivot, Ema, AverageRange, VolumeMean, WindowHigh, WindowLow, TrueRange, BullValid, BearValid, CandidateOf,
         LatestPeak, LatestTrough, PoleRecent;
    LastHighIs(bars, i, r.sensitivity);
    LastLowIs(bars, i, r.sensitivity);
    forall k: nat
      ensures PoleRecent(k, r) <==> k <= r.sensitivity + r.maxFlagBars + 6
    {
      RecentIs(k, r);
    }
    forall lo: nat | LatestTrough(bars, i, r.sensitivity, lo)
      ensures lo + r.sensitivity <= i
    {
      TroughBy(bars, i, r.sensitivity, lo);
    }
    forall hi: nat | LatestPeak(bars, i, r.sensitivity, hi)
      ensures hi + r.sensitivity <= i
    {
      PeakBy(bars, i, r.sensitivity, hi);
    }
  }

  lemma TroughBy(bars: seq<FlagBar>, i: nat, reach: nat, lo: nat)
    requires LatestTrough(bars, i, reach, lo)
    ensures lo + reach <= i
  {
  }

  lemma PeakBy(bars: seq<FlagBar>, i: nat, reach: nat, hi: nat)
    requires LatestPeak(bars, i, reach, hi)
    ensures hi + reach <= i
  {
  }

  // ----- stricter rules

  /** Asking for a higher pole, or a shallower flag, never makes a row valid. */
  lemma StricterIsRarer(bars: seq<FlagBar>, r: SignalRules, strict: SignalRules, i: nat)
    requires i < |bars| && ValidBars(bars) && Stricter(r, strict)
    ensures SnapshotAt(bars, strict, i).bullValid ==> SnapshotAt(bars, r, i).bullValid
    ensures SnapshotAt(bars, strict, i).bearValid ==> SnapshotAt(bars, r, i).bearValid
  {
    ValidExactlyWhen(bars, r, i);
    ValidExactlyWhen(bars, strict, i);
    hide SnapshotAt, LongSetup, ShortSetup;
    forall lo, hi | LongSetup(bars, strict, i, lo, hi)
      ensures LongSetup(bars, r, i, lo, hi)
    {
      StricterLong(bars, r, strict, i, lo, hi);
    }
    forall lo, hi | ShortSetup(bars, strict, i, lo, hi)
      ensures ShortSetup(bars, r, i, lo, hi)
    {
      StricterShort(bars, r, strict, i, lo, hi);
    }
  }

  ghost predicate Stricter(r: SignalRules, strict: SignalRules) {
    && r.Valid() && strict.Valid()
    && strict == r.(minPoleATR := strict.minPoleATR, maxFlagRetrace := strict.maxFlagRetrace)
    && strict.minPoleATR >= r.minPoleATR && strict.maxFlagRetrace <= r.maxFlagRetrace
  }

  lemma StricterLong(bars: seq<FlagBar>, r: SignalRules, strict: SignalRules, i: nat, lo: nat, hi: nat)
    requires i < |bars| && ValidBars(bars) && Stricter(r, strict) && LongSetup(bars, strict, i, lo, hi)
    ensures LongSetup(bars, r, i, lo, hi)
  {
    hide Peak, Trough, AverageRange, Times, InFlag;
    SameFilters(bars, r, strict, i, hi);
    hide AveragesAgree, VolumeExceeds, FlagLength;
    AverageRangeNonNegative(bars, r.atrLen, i);
    StricterPole(bars[i - r.sensitivity].high - bars[lo].low, r, strict, AverageRange(bars, r.atrLen, i).value);
  }

  lemma StricterShort(bars: seq<FlagBar>, r: SignalRules, strict: SignalRules, i: nat, lo: nat, hi: nat)
    requires i < |bars| && ValidBars(bars) && Stricter(r, strict) && ShortSetup(bars, strict, i, lo, hi)
    ensures ShortSetup(bars, r, i, lo, hi)
  {
    hide Peak, Trough, AverageRange, Times, InFlag;
    SameFilters(bars, r, strict, i, hi);
    hide AveragesAgree, VolumeExceeds, FlagLength;
    AverageRangeNonNegative(bars, r.atrLen, i);
    StricterPole(bars[hi].high - bars[i - r.sensitivity].low, r, strict, AverageRange(bars, r.atrLen, i).value);
  }

  lemma SameFilters(bars: seq<FlagBar>, r: SignalRules, strict: SignalRules, i: nat, hi: nat)
    requires i < |bars| && Stricter(r, strict)
    ensures forall j: nat :: InFlag(r, i, hi, j) <==> InFlag(strict, i, hi, j)
    ensures AveragesAgree(bars, r, i, Long) == AveragesAgree(bars, strict, i, Long)
    ensures AveragesAgree(bars, r, i, Short) == AveragesAgree(bars, strict, i, Short)
    ensures VolumeExceeds(bars, r, i) == VolumeExceeds(bars, strict, i)
  {
    hide Ema, VolumeSum;
  }

  lemma StricterPole(pole: real, r: SignalRules, strict: SignalRules, atr: real)
    requires Stricter(r, strict) && atr >= 0.0 && pole >= Times(strict.minPoleATR, atr)
    ensures pole >= Times(r.minPoleATR, atr) && Times(pole, strict.maxFlagRetrace) <= Times(pole, r.maxFlagRetrace)
  {
    Scaled(strict.minPoleATR - r.minPoleATR, atr);
    Scaled(strict.minPoleATR, atr);
    Scaled(pole, r.maxFlagRetrace - strict.maxFlagRetrace);
    assert (strict.minPoleATR - r.minPoleATR) * atr == strict.minPoleATR * atr - r.minPoleATR * atr;
    assert pole * (r.maxFlagRetrace - strict.maxFlagRetrace)
        == pole * r.maxFlagRetrace - pole * strict.maxFlagRetrace;
  }

  // ----- the order a setup gives

  /** The highest of some bars, and the lowest. */
  ghost predicate HighOf(bars: seq<FlagBar>, lo: nat, hi: nat, x: real) {
    && (forall j :: lo <= j < hi && j < |bars| ==> bars[j].high <= x)
    && exists j :: lo <= j < hi && j < |bars| && bars[j].high == x
  }

  ghost predicate LowOf(bars: seq<FlagBar>, lo: nat, hi: nat, x: real) {
    && (forall j :: lo <= j < hi && j < |bars| ==> x <= bars[j].low)
    && exists j :: lo <= j < hi && j < |bars| && bars[j].low == x
  }

  /** An order's levels over a flag with these extremes. */
  ghost predicate LevelsAsStated(r: SignalRules, high: real, low: real, atr: real, sig: Signal) {
    match sig.side
    case Long =>
      && sig.trigger - high == r.entryATR * atr && low - sig.stop == r.stopATR * atr
      && sig.target - sig.trigger == (sig.trigger - sig.stop) * r.targetR
    case Short =>
      && low - sig.trigger == r.entryATR * atr && sig.stop - high == r.stopATR * atr
      && sig.trigger - sig.target == (sig.stop - sig.trigger) * r.targetR
  }

  /**
    A valid row's order: beyond the flag by entryATR average ranges, stopped stopATR ranges beyond
    its other side, with a target targetR times as far from the trigger as the stop.
  */
  lemma OrderIsStated(bars: seq<FlagBar>, r: SignalRules, i: nat)
    requires i < |bars| && r.Valid() && SnapshotAt(bars, r, i).candidate.Some?
    ensures var s, sig := SnapshotAt(bars, r, i), SnapshotAt(bars, r, i).candidate.value;
            && sig.signalIdx == i && (sig.side == Long <==> s.bullValid)
            && HighOf(bars, s.facts.flagStart, i + 1, s.facts.flagHigh)
            && LowOf(bars, s.facts.flagStart, i + 1, s.facts.flagLow)
            && AverageRange(bars, r.atrLen, i).Some?
            && LevelsAsStated(r, s.facts.flagHigh, s.facts.flagLow, AverageRange(bars, r.atrLen, i).value, sig)
  {
    AveragesAre(bars, r, i);
    var f := FactsAt(bars, r, i);
    LevelsAre(f, r);
    hide FactsAt, AveragesAgree, AverageRange, LevelsAsStated, BullValid, BearValid;
    WindowExtremes(bars, f.flagStart, i + 1);
    hide WindowHigh, WindowLow;
  }

  lemma LevelsAre(f: Facts, r: SignalRules)
    requires CandidateOf(f, r).Some?
    ensures f.atr.Some? && LevelsAsStated(r, f.flagHigh, f.flagLow, f.atr.value, CandidateOf(f, r).value)
  {
    hide BullValid, BearValid;
  }
}
