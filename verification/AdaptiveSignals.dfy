/**
  Indicators and signals of the adaptive flag (engine/adaptive_flag_signals.go): one-pass loops
  with running values, each proved equal to a definition that recounts from the bars.
*/
module AdaptiveSignals {
  import opened Common
  import opened AdaptiveBracket

  datatype SignalRules = SignalRules(
    sensitivity: nat, minPoleATR: real, minFlagBars: nat, maxFlagBars: nat, maxFlagRetrace: real,
    useVolume: bool, useEMA: bool, fastLen: nat, slowLen: nat, targetR: real, stopATR: real,
    atrLen: nat, volumeLen: nat, volumeMult: real, widthMult: real, entryATR: real)
  {
    predicate Valid() {
      && sensitivity >= 1 && 1 <= minFlagBars <= maxFlagBars
      && fastLen >= 1 && slowLen >= 1 && atrLen >= 1 && volumeLen >= 1
      && minPoleATR > 0.0 && targetR > 0.0 && stopATR > 0.0
      && maxFlagRetrace >= 0.0 && volumeMult >= 0.0 && widthMult >= 0.0 && entryATR >= 0.0
    }
  }

  datatype Pivot = Pivot(index: nat, confirmed: nat, price: real)

  // ----- definitions that look at the bars directly

  function TrueRange(bars: seq<FlagBar>, i: nat): real
    requires i < |bars|
  {
    var span := bars[i].high - bars[i].low;
    if i == 0 then span
    else Max(span, Max(Abs(bars[i].high - bars[i - 1].close), Abs(bars[i].low - bars[i - 1].close)))
  }

  function RangeSum(bars: seq<FlagBar>, hi: nat): real
    requires hi <= |bars|
  {
    if hi == 0 then 0.0 else RangeSum(bars, hi - 1) + TrueRange(bars, hi - 1)
  }

  function Wilder(length: nat, before: real, range: real): real
    requires length >= 1
  {
    (before * (length - 1) as real + range) / length as real
  }

  /** Wilder's average: a plain mean over the first length ranges, then its recurrence. */
  function AverageRange(bars: seq<FlagBar>, length: nat, i: nat): Option<real>
    requires i < |bars| && length >= 1
  {
    if i + 1 < length then None
    else if i + 1 == length then Some(RangeSum(bars, length) / length as real)
    else match AverageRange(bars, length, i - 1)
      case Some(before) => Some(Wilder(length, before, TrueRange(bars, i)))
      case None => None
  }

  function Blend(alpha: real, x: real, before: real): real {
    alpha * x + (1.0 - alpha) * before
  }

  function Ema(bars: seq<FlagBar>, length: nat, i: nat): real
    requires i < |bars|
  {
    if i == 0 then bars[0].close
    else Blend(2.0 / (length as real + 1.0), bars[i].close, Ema(bars, length, i - 1))
  }

  function VolumeSum(bars: seq<FlagBar>, lo: nat, hi: nat): real
    requires lo <= hi <= |bars|
    decreases hi - lo
  {
    if lo == hi then 0.0 else bars[lo].volume + VolumeSum(bars, lo + 1, hi)
  }

  function VolumeMean(bars: seq<FlagBar>, length: nat, i: nat): Option<real>
    requires i < |bars| && length >= 1
  {
    if i + 1 < length then None else Some(VolumeSum(bars, i + 1 - length, i + 1) / length as real)
  }

  function Extreme(b: FlagBar, high: bool): real {
    if high then b.high else b.low
  }

  /** Bar idx beats every other bar within reach of it, strictly. */
  predicate IsPivot(bars: seq<FlagBar>, idx: nat, reach: nat, high: bool)
    requires reach <= idx && idx + reach < |bars|
  {
    forall j :: idx - reach <= j <= idx + reach && j != idx ==>
      if high then bars[j].high < bars[idx].high else bars[j].low > bars[idx].low
  }

  function PivotAt(bars: seq<FlagBar>, i: nat, reach: nat, high: bool): Option<Pivot>
    requires i < |bars|
  {
    if i < reach + reach || !IsPivot(bars, i - reach, reach, high) then None
    else Some(Pivot(i - reach, i, Extreme(bars[i - reach], high)))
  }

  /** The pivot confirmed most recently at or before row i. */
  function LastPivot(bars: seq<FlagBar>, i: nat, reach: nat, high: bool): Option<Pivot>
    requires i < |bars|
  {
    if PivotAt(bars, i, reach, high).Some? then PivotAt(bars, i, reach, high)
    else if i == 0 then None
    else LastPivot(bars, i - 1, reach, high)
  }

  function WindowHigh(bars: seq<FlagBar>, lo: nat, hi: nat): real
    requires lo < hi <= |bars|
  {
    if lo + 1 == hi then bars[lo].high else Max(WindowHigh(bars, lo, hi - 1), bars[hi - 1].high)
  }

  function WindowLow(bars: seq<FlagBar>, lo: nat, hi: nat): real
    requires lo < hi <= |bars|
  {
    if lo + 1 == hi then bars[lo].low else Min(WindowLow(bars, lo, hi - 1), bars[hi - 1].low)
  }

  function Clamp(low: nat, x: nat, high: nat): nat {
    var raised := if x < low then low else x;
    if raised > high then high else raised
  }

  predicate PoleRecent(age: nat, r: SignalRules) {
    age <= r.sensitivity || age - r.sensitivity <= r.maxFlagBars || age - r.sensitivity - r.maxFlagBars <= 6
  }

  /** What a row's judgement is based on. */
  datatype Facts = Facts(
    i: nat, bar: FlagBar, trueRange: real, atr: Option<real>, fast: real, slow: real, volume: Option<real>,
    hi: Option<Pivot>, lo: Option<Pivot>, lastHi: Option<Pivot>, lastLo: Option<Pivot>,
    poleHigh: real, poleLow: real, flagStart: nat, flagHigh: real, flagLow: real)

  datatype Snapshot = Snapshot(facts: Facts, bullHeight: real, bearHeight: real, bullValid: bool, bearValid: bool,
                               candidate: Option<Signal>)

  function Age(i: nat, p: Pivot): nat {
    if i >= p.index then i - p.index else 0
  }

  function FlagStart(i: nat, lastHi: Option<Pivot>, r: SignalRules): nat {
    var since := if lastHi.Some? then Age(i, lastHi.value) else 0;
    var width := Clamp(r.minFlagBars, since, r.maxFlagBars);
    if i + 1 >= width then i + 1 - width else 0
  }

  function PoleRow(i: nat, r: SignalRules): nat {
    if i >= r.sensitivity then i - r.sensitivity else i
  }

  function BullHeight(f: Facts, r: SignalRules): real {
    if f.lastLo.Some? && PoleRecent(Age(f.i, f.lastLo.value), r) then f.poleHigh - f.lastLo.value.price else 0.0
  }

  function BearHeight(f: Facts, r: SignalRules): real {
    if f.lastHi.Some? && PoleRecent(Age(f.i, f.lastHi.value), r) then f.lastHi.value.price - f.poleLow else 0.0
  }

  predicate BullImpulse(f: Facts, r: SignalRules) {
    && f.lastLo.Some? && PoleRecent(Age(f.i, f.lastLo.value), r)
    && f.atr.Some? && BullHeight(f, r) >= r.minPoleATR * f.atr.value
    && (f.lastHi.None? || f.lastHi.value.index > f.lastLo.value.index)
  }

  predicate BearImpulse(f: Facts, r: SignalRules) {
    && f.lastHi.Some? && PoleRecent(Age(f.i, f.lastHi.value), r)
    && f.atr.Some? && BearHeight(f, r) >= r.minPoleATR * f.atr.value
    && (f.lastLo.None? || f.lastLo.value.index > f.lastHi.value.index)
  }

  predicate VolumeOK(f: Facts, r: SignalRules) {
    !r.useVolume || (f.volume.Some? && f.bar.volume > f.volume.value * r.volumeMult)
  }

  predicate BullValid(f: Facts, r: SignalRules) {
    && BullImpulse(f, r)
    && f.lastHi.Some? && f.lastHi.value.price - f.flagLow <= BullHeight(f, r) * r.maxFlagRetrace
    && f.flagHigh - f.flagLow <= BullHeight(f, r) * r.widthMult
    && (!r.useEMA || f.fast > f.slow || f.bar.close > f.fast)
    && VolumeOK(f, r)
  }

  predicate BearValid(f: Facts, r: SignalRules) {
    && BearImpulse(f, r)
    && f.lastLo.Some? && f.flagHigh - f.lastLo.value.price <= BearHeight(f, r) * r.maxFlagRetrace
    && f.flagHigh - f.flagLow <= BearHeight(f, r) * r.widthMult
    && (!r.useEMA || f.fast < f.slow || f.bar.close < f.fast)
    && VolumeOK(f, r)
  }

  /** Long wins when both are valid; the target is measured from the trigger. */
  function CandidateOf(f: Facts, r: SignalRules): Option<Signal> {
    if f.atr.None? || (!BullValid(f, r) && !BearValid(f, r)) then None
    else if BullValid(f, r) then
      var trigger, stop := f.flagHigh + r.entryATR * f.atr.value, f.flagLow - r.stopATR * f.atr.value;
      Some(Signal(f.i, Long, trigger, stop, trigger + (trigger - stop) * r.targetR))
    else
      var trigger, stop := f.flagLow - r.entryATR * f.atr.value, f.flagHigh + r.stopATR * f.atr.value;
      Some(Signal(f.i, Short, trigger, stop, trigger - (stop - trigger) * r.targetR))
  }

  function Judge(f: Facts, r: SignalRules): Snapshot {
    Snapshot(f, BullHeight(f, r), BearHeight(f, r), BullValid(f, r), BearValid(f, r), CandidateOf(f, r))
  }

  function FactsAt(bars: seq<FlagBar>, r: SignalRules, i: nat): Facts
    requires i < |bars| && r.Valid()
  {
    var lastHi := LastPivot(bars, i, r.sensitivity, true);
    var start := FlagStart(i, lastHi, r);
    Facts(i, bars[i], TrueRange(bars, i), AverageRange(bars, r.atrLen, i), Ema(bars, r.fastLen, i),
          Ema(bars, r.slowLen, i), VolumeMean(bars, r.volumeLen, i),
          PivotAt(bars, i, r.sensitivity, true), PivotAt(bars, i, r.sensitivity, false),
          lastHi, LastPivot(bars, i, r.sensitivity, false),
          bars[PoleRow(i, r)].high, bars[PoleRow(i, r)].low,
          start, WindowHigh(bars, start, i + 1), WindowLow(bars, start, i + 1))
  }

  /** The snapshot of row i, recounted from the bars. */
  function SnapshotAt(bars: seq<FlagBar>, r: SignalRules, i: nat): Snapshot
    requires i < |bars| && r.Valid()
  {
    Judge(FactsAt(bars, r, i), r)
  }

  // ----- the loops

  method EMA(bars: seq<FlagBar>, length: nat) returns (out: seq<real>)
    ensures |out| == |bars| && forall i :: 0 <= i < |bars| ==> out[i] == Ema(bars, length, i)
  {
    hide Blend;
    out := [];
    var alpha := 2.0 / (length as real + 1.0);
    for i := 0 to |bars|
      invariant |out| == i && forall j :: 0 <= j < i ==> out[j] == Ema(bars, length, j)
    {
      if i == 0 {
        out := [bars[0].close];
      } else {
        out := out + [Blend(alpha, bars[i].close, out[i - 1])];
      }
    }
  }

  method ATR(bars: seq<FlagBar>, length: nat) returns (ranges: seq<real>, out: seq<Option<real>>)
    requires length >= 1
    ensures |ranges| == |out| == |bars|
    ensures forall i :: 0 <= i < |bars| ==> ranges[i] == TrueRange(bars, i) && out[i] == AverageRange(bars, length, i)
  {
    hide Wilder;
    ranges, out := [], [];
    var value := 0.0;
    for i := 0 to |bars|
      invariant |ranges| == |out| == i
      invariant forall j :: 0 <= j < i ==> ranges[j] == TrueRange(bars, j) && out[j] == AverageRange(bars, length, j)
      invariant i < length ==> value == RangeSum(bars, i)
      invariant i >= length ==> AverageRange(bars, length, i - 1) == Some(value)
    {
      var b := bars[i];
      var range := b.high - b.low;
      if i > 0 {
        range := Max(range, Max(Abs(b.high - bars[i - 1].close), Abs(b.low - bars[i - 1].close)));
      }
      assert range == TrueRange(bars, i);
      ranges := ranges + [range];
      if i < length {
        value := value + range;
        if i == length - 1 {
          value := value / length as real;
          out := out + [Some(value)];
        } else {
          out := out + [None];
        }
      } else {
        value := Wilder(length, value, range);
        out := out + [Some(value)];
      }
    }
  }

  lemma {:induction false} VolumeSumSnoc(bars: seq<FlagBar>, lo: nat, hi: nat)
    requires lo <= hi < |bars|
    ensures VolumeSum(bars, lo, hi + 1) == VolumeSum(bars, lo, hi) + bars[hi].volume
    decreases hi - lo
  {
    if lo < hi {
      VolumeSumSnoc(bars, lo + 1, hi);
    } else {
      assert VolumeSum(bars, lo + 1, hi + 1) == 0.0;
    }
  }

  /** The running total is always the sum over the last length bars. */
  method VolumeSMA(bars: seq<FlagBar>, length: nat) returns (out: seq<Option<real>>)
    requires length >= 1
    ensures |out| == |bars| && forall i :: 0 <= i < |bars| ==> out[i] == VolumeMean(bars, length, i)
  {
    out := [];
    var total := 0.0;
    for i := 0 to |bars|
      invariant |out| == i && forall j :: 0 <= j < i ==> out[j] == VolumeMean(bars, length, j)
      invariant total == VolumeSum(bars, if i < length then 0 else i - length, i)
    {
      VolumeSumSnoc(bars, if i < length then 0 else i - length, i);
      total := total + bars[i].volume;
      if i >= length {
        total := total - bars[i - length].volume;
      }
      out := out + [if i >= length - 1 then Some(total / length as real) else None];
    }
  }

  method ConfirmedPivot(bars: seq<FlagBar>, current: nat, reach: nat, high: bool) returns (p: Option<Pivot>)
    requires current < |bars|
    ensures p == PivotAt(bars, current, reach, high)
  {
    if current < reach || current - reach < reach {
      return None;
    }
    var idx := current - reach;
    var value := Extreme(bars[idx], high);
    for j := idx - reach to current + 1
      invariant forall k :: idx - reach <= k < j && k != idx ==>
                  if high then bars[k].high < bars[idx].high else bars[k].low > bars[idx].low
    {
      if j == idx {
        continue;
      }
      if (high && bars[j].high >= value) || (!high && bars[j].low <= value) {
        return None;
      }
    }
    return Some(Pivot(idx, current, value));
  }

  method FlagRange(bars: seq<FlagBar>, start: nat, i: nat) returns (high: real, low: real)
    requires start <= i < |bars|
    ensures high == WindowHigh(bars, start, i + 1) && low == WindowLow(bars, start, i + 1)
  {
    high, low := bars[start].high, bars[start].low;
    for j := start + 1 to i + 1
      invariant high == WindowHigh(bars, start, j) && low == WindowLow(bars, start, j)
    {
      high, low := Max(high, bars[j].high), Min(low, bars[j].low);
    }
  }

  /** adaptiveFlagSnapshots: one pass that remembers the last pivots. */
  method Snapshots(bars: seq<FlagBar>, r: SignalRules) returns (rows: seq<Snapshot>)
    requires r.Valid()
    ensures |rows| == |bars| && forall i :: 0 <= i < |bars| ==> rows[i] == SnapshotAt(bars, r, i)
  {
    hide Judge, Ema, AverageRange, VolumeMean, PivotAt, TrueRange, WindowHigh, WindowLow;
    var ranges, atr := ATR(bars, r.atrLen);
    var fast := EMA(bars, r.fastLen);
    var slow := EMA(bars, r.slowLen);
    var volume := VolumeSMA(bars, r.volumeLen);
    rows := [];
    var lastHi: Option<Pivot>, lastLo: Option<Pivot> := None, None;
    for i := 0 to |bars|
      invariant |rows| == i && forall j :: 0 <= j < i ==> rows[j] == SnapshotAt(bars, r, j)
      invariant lastHi == if i == 0 then None else LastPivot(bars, i - 1, r.sensitivity, true)
      invariant lastLo == if i == 0 then None else LastPivot(bars, i - 1, r.sensitivity, false)
    {
      var hi := ConfirmedPivot(bars, i, r.sensitivity, true);
      var lo := ConfirmedPivot(bars, i, r.sensitivity, false);
      if hi.Some? {
        lastHi := hi;
      }
      if lo.Some? {
        lastLo := lo;
      }
      var pole, start := PoleRow(i, r), FlagStart(i, lastHi, r);
      var flagHigh, flagLow := FlagRange(bars, start, i);
      var facts := Facts(i, bars[i], ranges[i], atr[i], fast[i], slow[i], volume[i], hi, lo, lastHi, lastLo,
                         bars[pole].high, bars[pole].low, start, flagHigh, flagLow);
      rows := rows + [Judge(facts, r)];
    }
  }

  // ----- what the values mean

  lemma Convex(alpha: real, x: real, y: real, lo: real, hi: real)
    requires 0.0 <= alpha <= 1.0 && lo <= x <= hi && lo <= y <= hi
    ensures lo <= Blend(alpha, x, y) <= hi
  {
    var beta := 1.0 - alpha;
    Spread(alpha, beta, x, y, lo);
    Spread(alpha, beta, -x, -y, -hi);
    assert Blend(alpha, x, y) == alpha * x + beta * y;
    assert alpha * -x == -(alpha * x) && beta * -y == -(beta * y);
  }

  lemma Spread(alpha: real, beta: real, x: real, y: real, lo: real)
    requires alpha >= 0.0 && beta >= 0.0 && alpha + beta == 1.0 && lo <= x && lo <= y
    ensures lo <= alpha * x + beta * y
  {
    Scaled(alpha, x - lo);
    Scaled(beta, y - lo);
    assert alpha * (x - lo) == alpha * x - alpha * lo;
    assert beta * (y - lo) == beta * y - beta * lo;
    assert alpha * lo + beta * lo == (alpha + beta) * lo == lo;
  }

  /** The average never leaves the band its closes stay in. */
  lemma {:induction false} EmaStaysInBand(bars: seq<FlagBar>, length: nat, i: nat, lo: real, hi: real)
    requires length >= 1 && i < |bars|
    requires forall j :: 0 <= j <= i ==> lo <= bars[j].close <= hi
    ensures lo <= Ema(bars, length, i) <= hi
  {
    hide Blend;
    if i > 0 {
      EmaStaysInBand(bars, length, i - 1, lo, hi);
      assert 0.0 <= 2.0 / (length as real + 1.0) <= 1.0;
      Convex(2.0 / (length as real + 1.0), bars[i].close, Ema(bars, length, i - 1), lo, hi);
    }
  }

  /** The remembered pivot is the latest bar confirmed as one by row i. */
  lemma {:induction false} LastPivotIsLatest(bars: seq<FlagBar>, i: nat, reach: nat, high: bool)
    requires i < |bars|
    ensures match LastPivot(bars, i, reach, high)
            case None => forall k :: reach <= k && k + reach <= i ==> !IsPivot(bars, k, reach, high)
            case Some(p) =>
              && p.confirmed == p.index + reach <= i && reach <= p.index
              && IsPivot(bars, p.index, reach, high) && p.price == Extreme(bars[p.index], high)
              && forall k :: p.index < k && k + reach <= i ==> !IsPivot(bars, k, reach, high)
  {
    hide IsPivot;
    if PivotAt(bars, i, reach, high).None? && i > 0 {
      LastPivotIsLatest(bars, i - 1, reach, high);
    }
  }

  /** Two pivots of one kind are never within reach of each other. */
  lemma PivotsApart(bars: seq<FlagBar>, j: nat, k: nat, reach: nat, high: bool)
    requires reach <= j < k <= j + reach && k + reach < |bars|
    requires IsPivot(bars, j, reach, high)
    ensures !IsPivot(bars, k, reach, high)
  {
    assert if high then bars[k].high < bars[j].high else bars[k].low > bars[j].low;
  }

  lemma {:induction false} WindowExtremes(bars: seq<FlagBar>, lo: nat, hi: nat)
    requires lo < hi <= |bars|
    ensures forall j :: lo <= j < hi ==>
              WindowLow(bars, lo, hi) <= bars[j].low && bars[j].high <= WindowHigh(bars, lo, hi)
    ensures exists j :: lo <= j < hi && bars[j].high == WindowHigh(bars, lo, hi)
    ensures exists j :: lo <= j < hi && bars[j].low == WindowLow(bars, lo, hi)
  {
    if lo + 1 < hi {
      WindowExtremes(bars, lo, hi - 1);
    } else {
      assert bars[lo].high == WindowHigh(bars, lo, hi) && bars[lo].low == WindowLow(bars, lo, hi);
    }
  }

  ghost predicate ValidBars(bars: seq<FlagBar>) {
    forall i :: 0 <= i < |bars| ==> bars[i].Valid()
  }

  lemma {:induction false} AverageRangeNonNegative(bars: seq<FlagBar>, length: nat, i: nat)
    requires ValidBars(bars) && length >= 1 && i < |bars|
    ensures AverageRange(bars, length, i).Some? ==> AverageRange(bars, length, i).value >= 0.0
    ensures AverageRange(bars, length, i).Some? <==> i + 1 >= length
  {
    if i + 1 == length {
      RangeSumNonNegative(bars, length);
    } else if i + 1 > length {
      AverageRangeNonNegative(bars, length, i - 1);
      WilderNonNegative(length, AverageRange(bars, length, i - 1).value, TrueRange(bars, i));
    }
  }

  lemma {:induction false} RangeSumNonNegative(bars: seq<FlagBar>, hi: nat)
    requires ValidBars(bars) && hi <= |bars|
    ensures RangeSum(bars, hi) >= 0.0
  {
    if hi > 0 {
      RangeSumNonNegative(bars, hi - 1);
    }
  }

  lemma WilderNonNegative(length: nat, before: real, range: real)
    requires length >= 1 && before >= 0.0 && range >= 0.0
    ensures Wilder(length, before, range) >= 0.0
  {
    assert before * (length - 1) as real >= 0.0;
  }

  lemma Scaled(a: real, b: real)
    requires a >= 0.0 && b >= 0.0
    ensures a * b >= 0.0
  {
  }

  /**
    On valid bars a candidate carries its own row, is long when both sides are valid, and its
    stop, trigger and target are in order, outside the flag that it breaks.
  */
  lemma CandidateIsOrdered(bars: seq<FlagBar>, r: SignalRules, i: nat)
    requires ValidBars(bars) && r.Valid() && i < |bars|
    ensures var s := SnapshotAt(bars, r, i);
            && (s.candidate.Some? <==> s.bullValid || s.bearValid)
            && (s.candidate.Some? ==>
                  var sig, f := s.candidate.value, s.facts;
                  && sig.signalIdx == i && (sig.side == Long <==> s.bullValid)
                  && (sig.side == Long ==> sig.stop <= f.flagLow <= f.flagHigh <= sig.trigger <= sig.target)
                  && (sig.side == Short ==> sig.target <= sig.trigger <= f.flagLow <= f.flagHigh <= sig.stop))
  {
    var f := FactsAt(bars, r, i);
    hide Ema, VolumeMean, PivotAt, LastPivot, TrueRange, AverageRange, WindowHigh, WindowLow, PoleRecent, VolumeOK,
         FlagStart;
    AverageRangeNonNegative(bars, r.atrLen, i);
    WindowExtremes(bars, f.flagStart, i + 1);
    assert bars[i].Valid();
    if f.atr.Some? {
      CandidateOrder(f, r);
    }
  }

  lemma CandidateOrder(f: Facts, r: SignalRules)
    requires r.Valid() && f.atr.Some? && f.atr.value >= 0.0 && f.flagLow <= f.flagHigh
    ensures CandidateOf(f, r).Some? ==>
              var sig := CandidateOf(f, r).value;
              && (sig.side == Long <==> BullValid(f, r))
              && (sig.side == Long ==> sig.stop <= f.flagLow <= f.flagHigh <= sig.trigger <= sig.target)
              && (sig.side == Short ==> sig.target <= sig.trigger <= f.flagLow <= f.flagHigh <= sig.stop)
  {
    hide BullValid, BearValid;
    Scaled(r.entryATR, f.atr.value);
    Scaled(r.stopATR, f.atr.value);
    if CandidateOf(f, r).Some? {
      var sig := CandidateOf(f, r).value;
      Scaled(if sig.side == Long then sig.trigger - sig.stop else sig.stop - sig.trigger, r.targetR);
    }
  }

  // ----- later bars do not matter

  lemma {:induction false} AveragesPrefix(bars: seq<FlagBar>, length: nat, i: nat, m: nat)
    requires length >= 1 && i < m <= |bars|
    ensures TrueRange(bars[..m], i) == TrueRange(bars, i)
    ensures RangeSum(bars[..m], i + 1) == RangeSum(bars, i + 1)
    ensures AverageRange(bars[..m], length, i) == AverageRange(bars, length, i)
    ensures Ema(bars[..m], length, i) == Ema(bars, length, i)
  {
    hide Blend, Wilder, TrueRange;
    TrueRangePrefix(bars, i, m);
    if i > 0 {
      AveragesPrefix(bars, length, i - 1, m);
    } else {
      assert RangeSum(bars[..m], 0) == RangeSum(bars, 0);
    }
  }

  lemma TrueRangePrefix(bars: seq<FlagBar>, i: nat, m: nat)
    requires i < m <= |bars|
    ensures TrueRange(bars[..m], i) == TrueRange(bars, i)
  {
  }

  lemma {:induction false} VolumePrefix(bars: seq<FlagBar>, lo: nat, hi: nat, m: nat)
    requires lo <= hi <= m <= |bars|
    ensures VolumeSum(bars[..m], lo, hi) == VolumeSum(bars, lo, hi)
    decreases hi - lo
  {
    if lo < hi {
      VolumePrefix(bars, lo + 1, hi, m);
    }
  }

  lemma {:induction false} PivotPrefix(bars: seq<FlagBar>, i: nat, reach: nat, high: bool, m: nat)
    requires i < m <= |bars|
    ensures PivotAt(bars[..m], i, reach, high) == PivotAt(bars, i, reach, high)
    ensures LastPivot(bars[..m], i, reach, high) == LastPivot(bars, i, reach, high)
  {
    if i > 0 {
      PivotPrefix(bars, i - 1, reach, high, m);
    }
  }

  lemma {:induction false} WindowPrefixed(bars: seq<FlagBar>, lo: nat, hi: nat, m: nat)
    requires lo < hi <= m <= |bars|
    ensures WindowHigh(bars[..m], lo, hi) == WindowHigh(bars, lo, hi)
    ensures WindowLow(bars[..m], lo, hi) == WindowLow(bars, lo, hi)
  {
    if lo + 1 < hi {
      WindowPrefixed(bars, lo, hi - 1, m);
    }
  }

  /** A snapshot depends on the bars up to its own row only. */
  lemma SnapshotPrefix(bars: seq<FlagBar>, r: SignalRules, i: nat, m: nat)
    requires i < m <= |bars| && r.Valid()
    ensures SnapshotAt(bars[..m], r, i) == SnapshotAt(bars, r, i)
  {
    hide Judge, TrueRange, AverageRange, Ema, VolumeSum, PivotAt, LastPivot, WindowHigh, WindowLow;
    AveragesPrefix(bars, r.atrLen, i, m);
    AveragesPrefix(bars, r.fastLen, i, m);
    AveragesPrefix(bars, r.slowLen, i, m);
    if i + 1 >= r.volumeLen {
      VolumePrefix(bars, i + 1 - r.volumeLen, i + 1, m);
    }
    PivotPrefix(bars, i, r.sensitivity, true, m);
    PivotPrefix(bars, i, r.sensitivity, false, m);
    WindowPrefixed(bars, FlagStart(i, LastPivot(bars, i, r.sensitivity, true), r), i + 1, m);
  }
}
