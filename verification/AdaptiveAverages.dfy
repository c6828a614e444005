/**
  The running averages of the adaptive flag without their recurrences: what each is as a weighted
  sum of the bars, the weights falling off by one factor per bar.
*/
module AdaptiveAverages {
  import opened Common
  import opened AdaptiveBracket
  import opened AdaptiveSignals

  function Power(x: real, k: nat): real {
    if k == 0 then 1.0 else x * Power(x, k - 1)
  }

  lemma PowerSteps(x: real, k: nat)
    ensures Power(x, 0) == 1.0
    ensures k > 0 ==> Power(x, k) == x * Power(x, k - 1)
  {
  }

  /** What a value weighs after k more. */
  function Share(gain: real, keep: real, k: nat, x: real): real {
    gain * Power(keep, k) * x
  }

  lemma ShareFalls(gain: real, keep: real, k: nat, x: real)
    ensures Share(gain, keep, k + 1, x) == keep * Share(gain, keep, k, x)
    ensures Share(gain, keep, 0, x) == gain * x
  {
    var p := Power(keep, k);
    assert gain * (keep * p) * x == keep * (gain * p * x);
  }

  lemma Distribute(keep: real, a: real, b: real)
    ensures keep * (a + b) == keep * a + keep * b
  {
  }

  /** The values lo..hi, each weighing gain times keep to the number of values after it. */
  function Weighted(xs: seq<real>, gain: real, keep: real, lo: nat, hi: nat): real
    requires lo <= hi <= |xs|
    decreases hi - lo
  {
    if lo == hi then 0.0
    else Share(gain, keep, hi - 1 - lo, xs[lo]) + Weighted(xs, gain, keep, lo + 1, hi)
  }

  lemma {:induction false} WeightedStep(xs: seq<real>, gain: real, keep: real, lo: nat, hi: nat)
    requires lo <= hi < |xs|
    ensures Weighted(xs, gain, keep, lo, hi + 1) == keep * Weighted(xs, gain, keep, lo, hi) + gain * xs[hi]
    decreases hi - lo
  {
    hide Share;
    if lo < hi {
      WeightedStep(xs, gain, keep, lo + 1, hi);
      ShareFalls(gain, keep, hi - 1 - lo, xs[lo]);
      Distribute(keep, Share(gain, keep, hi - 1 - lo, xs[lo]), Weighted(xs, gain, keep, lo + 1, hi));
    } else {
      ShareFalls(gain, keep, 0, xs[lo]);
      assert Weighted(xs, gain, keep, hi + 1, hi + 1) == 0.0;
    }
  }

  function Closes(bars: seq<FlagBar>): seq<real> {
    seq(|bars|, i requires 0 <= i < |bars| => bars[i].close)
  }

  function Ranges(bars: seq<FlagBar>): seq<real> {
    seq(|bars|, i requires 0 <= i < |bars| => TrueRange(bars, i))
  }

  /** One more value, for any average that keeps a part of itself and takes a part of the new value. */
  lemma Combine(keep: real, p: real, x: real, w: real, y: real, before: real, now: real)
    requires before == p * x + w && now == y + keep * before
    ensures now == (keep * p) * x + (keep * w + y)
  {
    assert keep * (p * x + w) == keep * (p * x) + keep * w;
    assert keep * (p * x) == (keep * p) * x;
  }

  /**
    The exponential average of length n: every close weighs 2/(n+1), less by a factor for each bar
    after it that leaves the weights adding up to one; the first close takes what is left.
  */
  lemma {:induction false} EmaIsWeighted(bars: seq<FlagBar>, length: nat, i: nat, gain: real, keep: real)
    requires length >= 1 && i < |bars| && gain == 2.0 / (length as real + 1.0) && keep == 1.0 - gain
    ensures Ema(bars, length, i) == Power(keep, i) * bars[0].close + Weighted(Closes(bars), gain, keep, 1, i + 1)
  {
    hide Weighted, Closes, Blend, Power;
    CloseAt(bars, i);
    PowerSteps(keep, i);
    if i > 0 {
      EmaIsWeighted(bars, length, i - 1, gain, keep);
      WeightedStep(Closes(bars), gain, keep, 1, i);
      BlendIs(gain, keep, bars[i].close, Ema(bars, length, i - 1));
      Combine(keep, Power(keep, i - 1), bars[0].close, Weighted(Closes(bars), gain, keep, 1, i),
              gain * bars[i].close, Ema(bars, length, i - 1), Ema(bars, length, i));
    } else {
      NoneWeighted(Closes(bars), gain, keep, 1);
    }
  }

  lemma NoneWeighted(xs: seq<real>, gain: real, keep: real, lo: nat)
    requires lo <= |xs|
    ensures Weighted(xs, gain, keep, lo, lo) == 0.0
  {
  }

  lemma BlendIs(gain: real, keep: real, x: real, before: real)
    requires keep == 1.0 - gain
    ensures Blend(gain, x, before) == gain * x + keep * before
  {
  }

  lemma CloseAt(bars: seq<FlagBar>, i: nat)
    requires i < |bars|
    ensures |Closes(bars)| == |Ranges(bars)| == |bars|
    ensures Closes(bars)[i] == bars[i].close && Ranges(bars)[i] == TrueRange(bars, i)
  {
  }

  /**
    Wilder's average of length n: from row n on every true range weighs 1/n, less by (n-1)/n for
    each bar after it, and the mean of the first n ranges takes what is left.
  */
  lemma {:induction false} WilderIsWeighted(bars: seq<FlagBar>, length: nat, i: nat, gain: real, keep: real, mean: real)
    requires length >= 1 && length - 1 <= i < |bars| && mean == RangeSum(bars, length) / length as real
    requires gain == 1.0 / length as real && keep == (length as real - 1.0) / length as real
    ensures AverageRange(bars, length, i).Some?
    ensures AverageRange(bars, length, i).value
            == Power(keep, i + 1 - length) * mean + Weighted(Ranges(bars), gain, keep, length, i + 1)
  {
    hide Weighted, Ranges, Wilder, TrueRange, RangeSum, Power;
    CloseAt(bars, i);
    PowerSteps(keep, i + 1 - length);
    NoneWeighted(Ranges(bars), gain, keep, length);
    if i >= length {
      WilderIsWeighted(bars, length, i - 1, gain, keep, mean);
      WeightedStep(Ranges(bars), gain, keep, length, i);
      var before, now := AverageRange(bars, length, i - 1).value, AverageRange(bars, length, i).value;
      WilderIs(length, gain, keep, before, TrueRange(bars, i));
      Combine(keep, Power(keep, i - length), mean, Weighted(Ranges(bars), gain, keep, length, i),
              gain * TrueRange(bars, i), before, now);
    }
  }

  lemma WilderIs(length: nat, gain: real, keep: real, before: real, range: real)
    requires length >= 1 && gain == 1.0 / length as real && keep == (length as real - 1.0) / length as real
    ensures Wilder(length, before, range) == keep * before + gain * range
  {
    var n := length as real;
    assert (length - 1) as real == n - 1.0;
    Shares(before * (n - 1.0), range, n);
    Commuted(before, n - 1.0, n);
    Commuted(range, 1.0, n);
  }

  lemma Shares(a: real, b: real, n: real)
    requires n > 0.0
    ensures (a + b) / n == a / n + b / n
  {
  }

  lemma Commuted(a: real, b: real, n: real)
    requires n > 0.0
    ensures (a * b) / n == (b / n) * a
  {
  }

  /** The mean volume lies between any bounds of the volumes it is taken over. */
  lemma VolumeStaysInBand(bars: seq<FlagBar>, length: nat, i: nat, lo: real, hi: real)
    requires length >= 1 && length - 1 <= i < |bars|
    requires forall j :: i + 1 - length <= j <= i ==> lo <= bars[j].volume <= hi
    ensures VolumeMean(bars, length, i).Some? && lo <= VolumeMean(bars, length, i).value <= hi
  {
    hide VolumeSum;
    VolumeSumInBand(bars, i + 1 - length, i + 1, lo, hi);
    MeanInBand(VolumeSum(bars, i + 1 - length, i + 1), length, lo, hi);
  }

  lemma {:induction false} VolumeSumInBand(bars: seq<FlagBar>, a: nat, b: nat, lo: real, hi: real)
    requires a <= b <= |bars| && forall j :: a <= j < b ==> lo <= bars[j].volume <= hi
    ensures lo * (b - a) as real <= VolumeSum(bars, a, b) <= hi * (b - a) as real
    decreases b - a
  {
    if a < b {
      VolumeSumInBand(bars, a + 1, b, lo, hi);
      OneMoreOf(lo, b - a - 1);
      OneMoreOf(hi, b - a - 1);
    }
  }

  /** The plain sum that starts Wilder's average lies between any bounds of its ranges. */
  lemma {:induction false} RangeSumInBand(bars: seq<FlagBar>, n: nat, lo: real, hi: real)
    requires n <= |bars| && forall j :: 0 <= j < n ==> lo <= TrueRange(bars, j) <= hi
    ensures lo * n as real <= RangeSum(bars, n) <= hi * n as real
  {
    hide TrueRange;
    if n > 0 {
      RangeSumInBand(bars, n - 1, lo, hi);
      OneMoreOf(lo, n - 1);
      OneMoreOf(hi, n - 1);
    }
  }

  /** A true range spans the bar's own range and the close before it, the gap included. */
  lemma TrueRangeSpansGap(bars: seq<FlagBar>, i: nat)
    requires 0 < i < |bars| && bars[i].low <= bars[i].high
    ensures TrueRange(bars, i) == Max(bars[i].high, bars[i - 1].close) - Min(bars[i].low, bars[i - 1].close)
  {
  }
}
