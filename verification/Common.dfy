/** Small datatypes and integer facts shared by the other modules. */
module Common {
  datatype Option<+T> = None | Some(value: T)

  datatype Side = Long | Short

  /** One candle: open timestamp in milliseconds and four prices. */
  datatype Bar = Bar(t: int, o: real, h: real, l: real, c: real)

  function Sign(s: Side): real {
    if s == Long then 1.0 else -1.0
  }

  function Max(a: real, b: real): real {
    if a < b then b else a
  }

  function Min(a: real, b: real): real {
    if b < a then b else a
  }

  function Abs(a: real): real {
    if a < 0.0 then -a else a
  }

  ghost predicate Increasing(bars: seq<Bar>) {
    forall i, j :: 0 <= i < j < |bars| ==> bars[i].t < bars[j].t
  }

  /** Integer division that truncates toward zero, as the source language does. */
  function TruncDiv(a: int, b: int): int
    requires b != 0
  {
    if a >= 0 then a / b else -((-a) / b)
  }

  function TruncMod(a: int, b: int): int
    requires b != 0
  {
    a - TruncDiv(a, b) * b
  }

  /** Floored division built from the truncating one (calendar_helpers.go). */
  function FloorDiv(a: int, b: int): int
    requires b != 0
  {
    var q := TruncDiv(a, b);
    var r := TruncMod(a, b);
    if r != 0 && (r < 0) != (b < 0) then q - 1 else q
  }

  lemma Undone(sum: real, n: real)
    requires n > 0.0
    ensures (sum / n) * n == sum
  {
  }

  lemma MeanInBand(sum: real, n: nat, lo: real, hi: real)
    requires n > 0 && lo * n as real <= sum <= hi * n as real
    ensures lo <= sum / n as real <= hi
  {
    var mean := sum / n as real;
    Undone(sum, n as real);
    OrderedTimes(lo, mean, n as real);
    OrderedTimes(mean, hi, n as real);
  }

  lemma OrderedTimes(a: real, b: real, n: real)
    requires n > 0.0
    ensures a <= b <==> a * n <= b * n
  {
    assert (b - a) * n == b * n - a * n;
    if a <= b {
      assert (b - a) * n >= 0.0;
    } else {
      assert (a - b) * n > 0.0;
    }
  }

  lemma OneMoreOf(x: real, n: nat)
    ensures x * (n + 1) as real == x * n as real + x
  {
    assert (n + 1) as real == n as real + 1.0;
  }

  lemma MulAway(x: int, step: int)
    requires step > 0
    ensures x >= 1 ==> x * step >= step
    ensures x <= -1 ==> x * step <= -step
  {
  }

  lemma DivUnique(a: int, b: int, q: int)
    requires b > 0 && q * b <= a < q * b + b
    ensures a / b == q
  {
    var d := a / b;
    assert a == d * b + a % b;
    MulAway(d - q, b);
    assert (d - q) * b == d * b - q * b;
  }

  /**
    The corrected truncating division is the floor of the quotient: what is left over lies
    between zero and the divisor, the divisor excluded, whatever the signs.
  */
  lemma FloorDivIsFloor(a: int, b: int)
    requires b != 0
    ensures b > 0 ==> FloorDiv(a, b) * b <= a < FloorDiv(a, b) * b + b
    ensures b < 0 ==> FloorDiv(a, b) * b >= a > FloorDiv(a, b) * b + b
    ensures b > 0 ==> FloorDiv(a, b) == a / b
  {
    var m := if a >= 0 then a else -a;
    var d, r := m / b, m % b;
    Remainder(m, b);
    if a >= 0 {
      Distribute(d, b);
    } else {
      Distribute(-d, b);
      assert TruncMod(a, b) == -r;
    }
    if b > 0 {
      DivUnique(a, b, FloorDiv(a, b));
    }
  }

  lemma Remainder(m: nat, b: int)
    requires b != 0
    ensures m == (m / b) * b + m % b && 0 <= m % b < (if b > 0 then b else -b)
    ensures (-(m / b)) * b == -((m / b) * b)
  {
  }

  lemma Distribute(q: int, b: int)
    ensures (q - 1) * b == q * b - b
  {
  }

  /** Two multiples of the same step that are less than one step apart are ordered. */
  lemma GridStep(a: int, b: int, step: int)
    requires step > 0 && a % step == 0 && b % step == 0
    requires a < b + step
    ensures a <= b
  {
    var p, q := a / step, b / step;
    assert a == p * step && b == q * step;
    MulAway(p - q, step);
    assert (p - q) * step == a - b;
  }

  /** Half-open maximum of the highs of bars[lo..hi]. */
  function HighestHigh(bars: seq<Bar>, lo: nat, hi: nat): real
    requires lo < hi <= |bars|
  {
    if lo + 1 == hi then bars[lo].h else Max(HighestHigh(bars, lo, hi - 1), bars[hi - 1].h)
  }

  function LowestLow(bars: seq<Bar>, lo: nat, hi: nat): real
    requires lo < hi <= |bars|
  {
    if lo + 1 == hi then bars[lo].l else Min(LowestLow(bars, lo, hi - 1), bars[hi - 1].l)
  }

  lemma {:induction false} HighLowAreExtremes(bars: seq<Bar>, lo: nat, hi: nat)
    requires lo < hi <= |bars|
    ensures forall j :: lo <= j < hi ==> LowestLow(bars, lo, hi) <= bars[j].l && bars[j].h <= HighestHigh(bars, lo, hi)
    ensures exists j :: lo <= j < hi && bars[j].h == HighestHigh(bars, lo, hi)
    ensures exists j :: lo <= j < hi && bars[j].l == LowestLow(bars, lo, hi)
  {
    if lo + 1 < hi {
      HighLowAreExtremes(bars, lo, hi - 1);
    } else {
      assert bars[lo].h == HighestHigh(bars, lo, hi) && bars[lo].l == LowestLow(bars, lo, hi);
    }
  }

  lemma {:induction false} HighLowSplit(bars: seq<Bar>, lo: nat, mid: nat, hi: nat)
    requires lo < mid < hi <= |bars|
    ensures HighestHigh(bars, lo, hi) == Max(HighestHigh(bars, lo, mid), HighestHigh(bars, mid, hi))
    ensures LowestLow(bars, lo, hi) == Min(LowestLow(bars, lo, mid), LowestLow(bars, mid, hi))
  {
    if mid + 1 < hi {
      HighLowSplit(bars, lo, mid, hi - 1);
    }
  }

  /** Bars beyond the window do not matter. */
  lemma {:induction false} HighLowPrefix(bars: seq<Bar>, lo: nat, hi: nat, m: nat)
    requires lo < hi <= m <= |bars|
    ensures HighestHigh(bars[..m], lo, hi) == HighestHigh(bars, lo, hi)
    ensures LowestLow(bars[..m], lo, hi) == LowestLow(bars, lo, hi)
  {
    if lo + 1 < hi {
      HighLowPrefix(bars, lo, hi - 1, m);
    }
  }
}
