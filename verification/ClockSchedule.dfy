/**
  The declared-clock schedule of the clock range breakout family
  (dsl/clock_range_breakout.go and clockSchedule in
  engine/family_clock_range_breakout.go).
*/
module ClockSchedule {
  import opened Common

  const MINUTES_PER_DAY := 1440
  const MS_PER_MINUTE := 60_000
  const MS_PER_DAY := 86_400_000
  const MIN_OFFSET := -720
  const MAX_OFFSET := 840
  const MAX_WIDTH_ATR_DAYS := 1000

  /** Minutes count from midnight of the range date on the declared clock. */
  datatype Spec = Spec(
    utcOffset: int, rangeStart: int, rangeEnd: int, expire: int, close: int,
    bufferPips: real, stopPercent: real, allowLong: bool, allowShort: bool)

  datatype StopMode = PercentStop | OppositeRangeEdge

  datatype Gates = Gates(
    stopMode: StopMode, widthMinATR: real, widthATRDays: int,
    priorDayCandle: bool, cancelOnOpposite: bool, targetR: real)
  {
    predicate UsesDailyInputs() {
      widthATRDays > 0 || priorDayCandle
    }
  }

  /** A wall time before range end belongs to the next clock day. */
  function ResolveWallMinute(minute: int, rangeEnd: int): int {
    if minute < rangeEnd then minute + MINUTES_PER_DAY else minute
  }

  predicate ValidSpec(s: Spec, requirePercent: bool) {
    && MIN_OFFSET <= s.utcOffset <= MAX_OFFSET
    && 0 <= s.rangeStart < MINUTES_PER_DAY && 0 <= s.rangeEnd < MINUTES_PER_DAY
    && 0 <= s.expire < MINUTES_PER_DAY && 0 <= s.close < MINUTES_PER_DAY
    && s.rangeStart < s.rangeEnd
    && s.expire != s.rangeEnd && s.close != s.rangeEnd
    && ResolveWallMinute(s.expire, s.rangeEnd) <= ResolveWallMinute(s.close, s.rangeEnd)
    && s.bufferPips >= 0.0
    && (requirePercent ==> 0.0 < s.stopPercent <= 100.0)
    && (s.allowLong || s.allowShort)
  }

  predicate ValidClockRange(s: Spec, g: Gates) {
    && ValidSpec(s, g.stopMode == PercentStop)
    && (g.stopMode == PercentStop ==> g.targetR == 0.0)
    && (g.stopMode == OppositeRangeEdge ==> s.stopPercent == 0.0)
    && g.targetR >= 0.0
    && (g.widthATRDays == 0 <==> g.widthMinATR == 0.0)
    && 0 <= g.widthATRDays <= MAX_WIDTH_ATR_DAYS
    && g.widthMinATR >= 0.0
    && (g.priorDayCandle ==> s.allowLong && s.allowShort)
    && (g.cancelOnOpposite ==> g.priorDayCandle)
  }

  datatype TimeUnit = Minute | Hour | Day

  function UnitMinutes(unit: TimeUnit): int {
    match unit
    case Minute => 1
    case Hour => 60
    case Day => MINUTES_PER_DAY
  }

  /**
    Bar duration in minutes of a label already split into its count and unit: the count times the
    unit, exactly when bars of that length fill a day without a rest.
  */
  function TimeframeMinutes(count: int, unit: TimeUnit): (m: Option<int>)
    ensures m.Some? <==> exists bars: int :: bars > 0 && FillsDay(count, unit, bars)
    ensures m.Some? ==> m.value == count * UnitMinutes(unit)
  {
    if count <= 0 || count > MINUTES_PER_DAY then
      NoFill(count, unit);
      None
    else
      var minutes := match unit
        case Minute => count
        case Hour => count * 60
        case Day => count * MINUTES_PER_DAY;
      FillsIff(count, unit);
      if minutes > MINUTES_PER_DAY || MINUTES_PER_DAY % minutes != 0 then None else Some(minutes)
  }

  /** That many bars of the label are exactly one day. */
  predicate FillsDay(count: int, unit: TimeUnit, bars: int) {
    bars * (count * UnitMinutes(unit)) == MINUTES_PER_DAY
  }

  lemma NoFill(count: int, unit: TimeUnit)
    requires count <= 0 || count > MINUTES_PER_DAY
    ensures forall bars: int :: bars > 0 ==> !FillsDay(count, unit, bars)
  {
    forall bars: int | bars > 0
      ensures !FillsDay(count, unit, bars)
    {
      TooLong(bars, count, UnitMinutes(unit));
    }
  }

  lemma TooLong(bars: int, count: int, unit: int)
    requires bars > 0 && unit >= 1 && (count <= 0 || count > MINUTES_PER_DAY)
    ensures bars * (count * unit) != MINUTES_PER_DAY
  {
    if count > 0 {
      AtLeast(count, unit);
      AtLeast(count * unit, bars);
    } else {
      AtLeast(-count, unit);
      assert bars * (-count * unit) >= 0;
    }
  }

  lemma AtLeast(a: int, b: int)
    requires a >= 0 && b >= 1
    ensures a * b >= a
  {
  }

  lemma FillsIff(count: int, unit: TimeUnit)
    requires 0 < count <= MINUTES_PER_DAY
    ensures var minutes := count * UnitMinutes(unit);
            minutes > 0 &&
            (minutes <= MINUTES_PER_DAY && MINUTES_PER_DAY % minutes == 0
             <==> exists bars: int :: bars > 0 && FillsDay(count, unit, bars))
  {
    var minutes := count * UnitMinutes(unit);
    AtLeast(count, UnitMinutes(unit));
    if minutes <= MINUTES_PER_DAY && MINUTES_PER_DAY % minutes == 0 {
      var bars := MINUTES_PER_DAY / minutes;
      assert bars * minutes == MINUTES_PER_DAY;
      assert FillsDay(count, unit, bars);
    }
    forall bars: int | bars > 0 && FillsDay(count, unit, bars)
      ensures minutes <= MINUTES_PER_DAY && MINUTES_PER_DAY % minutes == 0
    {
      AtLeast(minutes, bars);
      ModShift(0, bars, minutes);
    }
  }

  /** The four instants of a range day, in the order they are checked. */
  datatype Boundary = RangeStart | RangeEnd | Expiry | Close

  function BoundaryMinute(s: Spec, b: Boundary): int {
    match b
    case RangeStart => s.rangeStart
    case RangeEnd => s.rangeEnd
    case Expiry => ResolveWallMinute(s.expire, s.rangeEnd)
    case Close => ResolveWallMinute(s.close, s.rangeEnd)
  }

  predicate OffGrid(s: Spec, b: Boundary, minutes: int)
    requires minutes > 0
  {
    TruncMod(TruncMod(BoundaryMinute(s, b) - s.utcOffset, minutes) + minutes, minutes) != 0
  }

  /** The first boundary off the bar grid, if any. */
  function AlignmentError(s: Spec, minutes: int): Option<Boundary>
    requires minutes > 0
  {
    if OffGrid(s, RangeStart, minutes) then Some(RangeStart)
    else if OffGrid(s, RangeEnd, minutes) then Some(RangeEnd)
    else if OffGrid(s, Expiry, minutes) then Some(Expiry)
    else if OffGrid(s, Close, minutes) then Some(Close)
    else None
  }

  /** The schedule of one run: spec and bar duration in milliseconds. */
  datatype Schedule = Schedule(spec: Spec, tf: int) {
    function At(day: int, minute: int): int {
      day * MS_PER_DAY - spec.utcOffset * MS_PER_MINUTE + minute * MS_PER_MINUTE
    }

    function Instant(day: int, b: Boundary): int {
      At(day, BoundaryMinute(spec, b))
    }

    function StartOf(day: int): int { Instant(day, RangeStart) }
    function EndOf(day: int): int { Instant(day, RangeEnd) }
    function ExpiryOf(day: int): int { Instant(day, Expiry) }
    function CloseOf(day: int): int { Instant(day, Close) }

    /** The clock day of an instant; floored division, see Common.FloorDivIsFloor. */
    function DayOf(t: int): int {
      (t + spec.utcOffset * MS_PER_MINUTE) / MS_PER_DAY
    }

    /** What validation and newClockSchedule establish about a usable schedule. */
    ghost predicate Valid() {
      && ValidSpec(spec, false)
      && tf > 0
      && exists count, unit :: FromLabel(count, unit)
    }

    ghost predicate FromLabel(count: int, unit: TimeUnit) {
      var minutes := TimeframeMinutes(count, unit);
      minutes.Some? && tf == minutes.value * MS_PER_MINUTE && AlignmentError(spec, minutes.value) == None
    }
  }

  /** Range end < expiry <= close < next range end, on every day. */
  lemma DayOrder(s: Schedule, day: int)
    requires ValidSpec(s.spec, false)
    ensures s.StartOf(day) < s.EndOf(day) < s.ExpiryOf(day) <= s.CloseOf(day) < s.EndOf(day + 1)
    ensures s.EndOf(day + 1) == s.EndOf(day) + MS_PER_DAY
  {
  }

  /** What a clock set to the declared offset, in minutes ahead of UTC, shows at an instant: days and minutes. */
  function ClockReading(s: Schedule, t: int): (int, int) {
    var minutes := t / 60_000 + s.spec.utcOffset;
    (minutes / 1440, minutes % 1440)
  }

  lemma ReadsAt(s: Schedule, day: int, minute: int)
    requires 0 <= minute < 2880
    ensures ClockReading(s, s.At(day, minute))
            == if minute < 1440 then (day, minute) else (day + 1, minute - 1440)
  {
    var shown := day * 1440 + minute;
    assert s.At(day, minute) == (shown - s.spec.utcOffset) * 60_000;
    assert s.At(day, minute) / 60_000 + s.spec.utcOffset == shown;
  }

  /**
    On the declared clock a range day runs from its start to its end on one date; expiry and
    close show their own minute of that date, or of the next one when they lie before the range end.
  */
  lemma WallClock(s: Schedule, day: int)
    requires ValidSpec(s.spec, false)
    ensures ClockReading(s, s.StartOf(day)) == (day, s.spec.rangeStart)
    ensures ClockReading(s, s.EndOf(day)) == (day, s.spec.rangeEnd)
    ensures ClockReading(s, s.ExpiryOf(day))
            == (if s.spec.expire < s.spec.rangeEnd then day + 1 else day, s.spec.expire)
    ensures ClockReading(s, s.CloseOf(day)) == (if s.spec.close < s.spec.rangeEnd then day + 1 else day, s.spec.close)
  {
    hide ClockReading, Schedule.At;
    ReadsAt(s, day, BoundaryMinute(s.spec, RangeStart));
    ReadsAt(s, day, BoundaryMinute(s.spec, RangeEnd));
    ReadsAt(s, day, BoundaryMinute(s.spec, Expiry));
    ReadsAt(s, day, BoundaryMinute(s.spec, Close));
  }

  /** The clock day of an instant is the date the clock shows. */
  lemma DayIsShown(s: Schedule, t: int)
    ensures s.DayOf(t) == ClockReading(s, t).0
  {
  }

  lemma DaysAhead(s: Schedule, d: int, e: int)
    requires ValidSpec(s.spec, false) && d < e
    ensures s.CloseOf(d) < s.EndOf(e) && s.EndOf(d) < s.EndOf(e)
  {
    DayOrder(s, d);
    assert s.EndOf(e) == s.EndOf(d + 1) + (e - (d + 1)) * MS_PER_DAY;
  }

  /** The clock day of an instant is the one whose midnight-to-midnight span holds it. */
  lemma DayOfSpan(s: Schedule, t: int, day: int)
    ensures s.DayOf(t) == day <==> s.At(day, 0) <= t < s.At(day, MINUTES_PER_DAY)
  {
  }

  lemma DayOfMonotone(s: Schedule, t: int, u: int)
    requires t <= u
    ensures s.DayOf(t) <= s.DayOf(u)
  {
    DayOfSpan(s, t, s.DayOf(t));
    DayOfSpan(s, u, s.DayOf(u));
  }

  // ----- alignment

  lemma ScaledMod(x: int, m: int, k: int)
    requires m > 0 && k > 0
    ensures (x * k) % (m * k) == 0 <==> x % m == 0
  {
    var q, r := x / m, x % m;
    assert x == q * m + r;
    assert m * k > 0;
    assert x * k == q * (m * k) + r * k;
    assert 0 <= r * k < m * k by {
      MulAway(m - r, k);
      assert (m - r) * k == m * k - r * k;
      if r > 0 { MulAway(r, k); }
    }
    DivUnique(x * k, m * k, q);
    assert (x * k) % (m * k) == r * k;
    if r > 0 { MulAway(r, k); }
  }

  lemma ModShift(x: int, q: int, m: int)
    requires m > 0
    ensures (q * m + x) % m == x % m
  {
    var d := x / m;
    assert x == d * m + x % m;
    assert q * m + x == (q + d) * m + x % m;
    DivUnique(q * m + x, m, q + d);
  }

  /** A truncated remainder is the floored one, or that less the divisor. */
  lemma TruncModIs(x: int, m: int)
    requires m > 0
    ensures TruncMod(x, m) == x % m || TruncMod(x, m) == x % m - m
  {
    if x < 0 {
      var q, r := (-x) / m, (-x) % m;
      assert -x == q * m + r;
      assert TruncMod(x, m) == -r;
      if r == 0 {
        assert (-q) * m == x;
        DivUnique(x, m, -q);
      } else {
        assert (-q - 1) * m == x + r - m;
        DivUnique(x, m, -q - 1);
      }
    }
  }

  lemma OffGridIsMod(s: Spec, b: Boundary, minutes: int)
    requires minutes > 0
    ensures OffGrid(s, b, minutes) <==> (BoundaryMinute(s, b) - s.utcOffset) % minutes != 0
  {
    hide TruncMod;
    var x := BoundaryMinute(s, b) - s.utcOffset;
    TruncModIs(x, minutes);
    var y := TruncMod(x, minutes) + minutes;
    TruncModIs(y, minutes);
    assert y == x % minutes || y == minutes + x % minutes;
    ModShift(x % minutes, 1, minutes);
    assert y % minutes == x % minutes;
    TruncModNonnegative(y, minutes);
  }

  lemma TruncModNonnegative(y: int, m: int)
    requires y >= 0 && m > 0
    ensures TruncMod(y, m) == y % m
  {
    assert y == (y / m) * m + y % m;
  }

  lemma InstantOnGrid(s: Schedule, minutes: int, day: int, b: Boundary)
    requires 0 < minutes && MINUTES_PER_DAY % minutes == 0 && s.tf == minutes * MS_PER_MINUTE
    ensures s.Instant(day, b) % s.tf == 0 <==> !OffGrid(s.spec, b, minutes)
  {
    OffGridIsMod(s.spec, b, minutes);
    var x := BoundaryMinute(s.spec, b) - s.spec.utcOffset;
    var q := MINUTES_PER_DAY / minutes;
    var y := day * MINUTES_PER_DAY + x;
    ScaledMod(y, minutes, MS_PER_MINUTE);
    assert y == (day * q) * minutes + x by {
      assert MINUTES_PER_DAY == q * minutes;
      MulRegroup(day, q, minutes);
    }
    ModShift(x, day * q, minutes);
    assert s.Instant(day, b) == y * MS_PER_MINUTE;
  }

  lemma MulRegroup(a: int, b: int, c: int)
    ensures a * (b * c) == (a * b) * c
  {
  }

  /**
    The alignment check is made once on minutes, without a date. It accepts exactly
    the specs whose four instants lie on the bar grid on every clock day, and the
    boundary it names is off the grid on every clock day.
  */
  lemma AlignmentIsDateFree(s: Schedule, minutes: int)
    requires 0 < minutes && MINUTES_PER_DAY % minutes == 0 && s.tf == minutes * MS_PER_MINUTE
    ensures AlignmentError(s.spec, minutes) == None
            <==> forall day, b :: s.Instant(day, b) % s.tf == 0
    ensures AlignmentError(s.spec, minutes).Some? ==>
              forall day :: s.Instant(day, AlignmentError(s.spec, minutes).value) % s.tf != 0
  {
    forall day, b
      ensures s.Instant(day, b) % s.tf == 0 <==> !OffGrid(s.spec, b, minutes)
    {
      InstantOnGrid(s, minutes, day, b);
    }
    var err := AlignmentError(s.spec, minutes);
    if err.Some? {
      assert s.Instant(0, err.value) % s.tf != 0;
    } else {
      assert forall b :: !OffGrid(s.spec, b, minutes) by {
        forall b ensures !OffGrid(s.spec, b, minutes) {
          match b
          case RangeStart =>
          case RangeEnd =>
          case Expiry =>
          case Close =>
        }
      }
    }
  }

  lemma OnGrid(s: Schedule, day: int)
    requires s.Valid()
    ensures s.StartOf(day) % s.tf == 0 && s.EndOf(day) % s.tf == 0
    ensures s.ExpiryOf(day) % s.tf == 0 && s.CloseOf(day) % s.tf == 0
  {
    var count, unit :| s.FromLabel(count, unit);
    AlignmentIsDateFree(s, TimeframeMinutes(count, unit).value);
    assert s.Instant(day, RangeStart) % s.tf == 0;
  }
}
