/**
  The clock range breakout run reads no future: what a run over the first bars of a
  series has decided about a day is what any longer run decides about it.
*/
module ClockCausality {
  import opened Common
  import opened ClockSchedule
  import opened TradingDays
  import opened ClockDay
  import opened ClockRun

  /** The same run on the bars up to index e only. */
  function Cut(inp: Inputs, e: nat): Inputs
    requires e < |inp.bars|
  {
    inp.(bars := inp.bars[..e + 1], end := e)
  }

  lemma {:induction false} SearchCut(bars: seq<Bar>, m: nat, k: nat, x: int)
    requires k <= m <= |bars|
    ensures SearchTime(bars[..m], k, x) == SearchTime(bars, k, x)
  {
    if k > 0 {
      SearchCut(bars, m, k - 1, x);
    }
  }

  /** A run that stops at bar e is as well formed as the run it is cut from. */
  lemma CutRunnable(inp: Inputs, e: nat)
    requires Runnable(inp) && e <= inp.end
    ensures Runnable(Cut(inp, e))
  {
    var cut := Cut(inp, e);
    forall i | 0 <= i < |cut.bars| ensures ValidBar(cut.bars, inp.setup.sch.tf, i) {
      assert ValidBar(inp.bars, inp.setup.sch.tf, i);
    }
  }

  // ----- coverage

  /** The range bars are exactly the executed bars that open in [range start, range end). */
  lemma RangeBarsExact(inp: Inputs, day: int, j: nat)
    requires Runnable(inp) && j <= inp.end
    ensures var k := inp.Known(day);
            SearchTime(inp.bars, k, inp.setup.sch.StartOf(day)) <= j < k
            <==> inp.setup.sch.StartOf(day) <= inp.bars[j].t < inp.setup.sch.EndOf(day)
  {
    SeriesIncreasing(inp.bars, inp.setup.sch.tf);
    var k := inp.Known(day);
    var lo := SearchTime(inp.bars, k, inp.setup.sch.StartOf(day));
    hide Runnable;
    assert k <= j ==> inp.bars[k].t <= inp.bars[j].t;
    assert lo < k && lo <= j ==> inp.bars[lo].t <= inp.bars[j].t;
  }

  /** Bar n of a stretch opens at least n slots after its first bar. */
  lemma {:induction false} SlotsApart(bars: seq<Bar>, tf: int, lo: nat, n: nat)
    requires ValidSeries(bars, tf) && lo + n < |bars|
    ensures bars[lo].t + n * tf <= bars[lo + n].t
  {
    if n > 0 {
      SlotsApart(bars, tf, lo, n - 1);
      assert ValidBar(bars, tf, lo + n) && ValidBar(bars, tf, lo + n - 1);
      ModShift(bars[lo + n - 1].t, 1, tf);
      GridStep(bars[lo + n - 1].t + tf, bars[lo + n].t, tf);
      assert n * tf == (n - 1) * tf + tf;
    }
  }

  /** No range holds more bars than its slots, so coverage is a fraction of the slots. */
  lemma NoExtraSlots(inp: Inputs, day: int)
    requires Runnable(inp)
    ensures 0 <= inp.end < |inp.bars|
    ensures var k := inp.Known(day);
            0 <= k - SearchTime(inp.bars, k, inp.setup.sch.StartOf(day)) <= ExpectedBars(inp, day)
  {
    hide SearchTime, ValidSeries, ValidClockRange;
    var k := inp.Known(day);
    DayOrder(inp.setup.sch, day);
    OnGrid(inp.setup.sch, day);
    SlotsBound(inp.bars, inp.setup.sch.tf, SearchTime(inp.bars, k, inp.setup.sch.StartOf(day)), k,
               inp.setup.sch.StartOf(day), inp.setup.sch.EndOf(day));
  }

  /** Bars lo..k-1 of a valid series, all opening in [start, end), fit the slots of that stretch. */
  lemma SlotsBound(bars: seq<Bar>, tf: int, lo: nat, k: nat, start: int, end: int)
    requires tf > 0 && ValidSeries(bars, tf) && lo <= k <= |bars| && start <= end
    requires start % tf == 0 && end % tf == 0
    requires lo < k ==> bars[lo].t >= start && bars[k - 1].t < end
    ensures k - lo <= (end - start) / tf
  {
    if lo < k {
      SlotsApart(bars, tf, lo, k - 1 - lo);
      hide ValidSeries;
      LastOnGrid(bars, tf, k);
      GridStepBelow(bars[k - 1].t, end, tf);
      FitsSlots(k - lo, end - start, tf);
    } else {
      FitsSlots(0, end - start, tf);
    }
  }

  lemma LastOnGrid(bars: seq<Bar>, tf: int, k: nat)
    requires tf > 0 && ValidSeries(bars, tf) && 0 < k <= |bars|
    ensures bars[k - 1].t % tf == 0
  {
    SeriesIncreasing(bars, tf);
  }

  lemma GridStepBelow(a: int, b: int, step: int)
    requires step > 0 && a % step == 0 && b % step == 0 && a < b
    ensures a + step <= b
  {
    ModShift(a, 1, step);
    GridStep(a + step, b, step);
  }

  lemma FitsSlots(n: int, width: int, tf: int)
    requires tf > 0 && ((n - 1) * tf + tf <= width || (n == 0 && 0 <= width))
    ensures n <= width / tf
  {
    assert width == (width / tf) * tf + width % tf;
    assert (n - 1) * tf + tf == n * tf;
    MulAway(n - width / tf, tf);
    assert (n - width / tf) * tf == n * tf - (width / tf) * tf;
  }

  /**
    A day is placed only from at least nine tenths of its slots, the final one among
    them, and from a range of positive width whose high and low are attained extremes.
  */
  lemma PlacedRange(inp: Inputs, day: int, k: nat)
    requires inp.setup.sch.tf > 0 && 0 <= inp.setup.gates.widthATRDays && k <= |inp.bars|
    requires PlacementOf(inp, day, k).Place?
    ensures var lo, o := SearchTime(inp.bars, k, inp.setup.sch.StartOf(day)), PlacementOf(inp, day, k).orders;
            && lo < k && 10 * (k - lo) >= 9 * ExpectedBars(inp, day)
            && inp.bars[k - 1].t == inp.setup.sch.EndOf(day) - inp.setup.sch.tf
            && o.rangeHigh == HighestHigh(inp.bars, lo, k) > LowestLow(inp.bars, lo, k) == o.rangeLow
            && (forall j :: lo <= j < k ==> o.rangeLow <= inp.bars[j].l && inp.bars[j].h <= o.rangeHigh)
            && (exists j :: lo <= j < k && inp.bars[j].h == o.rangeHigh)
            && (exists j :: lo <= j < k && inp.bars[j].l == o.rangeLow)
            && PricesOK(o)
  {
    var lo := SearchTime(inp.bars, k, inp.setup.sch.StartOf(day));
    hide AllDays, DailyATR;
    HighLowAreExtremes(inp.bars, lo, k);
  }

  // ----- placement reads only known bars

  lemma PlacementCut(inp: Inputs, day: int, k: nat, e: nat)
    requires inp.setup.sch.tf > 0 && 0 <= inp.setup.gates.widthATRDays && k <= e + 1 <= |inp.bars|
             && Increasing(inp.bars)
    requires 0 <= inp.setup.sch.spec.rangeStart
    ensures PlacementOf(Cut(inp, e), day, k) == PlacementOf(inp, day, k)
    ensures BaseRow(Cut(inp, e), day, k) == BaseRow(inp, day, k)
  {
    hide ApplyGates, AllDays, HighestHigh, LowestLow, SearchTime, Increasing, PricesOK;
    var cut := Cut(inp, e);
    SearchCut(inp.bars, e + 1, k, inp.setup.sch.StartOf(day));
    var lo := SearchTime(inp.bars, k, inp.setup.sch.StartOf(day));
    if lo < k {
      HighLowPrefix(inp.bars, lo, k, e + 1);
      RawOrdersCut(inp, day, lo, k, e);
      StartsOnDay(inp, day, k);
      GatesCut(inp, RawOrders(inp, day, lo, k), e, k - 1);
      assert cut.bars[k - 1] == inp.bars[k - 1];
    }
  }

  lemma RawOrdersCut(inp: Inputs, day: int, lo: nat, k: nat, e: nat)
    requires lo < k <= e + 1 <= |inp.bars|
    ensures RawOrders(Cut(inp, e), day, lo, k) == RawOrders(inp, day, lo, k)
  {
    hide HighestHigh, LowestLow;
    HighLowPrefix(inp.bars, lo, k, e + 1);
  }

  lemma StartsOnDay(inp: Inputs, day: int, k: nat)
    requires k <= |inp.bars| && Increasing(inp.bars)
    requires SearchTime(inp.bars, k, inp.setup.sch.StartOf(day)) < k
    ensures inp.bars[k - 1].t >= inp.setup.sch.StartOf(day)
  {
    var lo := SearchTime(inp.bars, k, inp.setup.sch.StartOf(day));
    assert inp.bars[lo].t >= inp.setup.sch.StartOf(day);
  }

  /** The gates see the trading days before the range day, all closed by its first range bar. */
  lemma GatesCut(inp: Inputs, o: Orders, e: nat, p: nat)
    requires 0 <= inp.setup.gates.widthATRDays && p <= e < |inp.bars| && Increasing(inp.bars)
    requires 0 <= inp.setup.sch.spec.rangeStart && inp.bars[p].t >= inp.setup.sch.StartOf(o.day)
    ensures ApplyGates(Cut(inp, e).setup, AllDays(inp.setup.sch, inp.bars[..e + 1]), o)
            == ApplyGates(inp.setup, AllDays(inp.setup.sch, inp.bars), o)
  {
    hide AllDays, DailyATR, PriorIndex, Increasing;
    var sch := inp.setup.sch;
    var full, known := AllDays(sch, inp.bars), AllDays(sch, inp.bars[..e + 1]);
    OnOrAfterDay(sch, o.day, inp.bars[p].t);
    var n := if inp.setup.gates.widthATRDays > 0 then inp.setup.gates.widthATRDays else 1;
    PriorDaysAreCausal(sch, inp.bars, e + 1, p, o.day, n);
    var i := PriorIndex(full, o.day);
    if i >= 0 {
      assert full[i] == full[..i + 1][i] && known[i] == known[..i + 1][i];
    }
  }

  lemma OnOrAfterDay(sch: Schedule, day: int, t: int)
    requires 0 <= sch.spec.rangeStart && t >= sch.StartOf(day)
    ensures sch.DayOf(t) >= day
  {
    DayOfMonotone(sch, sch.At(day, 0), t);
    DayOfSpan(sch, sch.At(day, 0), day);
  }

  // ----- fills and exits read only the bar at hand

  lemma {:induction false} ExitCut(inp: Inputs, row: Row, pos: Position, i: nat, e: nat, liquidate: bool)
    requires e <= inp.end < |inp.bars| && i <= e + 1
    ensures var cut := FromExit(Cut(inp, e), row, pos, i, false);
            && (cut.trade.Some? ==> cut.open.None? && FromExit(inp, row, pos, i, liquidate) == cut)
            && (cut.trade.None? ==>
                  cut.open == Some(pos)
                  && FromExit(inp, row, pos, i, liquidate) == FromExit(inp, row, pos, e + 1, liquidate))
    decreases e + 1 - i
  {
    if i <= e {
      ExitCut(inp, row, pos, i + 1, e, liquidate);
    }
  }

  /** The part of a day's result a shorter run has already settled, read off the longer run. */
  ghost predicate Settled(inp: Inputs, cut: DayResult, full: DayResult, e: nat, liquidate: bool)
    requires 0 <= inp.end < |inp.bars|
  {
    && (cut.row.outcome != StillPending && cut.open.None? ==> full == cut)
    && (cut.open.Some? ==>
          full.row == cut.row && full == FromExit(inp, cut.row, cut.open.value, e + 1, liquidate))
  }

  /** Orders still pending after the shorter run: the longer run works these same orders from bar e + 1 on. */
  ghost predicate GoesOn(inp: Inputs, row: Row, o: Orders, cut: DayResult, full: DayResult, e: nat, liquidate: bool)
    requires 0 <= inp.end < |inp.bars|
  {
    cut.row.outcome == StillPending ==>
      && cut == DayResult(row.(outcome := StillPending), None, None)
      && full == FromOrders(inp, row, o, e + 1, liquidate)
  }

  lemma {:induction false} OrdersCut(inp: Inputs, row: Row, o: Orders, i: nat, e: nat, liquidate: bool)
    requires e <= inp.end < |inp.bars| && i <= e + 1
    ensures var cut, full := FromOrders(Cut(inp, e), row, o, i, false), FromOrders(inp, row, o, i, liquidate);
            Settled(inp, cut, full, e, liquidate) && GoesOn(inp, row, o, cut, full, e, liquidate)
    decreases e + 1 - i
  {
    hide FillBar, CloseTrade, FromExit, StopTouched, FromOrders;
    var cut := Cut(inp, e);
    if i == e + 1 {
      OrdersAtEnd(cut, row, o, false);
    } else if inp.bars[i].t >= o.expiryT {
      DueOrdersExpire(inp, row, o, i, liquidate);
      DueOrdersExpire(cut, row, o, i, false);
    } else {
      OrdersUnfold(inp, row, o, i, liquidate);
      OrdersUnfold(cut, row, o, i, false);
      assert cut.bars[i] == inp.bars[i];
      OrdersCut(inp, row, o, i + 1, e, liquidate);
      match FillBar(inp.setup, o, inp.bars[i], i)
      case Opened(pos) =>
        ExitCut(inp, EnteredRow(row, pos.side), pos, i + 1, e, liquidate);
        FromExitRow(inp, EnteredRow(row, pos.side), pos, i + 1, liquidate);
        FromExitRow(cut, EnteredRow(row, pos.side), pos, i + 1, false);
      case _ =>
    }
  }

  /**
    No look-ahead, end to end. For every day whose range has ended by the close of bar e, the run
    over the bars up to e, itself a well-formed run, places exactly the orders the longer run
    places. It already shows the final audit row, trade and levels, unless its position or its
    orders are still live; those the longer run continues from bar e + 1.
  */
  lemma NoLookAhead(inp: Inputs, day: int, e: nat, liquidate: bool)
    requires Runnable(inp) && e <= inp.end
    requires inp.setup.sch.EndOf(day) <= inp.bars[e].t + inp.setup.sch.tf
    ensures Runnable(Cut(inp, e))
    ensures inp.setup.sch.tf > 0 && 0 <= inp.setup.gates.widthATRDays && 0 <= inp.end < |inp.bars|
    ensures inp.Known(day) <= e + 1 && Cut(inp, e).Known(day) == inp.Known(day)
    ensures PlacementOf(Cut(inp, e), day, inp.Known(day)) == PlacementOf(inp, day, inp.Known(day))
    ensures var cut, full := Evaluate(Cut(inp, e), day, false), Evaluate(inp, day, liquidate);
            var k := inp.Known(day);
            && Settled(inp, cut, full, e, liquidate)
            && (cut.row.outcome == StillPending ==>
                  && PlacementOf(inp, day, k).Place?
                  && GoesOn(inp, BaseRow(inp, day, k), PlacementOf(inp, day, k).orders, cut, full, e, liquidate))
  {
    RunnableFacts(inp);
    CutRunnable(inp, e);
    var k := inp.Known(day);
    KnownCut(inp, day, e);
    IncreasingBars(inp);
    hide Runnable, ValidSpec, PlacementOf, BaseRow, FromOrders, FromExit, Evaluate, Settled, GoesOn, SearchTime,
         Increasing;
    PlacementCut(inp, day, k, e);
    var cut := Cut(inp, e);
    if PlacementOf(inp, day, k).Refuse? {
      EvaluateRefused(inp, day, k, liquidate);
      EvaluateRefused(cut, day, k, false);
      BaseRowRejected(inp, day, k);
      RefusedSettled(inp, Evaluate(inp, day, liquidate), e, liquidate);
    } else {
      EvaluatePlaced(inp, day, k, liquidate);
      EvaluatePlaced(cut, day, k, false);
      OrdersCut(inp, BaseRow(inp, day, k), PlacementOf(inp, day, k).orders, k, e, liquidate);
    }
  }

  lemma BaseRowRejected(inp: Inputs, day: int, k: nat)
    requires inp.setup.sch.tf > 0 && k <= |inp.bars|
    ensures BaseRow(inp, day, k).outcome == Rejected
  {
  }

  lemma IncreasingBars(inp: Inputs)
    requires Runnable(inp)
    ensures Increasing(inp.bars) && 0 <= inp.setup.sch.spec.rangeStart
  {
    SeriesIncreasing(inp.bars, inp.setup.sch.tf);
  }

  lemma RefusedSettled(inp: Inputs, r: DayResult, e: nat, liquidate: bool)
    requires 0 <= inp.end < |inp.bars| && r.open.None?
    ensures Settled(inp, r, r, e, liquidate)
  {
  }

  /** A day due by the close of bar e has the same known bars in the shorter run. */
  lemma KnownCut(inp: Inputs, day: int, e: nat)
    requires Runnable(inp) && e <= inp.end
    requires inp.setup.sch.EndOf(day) <= inp.bars[e].t + inp.setup.sch.tf
    ensures inp.Known(day) <= e + 1 && Cut(inp, e).Known(day) == inp.Known(day)
  {
    hide SearchTime, ValidSeries, ValidClockRange;
    var x := inp.setup.sch.EndOf(day);
    if e < inp.end {
      TimeSteps(inp, e + 1);
    }
    SearchStops(inp.bars, inp.end + 1, e + 1, x);
    SearchAgree(inp.bars, e + 1, inp.end + 1, x);
    SearchCut(inp.bars, e + 1, e + 1, x);
  }

  lemma SearchStops(bars: seq<Bar>, k: nat, m: nat, x: int)
    requires m <= k <= |bars| && (m < k ==> bars[m].t >= x)
    ensures SearchTime(bars, k, x) <= m
  {
    hide SearchTime;
  }

  lemma {:induction false} SearchAgree(bars: seq<Bar>, m: nat, k: nat, x: int)
    requires m <= k <= |bars| && SearchTime(bars, k, x) <= m
    ensures SearchTime(bars, m, x) == SearchTime(bars, k, x)
    decreases k - m
  {
    if m < k {
      if SearchTime(bars, k - 1, x) <= m {
        SearchAgree(bars, m, k - 1, x);
      }
    }
  }
}
