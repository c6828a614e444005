/**
  What the clock range breakout contract promises, derived for every range day from its own
  evaluation. ClockRangeBroker.Run equals the book of these evaluations; its contract repeats
  the two statements about whole books, on blocked rows and on the order of trades.
*/
module ClockTheorems {
  import opened Common
  import opened ClockSchedule
  import opened TradingDays
  import opened ClockDay

  // ----- the blocked branch

  lemma FillNeverBlocked(inp: Inputs, o: Orders, i: nat)
    requires i < |inp.bars|
    ensures FillBar(inp.setup, o, inp.bars[i], i).Cancelled? ==>
              FillBar(inp.setup, o, inp.bars[i], i).reason != BrokerBlocked
  {
    hide StopDistance, StopLevel, TargetLevel;
  }

  lemma PlacementNeverBlocked(inp: Inputs, day: int, k: nat)
    requires inp.setup.sch.tf > 0 && 0 <= inp.setup.gates.widthATRDays && k <= |inp.bars|
    ensures PlacementOf(inp, day, k).Refuse? ==> PlacementOf(inp, day, k).reason != BrokerBlocked
  {
    hide HighestHigh, LowestLow, AllDays, DailyATR;
  }

  lemma {:induction false} OrdersNeverBlocked(inp: Inputs, row: Row, o: Orders, i: nat, liquidate: bool)
    requires 0 <= inp.end < |inp.bars| && row.reason == NoReason
    ensures FromOrders(inp, row, o, i, liquidate).row.reason != BrokerBlocked
    decreases inp.end + 1 - i
  {
    hide FillBar, CloseTrade, FromExit;
    if i <= inp.end {
      FillNeverBlocked(inp, o, i);
      OrdersNeverBlocked(inp, row, o, i + 1, liquidate);
      match FillBar(inp.setup, o, inp.bars[i], i)
      case Opened(pos) => FromExitRow(inp, EnteredRow(row, pos.side), pos, i + 1, liquidate);
      case _ =>
    }
  }

  /** The broker-blocked rejection, present in the code, is never recorded by a run. */
  lemma NeverBrokerBlocked(inp: Inputs, a: int, b: int, liquidate: bool)
    requires Runnable(inp) && a <= b
    ensures forall row :: row in BookOf(inp, a, b, liquidate).rows ==> row.reason != BrokerBlocked
  {
    BookRows(inp, a, b, liquidate);
    forall d | a <= d < b ensures Evaluate(inp, d, liquidate).row.reason != BrokerBlocked {
      DayNeverBlocked(inp, d, liquidate);
    }
    hide Evaluate, BookOf, Runnable;
    var rows := BookOf(inp, a, b, liquidate).rows;
    forall row | row in rows ensures row.reason != BrokerBlocked {
      var k :| 0 <= k < |rows| && rows[k] == row;
      assert rows[(a + k) - a] == Evaluate(inp, a + k, liquidate).row;
    }
  }

  lemma DayNeverBlocked(inp: Inputs, day: int, liquidate: bool)
    requires inp.setup.sch.tf > 0 && 0 <= inp.setup.gates.widthATRDays && 0 <= inp.end < |inp.bars|
    ensures Evaluate(inp, day, liquidate).row.reason != BrokerBlocked
  {
    hide PlacementOf, FromOrders;
    var k := inp.Known(day);
    PlacementNeverBlocked(inp, day, k);
    match PlacementOf(inp, day, k)
    case Refuse(_) =>
    case Place(orders) => OrdersNeverBlocked(inp, BaseRow(inp, day, k), orders, k, liquidate);
  }

  // ----- when a day trades

  /** A position of `day` entered at bar `entry` and left at bar `exit`, clock close still ahead in between. */
  ghost predicate WithinDay(inp: Inputs, day: int, entry: nat, exit: int) {
    && entry < |inp.bars| && exit < |inp.bars|
    && inp.setup.sch.EndOf(day) <= inp.bars[entry].t < inp.setup.sch.ExpiryOf(day)
    && entry <= exit <= inp.end
    && forall j :: entry <= j < exit ==> inp.bars[j].t < inp.setup.sch.CloseOf(day)
  }

  lemma {:induction false} ExitTimes(inp: Inputs, row: Row, pos: Position, i: nat, liquidate: bool)
    requires 0 <= inp.end < |inp.bars| && pos.entryIndex < i <= inp.end + 1
    requires WithinDay(inp, pos.day, pos.entryIndex, i - 1) && inp.bars[i - 1].t < inp.setup.sch.CloseOf(pos.day)
    ensures var r := FromExit(inp, row, pos, i, liquidate);
            && (r.trade.Some? <==> r.open.None?)
            && (r.trade.Some? ==>
                  var t := r.trade.value;
                  && t.day == pos.day && t.entryIndex == pos.entryIndex
                  && WithinDay(inp, t.day, t.entryIndex, t.exitIndex)
                  && (t.reason == ClockClose ==> inp.bars[t.exitIndex].t >= inp.setup.sch.CloseOf(t.day)))
            && (r.open.Some? ==>
                  r.open.value == pos && WithinDay(inp, pos.day, pos.entryIndex, inp.end)
                  && inp.bars[inp.end].t < inp.setup.sch.CloseOf(pos.day) && !liquidate)
    decreases inp.end + 1 - i
  {
    if i <= inp.end && ExitBar(inp.setup.sch, pos, inp.bars[i]).None? {
      ExitTimes(inp, row, pos, i + 1, liquidate);
    }
  }

  /** What one day may do: at most one entry, inside its hours, left by its clock close. */
  ghost predicate DayTimes(inp: Inputs, day: int, r: DayResult) {
    && (r.row.outcome == Entered <==> r.trade.Some? || r.open.Some?)
    && !(r.trade.Some? && r.open.Some?)
    && (r.trade.Some? ==>
          var t := r.trade.value;
          t.day == day && WithinDay(inp, day, t.entryIndex, t.exitIndex)
          && (t.reason == ClockClose ==> inp.bars[t.exitIndex].t >= inp.setup.sch.CloseOf(day)))
    && (r.open.Some? ==>
          var p := r.open.value;
          p.day == day && WithinDay(inp, day, p.entryIndex, inp.end)
          && 0 <= inp.end < |inp.bars| && inp.bars[inp.end].t < inp.setup.sch.CloseOf(day))
  }

  lemma {:induction false} OrdersTimes(inp: Inputs, row: Row, o: Orders, i: nat, liquidate: bool)
    requires 0 <= inp.end < |inp.bars| && ValidSpec(inp.setup.sch.spec, false) && row.outcome == Rejected
    requires o.expiryT == inp.setup.sch.ExpiryOf(o.day)
    requires i <= inp.end ==> inp.bars[i].t >= inp.setup.sch.EndOf(o.day)
    requires Increasing(inp.bars)
    ensures DayTimes(inp, o.day, FromOrders(inp, row, o, i, liquidate))
    decreases inp.end + 1 - i
  {
    DayOrder(inp.setup.sch, o.day);
    if i <= inp.end && inp.bars[i].t < o.expiryT {
      if FillBar(inp.setup, o, inp.bars[i], i).Opened? { OpenedAt(inp, o, i); }
      hide FillBar, ValidSpec, FromExit, StopTouched;
      match FillBar(inp.setup, o, inp.bars[i], i)
      case Untouched => OrdersTimes(inp, row, o, i + 1, liquidate);
      case Cancelled(_) =>
      case Opened(pos) =>
        ExitTimes(inp, EnteredRow(row, pos.side), pos, i + 1, liquidate);
        FromExitRow(inp, EnteredRow(row, pos.side), pos, i + 1, liquidate);
    }
  }

  lemma OpenedAt(inp: Inputs, o: Orders, i: nat)
    requires i < |inp.bars| && FillBar(inp.setup, o, inp.bars[i], i).Opened?
    ensures FillBar(inp.setup, o, inp.bars[i], i).pos.day == o.day
            && FillBar(inp.setup, o, inp.bars[i], i).pos.entryIndex == i
  {
  }

  /** At most one entry per day, inside [range end, expiry), left no later than the first bar at or after its close. */
  lemma DayTimesHold(inp: Inputs, day: int, liquidate: bool)
    requires Runnable(inp)
    ensures DayTimes(inp, day, Evaluate(inp, day, liquidate))
  {
    RunnableParts(inp);
    hide Runnable, ValidSpec, PlacementOf, FromOrders;
    var k := inp.Known(day);
    if PlacementOf(inp, day, k).Place? {
      EvaluatePlaced(inp, day, k, liquidate);
      OrdersTimes(inp, BaseRow(inp, day, k), PlacementOf(inp, day, k).orders, k, liquidate);
    }
  }

  lemma RunnableParts(inp: Inputs)
    requires Runnable(inp)
    ensures inp.setup.sch.tf > 0 && 0 <= inp.setup.gates.widthATRDays && 0 <= inp.end < |inp.bars|
    ensures ValidSpec(inp.setup.sch.spec, false) && Increasing(inp.bars)
  {
    SeriesIncreasing(inp.bars, inp.setup.sch.tf);
  }

  /** Where a day entered the market, if it did. */
  function EntryIndex(r: DayResult): Option<nat> {
    if r.trade.Some? then Some(r.trade.value.entryIndex)
    else if r.open.Some? then Some(r.open.value.entryIndex)
    else None
  }

  /** A day that enters had its final range bar, so every earlier close was due before it. */
  lemma EntryAfterCloses(inp: Inputs, d: int, e: int, liquidate: bool)
    requires Runnable(inp) && d < e && EntryIndex(Evaluate(inp, e, liquidate)).Some?
    ensures var n := EntryIndex(Evaluate(inp, e, liquidate)).value;
            0 < n <= inp.end < |inp.bars| && inp.setup.sch.CloseOf(d) <= inp.bars[n - 1].t
  {
    RunnableParts(inp);
    DayTimesHold(inp, e, liquidate);
    var k := inp.Known(e);
    var n := EntryIndex(Evaluate(inp, e, liquidate)).value;
    assert k <= n;
    if PlacementOf(inp, e, k).Refuse? {
      EvaluateRefused(inp, e, k, liquidate);
    }
    PlacedHasFinalSlot(inp, e, k);
    EarlierDaysAreDue(inp, d, e, k - 1);
    hide Runnable, ValidSpec, Evaluate;
    assert inp.bars[k - 1].t <= inp.bars[n - 1].t;
  }

  lemma PlacedHasFinalSlot(inp: Inputs, day: int, k: nat)
    requires inp.setup.sch.tf > 0 && 0 <= inp.setup.gates.widthATRDays && k <= |inp.bars|
    ensures PlacementOf(inp, day, k).Place? ==>
              k > 0 && inp.bars[k - 1].t == inp.setup.sch.EndOf(day) - inp.setup.sch.tf
  {
    hide ApplyGates, AllDays, RawOrders;
  }

  /** Trades of different days never overlap, and nothing is entered after a position that stays open. */
  lemma NoOverlap(inp: Inputs, d: int, e: int, liquidate: bool)
    requires Runnable(inp) && d < e && EntryIndex(Evaluate(inp, e, liquidate)).Some?
    ensures var r, n := Evaluate(inp, d, liquidate), EntryIndex(Evaluate(inp, e, liquidate)).value;
            && r.open.None?
            && (r.trade.Some? ==> r.trade.value.exitIndex < n)
  {
    EntryAfterCloses(inp, d, e, liquidate);
    DayTimesHold(inp, d, liquidate);
    RunnableParts(inp);
    DayOrder(inp.setup.sch, d);
    hide Runnable, ValidSpec, Evaluate;
    var r, n := Evaluate(inp, d, liquidate), EntryIndex(Evaluate(inp, e, liquidate)).value;
    assert n - 1 <= inp.end;
    if r.trade.Some? {
      var t := r.trade.value;
      assert inp.bars[t.entryIndex].t < inp.bars[n - 1].t;
      assert t.entryIndex <= n - 1;
    }
  }

  /** The trade list of a run: strictly later days, each entered after the one before was left. */
  ghost predicate InOrder(trades: seq<Trade>) {
    forall i, j :: 0 <= i < j < |trades| ==>
      trades[i].day < trades[j].day && trades[i].exitIndex < trades[j].entryIndex
  }

  lemma TradeOfDay(inp: Inputs, day: int, liquidate: bool)
    requires Runnable(inp)
    ensures inp.setup.sch.tf > 0 && 0 <= inp.setup.gates.widthATRDays && 0 <= inp.end < |inp.bars|
    ensures Evaluate(inp, day, liquidate).trade.Some? ==> Evaluate(inp, day, liquidate).trade.value.day == day
  {
    RunnableParts(inp);
    hide Evaluate, Runnable;
    DayTimesHold(inp, day, liquidate);
  }

  lemma {:induction false} TradesBelong(inp: Inputs, a: int, b: int, liquidate: bool, k: nat)
    requires Runnable(inp) && a <= b && k < |BookOf(inp, a, b, liquidate).trades|
    ensures var t := BookOf(inp, a, b, liquidate).trades[k];
            a <= t.day < b && Evaluate(inp, t.day, liquidate).trade == Some(t)
    decreases b - a
  {
    hide Evaluate, Runnable;
    if a < b {
      TradeOfDay(inp, b - 1, liquidate);
      if k < |BookOf(inp, a, b - 1, liquidate).trades| {
        TradesBelong(inp, a, b - 1, liquidate, k);
      }
    }
  }

  lemma {:induction false} TradesInOrder(inp: Inputs, a: int, b: int, liquidate: bool)
    requires Runnable(inp) && a <= b
    ensures InOrder(BookOf(inp, a, b, liquidate).trades)
    decreases b - a
  {
    hide Evaluate, Runnable;
    if a < b {
      RunnableParts(inp);
      TradesInOrder(inp, a, b - 1, liquidate);
      var last := Evaluate(inp, b - 1, liquidate);
      TradeOfDay(inp, b - 1, liquidate);
      var before := BookOf(inp, a, b - 1, liquidate).trades;
      forall i | 0 <= i < |before| && last.trade.Some?
        ensures before[i].day < b - 1 && before[i].exitIndex < last.trade.value.entryIndex
      {
        TradesBelong(inp, a, b - 1, liquidate, i);
        NoOverlap(inp, before[i].day, b - 1, liquidate);
      }
    }
  }

  // ----- what a fill and an exit are worth

  /** A stop entry never fills better than its trigger or the open, before slippage is added against it. */
  lemma FillIsAdverse(inp: Inputs, o: Orders, i: nat)
    requires i < |inp.bars| && FillBar(inp.setup, o, inp.bars[i], i).Opened?
    requires inp.setup.slippage >= 0.0 && inp.setup.slippageBps >= 0.0
    ensures var pos := FillBar(inp.setup, o, inp.bars[i], i).pos;
            && (pos.side == Long ==> o.hasLong || o.cancelLong)
            && (pos.side == Long ==> inp.bars[i].h >= o.buy && pos.entry >= o.buy && pos.entry >= inp.bars[i].o)
            && (pos.side == Short ==> inp.bars[i].l <= o.sell && pos.entry <= o.sell && pos.entry <= inp.bars[i].o)
  {
    hide StopDistance, StopLevel, TargetLevel, PositionSize;
    SlippageNonnegative(inp.setup, Max(o.buy, inp.bars[i].o));
    SlippageNonnegative(inp.setup, Min(o.sell, inp.bars[i].o));
  }

  lemma SlippageNonnegative(su: Setup, price: real)
    requires su.slippage >= 0.0 && su.slippageBps >= 0.0
    ensures su.SlippageAt(price) >= 0.0
  {
    assert Abs(price) * su.slippageBps >= 0.0;
  }

  /**
    Size times the distance to the stop is the stated risk, the stop is on the losing
    side, and an R target lies targetR distances away on the other side.
  */
  lemma RiskIsStated(su: Setup, o: Orders, side: Side, base: real, i: nat)
    requires OpenAt(su, o, side, base, i).Opened?
    ensures var pos := OpenAt(su, o, side, base, i).pos;
            var distance := Sign(side) * (pos.entry - pos.sl);
            && distance > 0.0
            && pos.size * distance == su.riskUSD
            && (pos.noTarget <==> !(su.gates.targetR > 0.0))
            && (!pos.noTarget ==> Sign(side) * (pos.tp - pos.entry) == su.gates.targetR * distance)
  {
    var fill := FillPrice(su, side, base);
    var d := StopDistance(su, o, side, fill);
    StopIsDistanceAway(su, o, side, fill);
    assert d > 0.0;
    assert PositionSize(su, d) * d == su.riskUSD by {
      hide StopDistance;
    }
    if su.gates.targetR > 0.0 {
      TargetAway(Sign(side), fill, su.gates.targetR, d);
    }
  }

  lemma TargetAway(sign: real, fill: real, r: real, d: real)
    requires sign == 1.0 || sign == -1.0
    ensures sign * ((fill + sign * r * d) - fill) == r * d
  {
  }
}
