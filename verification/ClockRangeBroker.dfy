/**
  The clock range breakout run loop (engine/family_clock_range_breakout.go): one pass
  over the bars that keeps a day pointer, a pair of pending stop orders, at most one
  position, an audit list and a trade list. Run is proved to produce, for every range
  day, exactly what ClockDay.Evaluate says about that day alone.
*/
module ClockRangeBroker {
  import opened Common
  import opened ClockSchedule
  import opened TradingDays
  import opened ClockDay
  import opened ClockRun
  import opened ClockTheorems

  class Broker {
    const inp: Inputs
    var days: seq<Row>
    var pending: Option<Pending>
    var position: Option<Position>
    var closeT: int
    var trades: seq<Trade>

    constructor (inp: Inputs)
      ensures this.inp == inp
      ensures days == [] && pending == None && position == None && trades == []
    {
      this.inp := inp;
      days, pending, position, closeT, trades := [], None, None, 0, [];
    }

    ghost function State(): State
      reads this
    {
      ClockRun.State.State(days, pending, position, trades)
    }

    method FinishDay(p: Pending, outcome: Outcome, reason: Reason)
      requires p.auditIndex < |days|
      modifies this`days
      ensures days == old(days)[p.auditIndex := old(days)[p.auditIndex].(outcome := outcome, reason := reason)]
    {
      days := days[p.auditIndex := days[p.auditIndex].(outcome := outcome, reason := reason)];
    }

    /** Highest high and lowest low of bars lo..k. */
    method RangeExtremes(lo: nat, k: nat) returns (high: real, low: real)
      requires lo < k <= |inp.bars|
      ensures high == HighestHigh(inp.bars, lo, k) && low == LowestLow(inp.bars, lo, k)
    {
      high, low := inp.bars[lo].h, inp.bars[lo].l;
      for j := lo + 1 to k
        invariant high == HighestHigh(inp.bars, lo, j) && low == LowestLow(inp.bars, lo, j)
      {
        high, low := Max(high, inp.bars[j].h), Min(low, inp.bars[j].l);
      }
    }

    /** Place the orders of `day`, known bars being the first k. */
    method PlaceOrders(day: int, k: nat, daily: seq<TradingDay>)
      requires inp.setup.sch.tf > 0 && 0 <= inp.setup.gates.widthATRDays && k <= |inp.bars|
      requires inp.setup.gates.UsesDailyInputs() ==> daily == AllDays(inp.setup.sch, inp.bars)
      requires pending.Some? ==> pending.value.auditIndex < |days|
      modifies this`days, this`pending
      ensures State() == PlaceStep(inp, old(State()), day, k)
    {
      hide ApplyGates, AllDays, HighestHigh, LowestLow, CloseTrade;
      if pending.Some? {
        FinishDay(pending.value, Expired, NoReason);
        pending := None;
      }
      var bars := inp.bars;
      var audit := BaseRow(inp, day, k);
      var lo := SearchTime(bars, k, inp.setup.sch.StartOf(day));
      if audit.rangeBars == 0 {
        days := days + [audit.(reason := EmptyRange)];
        return;
      } else if audit.rangeBars < RequiredBars(audit.expectedBars) {
        days := days + [audit.(reason := InsufficientCoverage)];
        return;
      } else if bars[k - 1].t != audit.rangeEndT - inp.setup.sch.tf {
        days := days + [audit.(reason := MissingFinalSlot)];
        return;
      }
      var high, low := RangeExtremes(lo, k);
      if !(high > low) {
        days := days + [audit.(reason := NonpositiveWidth)];
        return;
      }
      var spec := inp.setup.sch.spec;
      var orders := Orders(day, inp.setup.sch.ExpiryOf(day), inp.setup.sch.CloseOf(day), high, low,
                           high + spec.bufferPips * inp.setup.pip, low - spec.bufferPips * inp.setup.pip,
                           spec.allowLong, spec.allowShort, false, false);
      assert orders == RawOrders(inp, day, lo, k);
      IdleGates(inp, daily, orders);
      var gated := ApplyGates(inp.setup, daily, orders);
      if gated.Refuse? {
        days := days + [audit.(reason := gated.reason)];
        return;
      }
      orders := gated.orders;
      if ((orders.hasLong || orders.cancelLong) && !(orders.buy > 0.0))
         || ((orders.hasShort || orders.cancelShort) && !(orders.sell > 0.0)) {
        days := days + [audit.(reason := InvalidPrice)];
        return;
      }
      if position.Some? {
        days := days + [audit.(reason := BrokerBlocked)];
        return;
      }
      days := days + [audit.(outcome := StillPending)];
      pending := Some(Pending(|days| - 1, orders));
    }

    method ClosePosition(exit: Exit, i: nat)
      requires position.Some?
      modifies this`trades, this`position
      ensures trades == old(trades) + [CloseTrade(inp.setup, old(position).value, exit, i)]
      ensures position == None
    {
      var pos := position.value;
      trades := trades + [CloseTrade(inp.setup, pos, exit, i)];
      position := None;
    }

    /** Test the pending pair against bar i; the first touch uses the day up. */
    method FillOrders(i: nat)
      requires i < |inp.bars| && pending.Some? && pending.value.auditIndex < |days| && position.None?
      modifies this
      ensures var o := old(pending).value.orders;
              && State() == FillStep(inp, old(State()), FillBar(inp.setup, o, inp.bars[i], i), i)
              && (position.Some? ==> closeT == o.closeT)
    {
      var p := pending.value;
      var o := p.orders;
      var bar := inp.bars[i];
      var longTouched := (o.hasLong || o.cancelLong) && bar.h >= o.buy;
      var shortTouched := (o.hasShort || o.cancelShort) && bar.l <= o.sell;
      if !longTouched && !shortTouched {
        return;
      }
      pending := None;
      var long := longTouched;
      if longTouched && shortTouched {
        long := Abs(bar.o - o.buy) <= Abs(bar.o - o.sell);
      }
      if (long && o.cancelLong) || (!long && o.cancelShort) {
        FinishDay(p, Rejected, OppositeTrigger);
        return;
      }
      var side, base := Short, Min(o.sell, bar.o);
      if long {
        side, base := Long, Max(o.buy, bar.o);
      }
      OpenPosition(p, side, base, i);
    }

    method OpenPosition(p: Pending, side: Side, base: real, i: nat)
      requires i < |inp.bars| && p.auditIndex < |days| && position.None?
      modifies this`days, this`position, this`trades, this`closeT
      ensures var result := OpenAt(inp.setup, p.orders, side, base, i);
              && State() == FillStep(inp, old(State()).(pending := Some(p)), result, i).(pending := old(pending))
              && (position.Some? ==> closeT == p.orders.closeT)
              && !result.Untouched?
    {
      hide FillPrice, StopDistance, StopLevel, TargetLevel, PositionSize, CloseTrade;
      var fill := FillPrice(inp.setup, side, base);
      if !(fill > 0.0) {
        FinishDay(p, Rejected, InvalidFill);
        return;
      }
      var distance := StopDistance(inp.setup, p.orders, side, fill);
      var stop := StopLevel(inp.setup, p.orders, side, fill);
      StopIsDistanceAway(inp.setup, p.orders, side, fill);
      if !(distance > 0.0) || !(Abs(fill - stop) > 0.0) {
        FinishDay(p, Rejected, InvalidStop);
        return;
      }
      var target := TargetLevel(inp.setup, p.orders, side, fill);
      if inp.setup.gates.targetR > 0.0 && !(target > 0.0) {
        FinishDay(p, Rejected, InvalidStop);
        return;
      }
      var size := PositionSize(inp.setup, distance);
      if i < inp.setup.tradeStart {
        FinishDay(p, Rejected, OutsideWindow);
        return;
      }
      var pos := Position(p.orders.day, side, fill, size, stop, target, target == 0.0, i);
      position := Some(pos);
      FinishDay(p, Entered, NoReason);
      days := days[p.auditIndex := days[p.auditIndex].(side := Some(side))];
      closeT := p.orders.closeT;
      if (side == Long && inp.bars[i].l <= pos.sl) || (side == Short && inp.bars[i].h >= pos.sl) {
        ClosePosition(Exit(pos.sl, StopLoss), i);
      }
    }

    /** Due clock close first, then stop at the open, stop touch, target touch. */
    method ExitOnBar(i: nat) returns (exited: bool)
      requires i < |inp.bars| && position.Some? && position.value.entryIndex < i
      requires closeT == inp.setup.sch.CloseOf(position.value.day)
      modifies this`trades, this`position
      ensures State() == ExitStep(inp, old(State()), i)
      ensures exited <==> position.None?
    {
      var pos, bar := position.value, inp.bars[i];
      if bar.t >= closeT {
        ClosePosition(Exit(bar.o, ClockClose), i);
        return true;
      }
      if (pos.side == Long && bar.o <= pos.sl) || (pos.side == Short && bar.o >= pos.sl) {
        ClosePosition(Exit(bar.o, StopLoss), i);
        return true;
      }
      if (pos.side == Long && bar.l <= pos.sl) || (pos.side == Short && bar.h >= pos.sl) {
        ClosePosition(Exit(pos.sl, StopLoss), i);
        return true;
      }
      if !pos.noTarget && ((pos.side == Long && bar.h >= pos.tp) || (pos.side == Short && bar.l <= pos.tp)) {
        ClosePosition(Exit(pos.tp, TargetHit), i);
        return true;
      }
      return false;
    }

    /** Place every day whose range ended before the open of bar i. */
    method PlaceEndedDays(nextDay: int, i: nat, daily: seq<TradingDay>, ghost first: int, ghost liquidate: bool)
      returns (next: int)
      requires Runnable(inp) && i <= inp.end
      requires inp.setup.gates.UsesDailyInputs() ==> daily == AllDays(inp.setup.sch, inp.bars)
      requires nextDay == DayAfter(inp.setup.sch,
                                    if i == 0 then inp.bars[0].t else inp.bars[i - 1].t + inp.setup.sch.tf)
      requires Synced(inp, State(), first, nextDay, i, liquidate)
      modifies this`days, this`pending
      ensures Synced(inp, State(), first, next, i, liquidate) && next == DayAfter(inp.setup.sch, inp.bars[i].t)
    {
      hide Runnable, Synced, PlaceStep, ValidSpec, NothingDue;
      TimeSteps(inp, i);
      next := nextDay;
      while inp.setup.sch.EndOf(next) <= inp.bars[i].t
        invariant nextDay <= next <= DayAfter(inp.setup.sch, inp.bars[i].t)
        invariant Synced(inp, State(), first, next, i, liquidate)
        decreases DayAfter(inp.setup.sch, inp.bars[i].t) - next
      {
        PlaceLate(inp, State(), first, next, i, liquidate);
        PlaceOrders(next, i, daily);
        next := next + 1;
      }
    }

    /** Place the day whose range ends with bar i, without waiting for another quote. */
    method PlaceClosingDays(nextDay: int, i: nat, daily: seq<TradingDay>, ghost first: int, ghost liquidate: bool)
      returns (next: int)
      requires Runnable(inp) && i <= inp.end
      requires inp.setup.gates.UsesDailyInputs() ==> daily == AllDays(inp.setup.sch, inp.bars)
      requires nextDay == DayAfter(inp.setup.sch, inp.bars[i].t)
      requires Synced(inp, State(), first, nextDay, i + 1, liquidate) && NothingDue(inp, State(), i)
      modifies this`days, this`pending
      ensures Synced(inp, State(), first, next, i + 1, liquidate)
      ensures next == DayAfter(inp.setup.sch, inp.bars[i].t + inp.setup.sch.tf)
    {
      hide Runnable, Synced, PlaceStep, ValidSpec;
      TimeSteps(inp, i);
      next := nextDay;
      while inp.setup.sch.EndOf(next) <= inp.bars[i].t + inp.setup.sch.tf
        invariant nextDay <= next <= DayAfter(inp.setup.sch, inp.bars[i].t + inp.setup.sch.tf)
        invariant Synced(inp, State(), first, next, i + 1, liquidate) && NothingDue(inp, State(), i)
        decreases DayAfter(inp.setup.sch, inp.bars[i].t + inp.setup.sch.tf) - next
      {
        NothingLive(inp, State(), first, next, i, liquidate);
        PlaceClosing(inp, State(), first, next, i, liquidate);
        PlaceOrders(next, i + 1, daily);
        next := next + 1;
      }
    }

    /** Expire the pending pair or test it against bar i, unless the bar has closed a position. */
    method WorkOrders(i: nat, exited: bool)
      requires i < |inp.bars|
      requires pending.Some? ==> position.None? && !exited && pending.value.auditIndex < |days|
      requires pending.Some? ==> pending.value.orders.closeT == inp.setup.sch.CloseOf(pending.value.orders.day)
      modifies this
      ensures State() == OrdersStep(inp, old(State()), i)
      ensures old(pending).None? ==> closeT == old(closeT)
      ensures old(pending).Some? && position.Some? ==> closeT == inp.setup.sch.CloseOf(position.value.day)
    {
      if pending.Some? {
        var p := pending.value;
        if inp.bars[i].t >= p.orders.expiryT {
          FinishDay(p, Expired, NoReason);
          pending := None;
        } else if !exited && position.None? {
          if FillBar(inp.setup, p.orders, inp.bars[i], i).Opened? {
            FillDay(inp, p.orders, i);
          }
          hide FillBar, CloseTrade;
          FillOrders(i);
        }
      }
    }

    /** Exit and fill phases of bar i: a bar that closes a position opens no other. */
    method WorkBar(i: nat, ghost first: int, ghost next: int, ghost liquidate: bool)
      requires Runnable(inp) && i <= inp.end && Synced(inp, State(), first, next, i, liquidate)
      requires position.Some? ==> closeT == inp.setup.sch.CloseOf(position.value.day)
      modifies this
      ensures Synced(inp, State(), first, next, i + 1, liquidate) && NothingDue(inp, State(), i)
      ensures position.Some? ==> closeT == inp.setup.sch.CloseOf(position.value.day)
    {
      hide Runnable, ValidSpec, Synced, ExitStep, OrdersStep;
      RunnableFacts(inp);
      SyncedLive(inp, State(), first, next, i, liquidate);
      var exited := false;
      ExitKeeps(inp, State(), first, next, i, liquidate);
      if position.Some? {
        exited := ExitOnBar(i);
      } else {
        IdleExit(inp, State(), i);
      }
      if pending.Some? {
        OrdersKeeps(inp, State(), first, next, i, liquidate);
      } else {
        IdleOrders(inp, State(), i);
      }
      WorkOrders(i, exited);
    }

    /** Liquidate the open position at the last close on request; close the audit of live orders. */
    method Finish(liquidate: bool)
      requires 0 <= inp.end < |inp.bars| && (pending.Some? ==> pending.value.auditIndex < |days|)
      modifies this`trades, this`position, this`days
      ensures State() == FinalStep(inp, old(State()), liquidate)
    {
      hide CloseTrade;
      if liquidate && position.Some? {
        ClosePosition(Exit(inp.bars[inp.end].c, EndOfTest), inp.end);
      }
      if pending.Some? {
        FinishDay(pending.value, StillPending, NoReason);
      }
    }

    /** The first day whose range ends after the first bar opens. */
    method FirstRangeDay() returns (day: int)
      requires |inp.bars| > 0 && ValidSpec(inp.setup.sch.spec, false)
      ensures day == DayAfter(inp.setup.sch, inp.bars[0].t)
    {
      day := inp.setup.sch.DayOf(inp.bars[0].t) - 1;
      DayOfSpan(inp.setup.sch, inp.bars[0].t, day + 1);
      while inp.setup.sch.EndOf(day) <= inp.bars[0].t
        invariant day <= DayAfter(inp.setup.sch, inp.bars[0].t)
        decreases DayAfter(inp.setup.sch, inp.bars[0].t) - day
      {
        day := day + 1;
      }
    }

    /** The bar loop: place what has ended, work the bar, place what ends with it. */
    method RunBars(first: int, daily: seq<TradingDay>, ghost liquidate: bool) returns (next: int)
      requires Runnable(inp) && first == DayAfter(inp.setup.sch, inp.bars[0].t)
      requires inp.setup.gates.UsesDailyInputs() ==> daily == AllDays(inp.setup.sch, inp.bars)
      requires Synced(inp, State(), first, first, 0, liquidate) && position.None?
      modifies this
      ensures Synced(inp, State(), first, next, inp.end + 1, liquidate)
      ensures next == DayAfter(inp.setup.sch, inp.bars[inp.end].t + inp.setup.sch.tf)
    {
      hide Runnable, ValidSpec, Synced, NothingDue, DayAfter;
      RunnableFacts(inp);
      next := first;
      for i := 0 to inp.end + 1
        invariant next == DayAfter(inp.setup.sch,
                                    if i == 0 then inp.bars[0].t else inp.bars[i - 1].t + inp.setup.sch.tf)
        invariant Synced(inp, State(), first, next, i, liquidate)
        invariant position.Some? ==> closeT == inp.setup.sch.CloseOf(position.value.day)
      {
        next := PlaceEndedDays(next, i, daily, first, liquidate);
        WorkBar(i, first, next, liquidate);
        next := PlaceClosingDays(next, i, daily, first, liquidate);
      }
    }

    /**
      The whole run. Its audit list, its trades and its open position are those of the
      days with T[0] < range end <= T[end] + timeframe, each evaluated on its own.
    */
    method Run(liquidateAtEnd: bool)
      requires inp.Valid()
      requires days == [] && pending == None && position == None && trades == []
      modifies this
      ensures inp.end < 0 ==> days == [] && trades == [] && position == None
      ensures inp.end >= 0 ==>
                var start, stop := inp.bars[0].t, inp.bars[inp.end].t + inp.setup.sch.tf;
                var first, last := DayAfter(inp.setup.sch, start), DayAfter(inp.setup.sch, stop);
                && first <= last && Book(days, trades, ListOf(position)) == BookOf(inp, first, last, liquidateAtEnd)
                && forall d :: first <= d < last <==> start < inp.setup.sch.EndOf(d) <= stop
      ensures forall row :: row in days ==> row.reason != BrokerBlocked
      ensures InOrder(trades)
    {
      hide Runnable, Synced, BookOf, DayAfter, FinalStep, ValidSpec, InOrder;
      if inp.end < 0 {
        NoTradesInOrder();
        return;
      }
      StartRunnable(inp);
      var daily := [];
      if inp.setup.gates.UsesDailyInputs() {
        daily := BuildTradingDays(inp.setup.sch, inp.bars);
      }
      var first := FirstRangeDay();
      StartSynced(inp, State(), first, liquidateAtEnd);
      var next := RunBars(first, daily, liquidateAtEnd);
      SyncedLive(inp, State(), first, next, inp.end + 1, liquidateAtEnd);
      SyncedFinal(inp, State(), first, next, liquidateAtEnd);
      Finish(liquidateAtEnd);
      NeverBrokerBlocked(inp, first, next, liquidateAtEnd);
      TradesInOrder(inp, first, next, liquidateAtEnd);
      RangeDays(inp.setup.sch, inp.bars[0].t, inp.bars[inp.end].t + inp.setup.sch.tf);
    }
  }

  /** The days whose range ends after one instant and no later than another. */
  lemma RangeDays(s: Schedule, start: int, stop: int)
    ensures forall d :: DayAfter(s, start) <= d < DayAfter(s, stop) <==> start < s.EndOf(d) <= stop
  {
    hide DayAfter;
    forall d
      ensures DayAfter(s, start) <= d < DayAfter(s, stop) <==> start < s.EndOf(d) <= stop
    {
      DayAfterIsFirst(s, start, d);
      DayAfterIsFirst(s, stop, d);
    }
  }

  lemma NoTradesInOrder()
    ensures InOrder([])
  {
  }
}
