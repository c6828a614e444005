/**
  What a range day did, read off the bars: which bars its orders let pass, where and at what
  price it was filled, how long its position was held and why it was left. Stated for every day's
  own evaluation, which is what a run is proved equal to.
*/
module ClockOutcomes {
  import opened Common
  import opened ClockSchedule
  import opened TradingDays
  import opened ClockDay
  import opened ClockTheorems
  import ClockCausality

  // ----- leaving

  /** The bar trades at the stop, or beyond it. */
  predicate AtStop(side: Side, sl: real, b: Bar) {
    match side
    case Long => b.l <= sl
    case Short => sl <= b.h
  }

  /** The bar trades at the target, or beyond it; zero is no target. */
  predicate AtTarget(side: Side, tp: real, b: Bar) {
    tp > 0.0 &&
    match side
    case Long => tp <= b.h
    case Short => b.l <= tp
  }

  /** From its entry on, no bar before upto stopped the position, reached its target or was due for the clock close. */
  ghost predicate Spared(inp: Inputs, day: int, side: Side, sl: real, tp: real, entry: nat, upto: nat) {
    upto <= |inp.bars| &&
    forall j :: entry <= j < upto ==>
      && !AtStop(side, sl, inp.bars[j])
      && (j > entry ==> !AtTarget(side, tp, inp.bars[j]) && inp.bars[j].t < inp.setup.sch.CloseOf(day))
  }

  /** What slippage takes off a price: a fixed amount and basis points, ten thousand to the whole. */
  function Adverse(su: Setup, price: real): real {
    su.slippage + su.slippageBps * (Abs(price) / 10000.0)
  }

  /** A trade left at a raw price: slippage against it, points by side, one fee per unit. */
  ghost predicate PaidOut(su: Setup, t: Trade, raw: real) {
    && t.exit == (if t.side == Long then raw - Adverse(su, raw) else raw + Adverse(su, raw))
    && t.points == (if t.side == Long then t.exit - t.entry else t.entry - t.exit)
    && t.pnl == (t.points - su.feePerUnit) * t.size
  }

  /** The worse of two prices for one who must sell a long, or buy back a short. */
  function Worse(side: Side, a: real, b: real): real {
    match side
    case Long => Min(a, b)
    case Short => Max(a, b)
  }

  ghost predicate LeftAsStated(inp: Inputs, t: Trade, liquidate: bool) {
    && t.entryIndex <= t.exitIndex <= inp.end < |inp.bars|
    && Spared(inp, t.day, t.side, t.sl, t.tp, t.entryIndex, t.exitIndex)
    && var b, later := inp.bars[t.exitIndex], t.entryIndex < t.exitIndex;
       var closing := b.t >= inp.setup.sch.CloseOf(t.day);
       match t.reason
       case ClockClose => later && closing && PaidOut(inp.setup, t, b.o)
       case StopLoss =>
         && AtStop(t.side, t.sl, b) && (later ==> !closing)
         && PaidOut(inp.setup, t, if later then Worse(t.side, t.sl, b.o) else t.sl)
       case TargetHit =>
         && later && !closing && AtTarget(t.side, t.tp, b) && !AtStop(t.side, t.sl, b)
         && PaidOut(inp.setup, t, t.tp)
       case EndOfTest =>
         && liquidate && t.exitIndex == inp.end && PaidOut(inp.setup, t, b.c)
         && Spared(inp, t.day, t.side, t.sl, t.tp, t.entryIndex, inp.end + 1)
  }

  /** What a day's result shows about the position it opened, as far as leaving it goes. */
  ghost predicate ExitStory(inp: Inputs, r: DayResult, liquidate: bool) {
    && (r.trade.Some? ==> LeftAsStated(inp, r.trade.value, liquidate))
    && (r.open.Some? ==>
          var p := r.open.value;
          !liquidate && 0 <= inp.end && Spared(inp, p.day, p.side, p.sl, p.tp, p.entryIndex, inp.end + 1))
  }

  lemma SlipIs(su: Setup, price: real)
    ensures su.SlippageAt(price) == Adverse(su, price)
  {
  }

  lemma ClosePays(su: Setup, pos: Position, exit: Exit, i: nat)
    ensures var t := CloseTrade(su, pos, exit, i);
            && t.day == pos.day && t.side == pos.side && t.entry == pos.entry && t.sl == pos.sl && t.tp == pos.tp
            && t.size == pos.size && t.entryIndex == pos.entryIndex && t.exitIndex == i && t.reason == exit.reason
            && PaidOut(su, t, exit.price)
  {
    SlipIs(su, exit.price);
    hide Adverse, Setup.SlippageAt;
  }

  /** What a later bar does to a position that is still open when it begins. */
  lemma BarDecides(sch: Schedule, pos: Position, b: Bar)
    requires pos.noTarget <==> pos.tp <= 0.0
    requires b.l <= b.o <= b.h
    ensures var closing := b.t >= sch.CloseOf(pos.day);
            match ExitBar(sch, pos, b)
            case None => !closing && !AtStop(pos.side, pos.sl, b) && !AtTarget(pos.side, pos.tp, b)
            case Some(exit) =>
              match exit.reason
              case ClockClose => closing && exit.price == b.o
              case StopLoss =>
                !closing && AtStop(pos.side, pos.sl, b) && exit.price == Worse(pos.side, pos.sl, b.o)
              case TargetHit =>
                && !closing && !AtStop(pos.side, pos.sl, b) && AtTarget(pos.side, pos.tp, b)
                && exit.price == pos.tp
              case EndOfTest => false
  {
  }

  lemma {:induction false} HeldStory(inp: Inputs, row: Row, pos: Position, i: nat, liquidate: bool)
    requires 0 <= inp.end < |inp.bars| && pos.entryIndex < i <= inp.end + 1
    requires ValidSeries(inp.bars, inp.setup.sch.tf) && (pos.noTarget <==> pos.tp <= 0.0)
    requires Spared(inp, pos.day, pos.side, pos.sl, pos.tp, pos.entryIndex, i)
    ensures ExitStory(inp, FromExit(inp, row, pos, i, liquidate), liquidate)
    decreases inp.end + 1 - i
  {
    hide ExitBar, CloseTrade, AtStop, AtTarget, PaidOut, Worse;
    if i > inp.end {
      ClosePays(inp.setup, pos, Exit(inp.bars[inp.end].c, EndOfTest), inp.end);
    } else {
      assert ValidBar(inp.bars, inp.setup.sch.tf, i);
      BarDecides(inp.setup.sch, pos, inp.bars[i]);
      match ExitBar(inp.setup.sch, pos, inp.bars[i])
      case Some(exit) => ClosePays(inp.setup, pos, exit, i);
      case None => HeldStory(inp, row, pos, i + 1, liquidate);
    }
  }

  lemma OpenedTarget(inp: Inputs, o: Orders, i: nat)
    requires i < |inp.bars| && FillBar(inp.setup, o, inp.bars[i], i).Opened?
    ensures var pos := FillBar(inp.setup, o, inp.bars[i], i).pos;
            pos.entryIndex == i && (pos.noTarget <==> pos.tp <= 0.0)
  {
    hide StopDistance, StopLevel, Setup.SlippageAt;
  }

  lemma {:induction false} OrdersExit(inp: Inputs, row: Row, o: Orders, i: nat, liquidate: bool)
    requires 0 <= inp.end < |inp.bars| && ValidSeries(inp.bars, inp.setup.sch.tf)
    ensures ExitStory(inp, FromOrders(inp, row, o, i, liquidate), liquidate)
    decreases inp.end + 1 - i
  {
    hide CloseTrade, FromExit, PaidOut, Worse;
    if i <= inp.end && inp.bars[i].t < o.expiryT {
      if FillBar(inp.setup, o, inp.bars[i], i).Opened? {
        OpenedTarget(inp, o, i);
      }
      hide FillBar;
      match FillBar(inp.setup, o, inp.bars[i], i)
      case Untouched => OrdersExit(inp, row, o, i + 1, liquidate);
      case Cancelled(_) =>
      case Opened(pos) =>
        if StopTouched(pos, inp.bars[i]) {
          ClosePays(inp.setup, pos, Exit(pos.sl, StopLoss), i);
        } else {
          HeldStory(inp, EnteredRow(row, pos.side), pos, i + 1, liquidate);
        }
    }
  }

  /**
    Every trade of a day is left on the first bar that stops it, reaches its target or is due for
    the clock close, in that bar's order of precedence and at its price; a position still open
    has met none of them.
  */
  lemma ExitsShown(inp: Inputs, day: int, liquidate: bool)
    requires Runnable(inp)
    ensures inp.setup.sch.tf > 0 && 0 <= inp.setup.gates.widthATRDays && 0 <= inp.end < |inp.bars|
    ensures ExitStory(inp, Evaluate(inp, day, liquidate), liquidate)
  {
    hide PlacementOf, FromOrders, ExitStory, ValidSpec;
    var k := inp.Known(day);
    match PlacementOf(inp, day, k)
    case Refuse(_) => NothingLeft(inp, Evaluate(inp, day, liquidate), liquidate);
    case Place(orders) => OrdersExit(inp, BaseRow(inp, day, k), orders, k, liquidate);
  }

  lemma NothingLeft(inp: Inputs, r: DayResult, liquidate: bool)
    requires r.trade.None? && r.open.None?
    ensures ExitStory(inp, r, liquidate)
  {
  }

  // ----- entering

  /** A trigger that still counts, be it for an entry or only to end the day. */
  predicate Watched(o: Orders, side: Side) {
    match side
    case Long => o.hasLong || o.cancelLong
    case Short => o.hasShort || o.cancelShort
  }

  /** The bar trades at a watched trigger, or beyond it. */
  predicate Reaches(o: Orders, side: Side, b: Bar) {
    Watched(o, side) &&
    match side
    case Long => b.h >= o.buy
    case Short => b.l <= o.sell
  }

  /** The bar goes to this side: the only trigger it reaches, or the nearer to its open; a tie is long. */
  predicate GoesTo(o: Orders, side: Side, b: Bar) {
    && Reaches(o, side, b)
    && match side
       case Long => Reaches(o, Short, b) ==> Abs(o.buy - b.o) <= Abs(o.sell - b.o)
       case Short => Reaches(o, Long, b) ==> Abs(o.sell - b.o) < Abs(o.buy - b.o)
  }

  /** Bars lo..hi lie before the expiry and reach neither trigger. */
  ghost predicate Quiet(inp: Inputs, o: Orders, lo: nat, hi: nat) {
    hi <= |inp.bars| &&
    forall j :: lo <= j < hi ==>
      inp.bars[j].t < o.expiryT && !Reaches(o, Long, inp.bars[j]) && !Reaches(o, Short, inp.bars[j])
  }

  /** The price a touched trigger fills at: the worse of trigger and open, slippage against it. */
  function FilledAt(su: Setup, o: Orders, side: Side, b: Bar): real {
    match side
    case Long => Max(o.buy, b.o) + Adverse(su, Max(o.buy, b.o))
    case Short => Min(o.sell, b.o) - Adverse(su, Min(o.sell, b.o))
  }

  /** How far the stop lies from the fill: a percentage of it, or the way to the other edge of the range. */
  function Away(su: Setup, o: Orders, side: Side, fill: real): real {
    match su.gates.stopMode
    case PercentStop => su.sch.spec.stopPercent * (fill / 100.0)
    case OppositeRangeEdge => if side == Long then fill - o.rangeLow else o.rangeHigh - fill
  }

  /** A position of a day's orders, filled on bar e. */
  ghost predicate FilledAsStated(inp: Inputs, o: Orders, k: nat, e: nat, side: Side, entry: real, size: real, sl: real,
                                 tp: real)
  {
    && k <= e <= inp.end < |inp.bars| && inp.setup.tradeStart <= e
    && Quiet(inp, o, k, e) && inp.bars[e].t < o.expiryT && GoesTo(o, side, inp.bars[e])
    && !(if side == Long then o.cancelLong else o.cancelShort)
    && entry == FilledAt(inp.setup, o, side, inp.bars[e]) && LevelsAsStated(inp.setup, o, side, entry, size, sl, tp)
  }

  /** Stop, size and target that go with a fill: the risk is lost at the stop, the target is targetR times as far. */
  ghost predicate LevelsAsStated(su: Setup, o: Orders, side: Side, entry: real, size: real, sl: real, tp: real) {
    var away := Away(su, o, side, entry);
    && entry > 0.0 && away > 0.0 && size * away == su.riskUSD
    && sl == (if side == Long then entry - away else entry + away)
    && (su.gates.targetR > 0.0 ==> tp > 0.0 && tp == TargetAt(su, o, side, entry))
    && (su.gates.targetR <= 0.0 ==> tp == 0.0)
  }

  /** The target of a fill, targetR times as far as the stop on the other side. */
  function TargetAt(su: Setup, o: Orders, side: Side, fill: real): real {
    match side
    case Long => fill + su.gates.targetR * Away(su, o, side, fill)
    case Short => fill - su.gates.targetR * Away(su, o, side, fill)
  }

  /** Why a touched trigger opens nothing. */
  ghost predicate RefusedAsStated(inp: Inputs, o: Orders, e: nat, side: Side, reason: Reason)
    requires e < |inp.bars|
  {
    var fill := FilledAt(inp.setup, o, side, inp.bars[e]);
    var away := Away(inp.setup, o, side, fill);
    var stopOff := away <= 0.0 || (inp.setup.gates.targetR > 0.0 && TargetAt(inp.setup, o, side, fill) <= 0.0);
    var cancels := if side == Long then o.cancelLong else o.cancelShort;
    match reason
    case OppositeTrigger => cancels
    case InvalidFill => !cancels && fill <= 0.0
    case InvalidStop => !cancels && fill > 0.0 && stopOff
    case OutsideWindow => !cancels && fill > 0.0 && !stopOff && e < inp.setup.tradeStart
    case _ => false
  }

  /** What becomes of orders that are live from bar k on. */
  ghost predicate EntryStory(inp: Inputs, o: Orders, k: nat, r: DayResult) {
    && 0 <= inp.end < |inp.bars|
    && match r.row.outcome
       case StillPending => Quiet(inp, o, k, inp.end + 1)
       case Expired => exists e: nat :: k <= e <= inp.end && Quiet(inp, o, k, e) && inp.bars[e].t >= o.expiryT
       case Rejected => exists e: nat, side :: k <= e <= inp.end && Cancels(inp, o, k, e, side, r.row.reason)
       case Entered =>
         && (r.trade.Some? ==>
               var t := r.trade.value;
               && t.day == o.day && r.row.side == Some(t.side)
               && FilledAsStated(inp, o, k, t.entryIndex, t.side, t.entry, t.size, t.sl, t.tp))
         && (r.open.Some? ==>
               var p := r.open.value;
               && p.day == o.day && r.row.side == Some(p.side)
               && FilledAsStated(inp, o, k, p.entryIndex, p.side, p.entry, p.size, p.sl, p.tp))
  }

  ghost predicate Cancels(inp: Inputs, o: Orders, k: nat, e: nat, side: Side, reason: Reason) {
    && e < |inp.bars| && Quiet(inp, o, k, e) && inp.bars[e].t < o.expiryT && GoesTo(o, side, inp.bars[e])
    && RefusedAsStated(inp, o, e, side, reason)
  }

  lemma AwayIs(su: Setup, o: Orders, side: Side, fill: real)
    ensures StopDistance(su, o, side, fill) == Away(su, o, side, fill)
    ensures StopLevel(su, o, side, fill)
            == if side == Long then fill - Away(su, o, side, fill) else fill + Away(su, o, side, fill)
  {
  }

  lemma FillIs(su: Setup, side: Side, base: real)
    ensures FillPrice(su, side, base) == if side == Long then base + Adverse(su, base) else base - Adverse(su, base)
  {
    SlipIs(su, base);
    hide Adverse, Setup.SlippageAt;
  }

  lemma TargetIs(su: Setup, o: Orders, side: Side, fill: real)
    ensures TargetLevel(su, o, side, fill)
            == if su.gates.targetR <= 0.0 then 0.0 else TargetAt(su, o, side, fill)
  {
    AwayIs(su, o, side, fill);
    hide Away, StopDistance;
  }

  lemma SizeIs(su: Setup, distance: real)
    requires distance > 0.0
    ensures PositionSize(su, distance) * distance == su.riskUSD
  {
  }

  /** What opening at a base price gives. */
  lemma OpenIs(inp: Inputs, o: Orders, side: Side, e: nat)
    requires e < |inp.bars| && !(if side == Long then o.cancelLong else o.cancelShort)
    ensures var base := if side == Long then Max(o.buy, inp.bars[e].o) else Min(o.sell, inp.bars[e].o);
            match OpenAt(inp.setup, o, side, base, e)
            case Untouched => false
            case Cancelled(reason) => RefusedAsStated(inp, o, e, side, reason)
            case Opened(pos) =>
              && pos.day == o.day && pos.side == side && pos.entryIndex == e && inp.setup.tradeStart <= e
              && pos.entry == FilledAt(inp.setup, o, side, inp.bars[e])
              && LevelsAsStated(inp.setup, o, side, pos.entry, pos.size, pos.sl, pos.tp)
  {
    var base := if side == Long then Max(o.buy, inp.bars[e].o) else Min(o.sell, inp.bars[e].o);
    FillIs(inp.setup, side, base);
    var fill := FilledAt(inp.setup, o, side, inp.bars[e]);
    hide Adverse, FillPrice, Max, Min;
    AwayIs(inp.setup, o, side, fill);
    TargetIs(inp.setup, o, side, fill);
    hide FilledAt, Away, TargetAt, StopDistance, StopLevel, TargetLevel;
    if Away(inp.setup, o, side, fill) > 0.0 {
      SizeIs(inp.setup, Away(inp.setup, o, side, fill));
    }
    hide PositionSize;
  }

  /** What one bar does to live orders. */
  lemma FillDecides(inp: Inputs, o: Orders, k: nat, e: nat)
    requires k <= e <= inp.end < |inp.bars| && Quiet(inp, o, k, e) && inp.bars[e].t < o.expiryT
    ensures match FillBar(inp.setup, o, inp.bars[e], e)
            case Untouched => Quiet(inp, o, k, e + 1)
            case Cancelled(reason) => exists side :: Cancels(inp, o, k, e, side, reason)
            case Opened(pos) =>
              && pos.day == o.day && pos.entryIndex == e
              && FilledAsStated(inp, o, k, e, pos.side, pos.entry, pos.size, pos.sl, pos.tp)
  {
    TouchIs(o, inp.bars[e]);
    hide FirstTouch, OpenAt, Away, FilledAt, GoesTo, Reaches, Max, Min, LevelsAsStated;
    var touch, result := FirstTouch(o, inp.bars[e]), FillBar(inp.setup, o, inp.bars[e], e);
    if touch == NoTouch {
      assert result == Untouched;
    } else {
      var side := if touch == TouchBuy then Long else Short;
      var cancels := if side == Long then o.cancelLong else o.cancelShort;
      if cancels {
        assert result == Cancelled(OppositeTrigger);
      } else {
        OpenIs(inp, o, side, e);
        hide RefusedAsStated;
      }
      if result.Cancelled? {
        assert Cancels(inp, o, k, e, side, result.reason);
      }
    }
  }

  lemma TouchIs(o: Orders, b: Bar)
    ensures match FirstTouch(o, b)
            case NoTouch => !Reaches(o, Long, b) && !Reaches(o, Short, b)
            case TouchBuy => GoesTo(o, Long, b)
            case TouchSell => GoesTo(o, Short, b)
  {
  }

  /** The same entry seen from the position that a result holds or has closed. */
  lemma {:induction false} HeldEntry(inp: Inputs, row: Row, pos: Position, i: nat, liquidate: bool)
    requires 0 <= inp.end < |inp.bars|
    ensures var r := FromExit(inp, row, pos, i, liquidate);
            && r.row == row
            && (r.open.Some? ==> r.open.value == pos)
            && (r.trade.Some? ==>
                  var t := r.trade.value;
                  && t.day == pos.day && t.side == pos.side && t.entryIndex == pos.entryIndex && t.entry == pos.entry
                  && t.size == pos.size && t.sl == pos.sl && t.tp == pos.tp)
    decreases inp.end + 1 - i
  {
    hide ExitBar, CloseTrade;
    if i > inp.end {
      ClosePays(inp.setup, pos, Exit(inp.bars[inp.end].c, EndOfTest), inp.end);
    } else {
      match ExitBar(inp.setup.sch, pos, inp.bars[i])
      case Some(exit) => ClosePays(inp.setup, pos, exit, i);
      case None => HeldEntry(inp, row, pos, i + 1, liquidate);
    }
  }

  lemma {:induction false} OrdersEntry(inp: Inputs, row: Row, o: Orders, k: nat, i: nat, liquidate: bool)
    requires 0 <= inp.end < |inp.bars| && k <= i <= inp.end + 1 && Quiet(inp, o, k, i)
    ensures EntryStory(inp, o, k, FromOrders(inp, row, o, i, liquidate))
    decreases inp.end + 1 - i
  {
    hide FillBar, CloseTrade, FromExit, FilledAsStated, Cancels, StopTouched, Quiet;
    if i <= inp.end && inp.bars[i].t < o.expiryT {
      FillDecides(inp, o, k, i);
      match FillBar(inp.setup, o, inp.bars[i], i)
      case Untouched => OrdersEntry(inp, row, o, k, i + 1, liquidate);
      case Cancelled(_) =>
      case Opened(pos) =>
        HeldEntry(inp, EnteredRow(row, pos.side), pos, i + 1, liquidate);
        ClosePays(inp.setup, pos, Exit(pos.sl, StopLoss), i);
    }
  }

  /**
    What a placed day shows: pending or expired without a touch, ended by its first touch and why,
    or entered on its first touch, on the side and at the price and levels that bar gives.
  */
  lemma EntriesShown(inp: Inputs, day: int, liquidate: bool)
    requires Runnable(inp)
    ensures inp.setup.sch.tf > 0 && 0 <= inp.setup.gates.widthATRDays && 0 <= inp.end < |inp.bars|
    ensures var k := inp.Known(day);
            PlacementOf(inp, day, k).Place? ==>
              EntryStory(inp, PlacementOf(inp, day, k).orders, k, Evaluate(inp, day, liquidate))
  {
    RunnableParts(inp);
    hide Runnable, PlacementOf, FromOrders, EntryStory, BaseRow;
    var k := inp.Known(day);
    if PlacementOf(inp, day, k).Place? {
      EvaluatePlaced(inp, day, k, liquidate);
      OrdersEntry(inp, BaseRow(inp, day, k), PlacementOf(inp, day, k).orders, k, k, liquidate);
    }
  }

  // ----- placing

  /** What the optional gates ask of the trading days before the range day, and of the width of the range. */
  ghost predicate GatesPass(inp: Inputs, day: int, width: real)
    requires 0 <= inp.setup.gates.widthATRDays
  {
    var g, days := inp.setup.gates, AllDays(inp.setup.sch, inp.bars);
    var prior := PriorIndex(days, day);
    && (g.widthATRDays > 0 ==>
          && prior >= g.widthATRDays && MeanRange(days, prior, g.widthATRDays) > 0.0
          && width >= g.widthMinATR * MeanRange(days, prior, g.widthATRDays))
    && (g.priorDayCandle ==> prior >= 0 && days[prior].c != days[prior].o)
  }

  function MeanRange(days: seq<TradingDay>, i: int, n: int): real
    requires 0 < n <= i < |days|
  {
    TrueRangeSum(days, i - n + 1, i + 1) / n as real
  }

  /** The sides a day may trade: both as declared, or with a coloured prior day only the side of its colour. */
  ghost predicate SidesAsStated(inp: Inputs, o: Orders) {
    var g, days := inp.setup.gates, AllDays(inp.setup.sch, inp.bars);
    var prior := PriorIndex(days, o.day);
    if !g.priorDayCandle then
      && (o.hasLong <==> inp.setup.sch.spec.allowLong) && (o.hasShort <==> inp.setup.sch.spec.allowShort)
      && !o.cancelLong && !o.cancelShort
    else
      && prior >= 0
      && (days[prior].c > days[prior].o ==>
            o.hasLong && !o.hasShort && !o.cancelLong && (o.cancelShort <==> g.cancelOnOpposite))
      && (days[prior].c < days[prior].o ==>
            o.hasShort && !o.hasLong && !o.cancelShort && (o.cancelLong <==> g.cancelOnOpposite))
  }

  ghost predicate TriggersPositive(o: Orders) {
    (Watched(o, Long) ==> o.buy > 0.0) && (Watched(o, Short) ==> o.sell > 0.0)
  }

  /** Whether nine tenths of the slots are there. */
  predicate Covered(present: int, slots: int) {
    10 * present >= 9 * slots
  }

  /** Orders as the range and the setup give them. */
  ghost predicate OrdersAsStated(inp: Inputs, o: Orders, day: int, high: real, low: real) {
    && o.day == day && o.expiryT == inp.setup.sch.ExpiryOf(day) && o.closeT == inp.setup.sch.CloseOf(day)
    && o.rangeHigh == high && o.rangeLow == low
    && o.buy == high + inp.setup.pip * inp.setup.sch.spec.bufferPips
    && o.sell == low - inp.setup.pip * inp.setup.sch.spec.bufferPips
    && SidesAsStated(inp, o)
  }

  /**
    A day is placed exactly when its range is covered, holds its final slot, is open, passes the
    gates and has positive triggers; otherwise the first of these that fails is the reason.
  */
  lemma PlacedExactlyWhen(inp: Inputs, day: int, k: nat)
    requires inp.setup.sch.tf > 0 && 0 <= inp.setup.gates.widthATRDays && k <= |inp.bars|
    ensures var lo, p := SearchTime(inp.bars, k, inp.setup.sch.StartOf(day)), PlacementOf(inp, day, k);
            var covered := Covered(k - lo, ExpectedBars(inp, day));
            if lo == k then p == Refuse(EmptyRange)
            else if !covered then p == Refuse(InsufficientCoverage)
            else if inp.bars[k - 1].t != inp.setup.sch.EndOf(day) - inp.setup.sch.tf then p == Refuse(MissingFinalSlot)
            else
              var high, low := HighestHigh(inp.bars, lo, k), LowestLow(inp.bars, lo, k);
              if high <= low then p == Refuse(NonpositiveWidth)
              else if !GatesPass(inp, day, high - low) then p.Refuse? && GateReason(inp, day, high - low, p.reason)
              else
                && (p.Refuse? ==> p.reason == InvalidPrice
                                  && exists o :: OrdersAsStated(inp, o, day, high, low) && !TriggersPositive(o))
                && (p.Place? ==> OrdersAsStated(inp, p.orders, day, high, low) && TriggersPositive(p.orders))
  {
    hide HighestHigh, LowestLow, AllDays, SearchTime, PriorIndex, TrueRangeSum;
    var lo := SearchTime(inp.bars, k, inp.setup.sch.StartOf(day));
    CoverIs(k - lo, ExpectedBars(inp, day));
    if lo < k {
      var raw := RawOrders(inp, day, lo, k);
      GatesDecide(inp, raw);
      hide ApplyGates, GatesPass, GateReason, RequiredBars, Covered, ExpectedBars;
      if ApplyGates(inp.setup, AllDays(inp.setup.sch, inp.bars), raw).Place? {
        var o := ApplyGates(inp.setup, AllDays(inp.setup.sch, inp.bars), raw).orders;
        assert OrdersAsStated(inp, o, day, raw.rangeHigh, raw.rangeLow);
        assert TriggersPositive(o) <==> PricesOK(o);
      }
    }
  }

  /** The slots of a range are the bars that fill it without a rest. */
  lemma SlotsFillRange(inp: Inputs, day: int)
    requires Runnable(inp)
    ensures inp.setup.sch.tf > 0
    ensures ExpectedBars(inp, day) > 0
    ensures inp.setup.sch.StartOf(day) + ExpectedBars(inp, day) * inp.setup.sch.tf == inp.setup.sch.EndOf(day)
  {
    DayOrder(inp.setup.sch, day);
    OnGrid(inp.setup.sch, day);
    var a, b, tf := inp.setup.sch.StartOf(day), inp.setup.sch.EndOf(day), inp.setup.sch.tf;
    hide Runnable;
    WholeSlots(a, b, tf);
  }

  lemma WholeSlots(a: int, b: int, tf: int)
    requires tf > 0 && a % tf == 0 && b % tf == 0 && a < b
    ensures (b - a) / tf > 0 && a + ((b - a) / tf) * tf == b
  {
    var n := b / tf - a / tf;
    assert b - a == (b / tf) * tf - (a / tf) * tf == n * tf;
    DivUnique(b - a, tf, n);
    MulAway(n, tf);
  }

  lemma CoverIs(present: int, slots: int)
    ensures present < RequiredBars(slots) <==> !Covered(present, slots)
  {
  }

  /** The first gate that fails. */
  ghost predicate GateReason(inp: Inputs, day: int, width: real, reason: Reason)
    requires 0 <= inp.setup.gates.widthATRDays
  {
    var g, days := inp.setup.gates, AllDays(inp.setup.sch, inp.bars);
    var prior := PriorIndex(days, day);
    var known := prior >= g.widthATRDays > 0 && MeanRange(days, prior, g.widthATRDays) > 0.0;
    var wide := g.widthATRDays > 0 ==> known && width >= g.widthMinATR * MeanRange(days, prior, g.widthATRDays);
    match reason
    case NoDailyATR => g.widthATRDays > 0 && !known
    case RangeTooNarrow => known && !wide
    case NoPriorDay => wide && g.priorDayCandle && prior < 0
    case NoDirection => wide && g.priorDayCandle && prior >= 0 && days[prior].c == days[prior].o
    case _ => false
  }

  lemma GatesDecide(inp: Inputs, raw: Orders)
    requires 0 <= inp.setup.gates.widthATRDays
    requires raw.hasLong == inp.setup.sch.spec.allowLong && raw.hasShort == inp.setup.sch.spec.allowShort
    requires !raw.cancelLong && !raw.cancelShort
    ensures var p := ApplyGates(inp.setup, AllDays(inp.setup.sch, inp.bars), raw);
            var width := raw.rangeHigh - raw.rangeLow;
            && (p.Place? <==> GatesPass(inp, raw.day, width))
            && (p.Refuse? ==> GateReason(inp, raw.day, width, p.reason))
            && (p.Place? ==>
                  SidesAsStated(inp, p.orders)
                  && p.orders == raw.(hasLong := p.orders.hasLong, hasShort := p.orders.hasShort,
                                      cancelLong := p.orders.cancelLong, cancelShort := p.orders.cancelShort))
  {
    hide AllDays, PriorIndex, TrueRangeSum;
  }

  /** A day's true range spans its own range and the close before it, the gap included. */
  lemma TrueRangeSpansGap(days: seq<TradingDay>, j: int)
    requires 1 <= j < |days| && days[j].l <= days[j].h
    ensures TrueRange(days, j) == Max(days[j].h, days[j - 1].c) - Min(days[j].l, days[j - 1].c)
  {
  }

  // ----- the audit row

  lemma {:induction false} RowKept(inp: Inputs, row: Row, o: Orders, i: nat, liquidate: bool)
    requires 0 <= inp.end < |inp.bars|
    ensures var r := FromOrders(inp, row, o, i, liquidate).row;
            r == row.(outcome := r.outcome, reason := r.reason, side := r.side)
    decreases inp.end + 1 - i
  {
    hide FillBar, CloseTrade, FromExit, StopTouched;
    if i <= inp.end && inp.bars[i].t < o.expiryT {
      match FillBar(inp.setup, o, inp.bars[i], i)
      case Untouched => RowKept(inp, row, o, i + 1, liquidate);
      case Cancelled(_) =>
      case Opened(pos) => FromExitRow(inp, EnteredRow(row, pos.side), pos, i + 1, liquidate);
    }
  }

  predicate From(lo: nat, j: nat) {
    lo <= j
  }

  /** The indexes lo..k. */
  function Stretch(lo: nat, k: nat): set<nat> {
    set j: nat | j < k && From(lo, j)
  }

  lemma {:induction false} StretchSize(lo: nat, k: nat)
    requires lo <= k
    ensures |Stretch(lo, k)| == k - lo
  {
    if lo < k {
      StretchSize(lo, k - 1);
      assert Stretch(lo, k) == Stretch(lo, k - 1) + {k - 1};
    } else {
      assert Stretch(lo, k) == {};
    }
  }

  /** The audit row of a day names its range, the slots of it, and how many executed bars opened in it. */
  lemma AuditShown(inp: Inputs, day: int, liquidate: bool)
    requires Runnable(inp)
    ensures inp.setup.sch.tf > 0 && 0 <= inp.setup.gates.widthATRDays && 0 <= inp.end < |inp.bars|
    ensures var row, start, end :=
              Evaluate(inp, day, liquidate).row, inp.setup.sch.StartOf(day), inp.setup.sch.EndOf(day);
            && row.day == day && row.rangeStartT == start && row.rangeEndT == end
            && start + row.expectedBars * inp.setup.sch.tf == end
            && row.rangeBars == |set j: nat | j <= inp.end && start <= inp.bars[j].t < end|
  {
    RunnableParts(inp);
    SlotsFillRange(inp, day);
    var k := inp.Known(day);
    var lo := SearchTime(inp.bars, k, inp.setup.sch.StartOf(day));
    BarsInside(inp, day);
    StretchSize(lo, k);
    hide Runnable, PlacementOf, FromOrders, SearchTime, ExpectedBars;
    if PlacementOf(inp, day, k).Place? {
      RowKept(inp, BaseRow(inp, day, k), PlacementOf(inp, day, k).orders, k, liquidate);
    }
  }

  lemma BarsInside(inp: Inputs, day: int)
    requires Runnable(inp)
    ensures var start, end, k := inp.setup.sch.StartOf(day), inp.setup.sch.EndOf(day), inp.Known(day);
            var lo := SearchTime(inp.bars, k, start);
            (set j: nat | j <= inp.end && start <= inp.bars[j].t < end) == Stretch(lo, k)
  {
    var start, end, k := inp.setup.sch.StartOf(day), inp.setup.sch.EndOf(day), inp.Known(day);
    var lo := SearchTime(inp.bars, k, start);
    assert k <= inp.end + 1;
    hide SearchTime, Runnable;
    forall j: nat | j <= inp.end
      ensures start <= inp.bars[j].t < end <==> j < k && lo <= j
    {
      ClockCausality.RangeBarsExact(inp, day, j);
    }
  }

  /** A bar as admission wants it: on the grid of the bar duration, later than the one before, its prices in order. */
  predicate InOrderOnGrid(bars: seq<Bar>, tf: int, i: nat)
    requires tf > 0 && i < |bars|
  {
    && 0 <= bars[i].t <= 253_402_300_799_999 && bars[i].t % tf == 0
    && (i > 0 ==> bars[i - 1].t < bars[i].t)
    && bars[i].l <= bars[i].o && bars[i].o <= bars[i].h && bars[i].l <= bars[i].c && bars[i].c <= bars[i].h
  }

  /** A series is admitted exactly when all its bars are. */
  lemma SeriesExactlyWhen(bars: seq<Bar>, tf: int)
    ensures ValidSeries(bars, tf) <==> tf > 0 && forall i :: 0 <= i < |bars| ==> InOrderOnGrid(bars, tf, i)
  {
    if tf > 0 {
      forall i | 0 <= i < |bars|
        ensures ValidBar(bars, tf, i) <==> InOrderOnGrid(bars, tf, i)
      {
      }
      hide ValidBar, InOrderOnGrid;
    }
  }
}
