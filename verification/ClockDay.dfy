/**
  One range day of the clock range breakout family, evaluated on its own: placement,
  first touch, fill, and exit, each read directly off the bars. This is what the run
  loop of engine/family_clock_range_breakout.go is proved to compute for every day.
*/
module ClockDay {
  import opened Common
  import opened ClockSchedule
  import opened TradingDays

  datatype Reason =
    | NoReason | EmptyRange | InsufficientCoverage | MissingFinalSlot | NonpositiveWidth | InvalidPrice
    | BrokerBlocked | InvalidFill | InvalidStop | OutsideWindow
    | NoDailyATR | RangeTooNarrow | NoPriorDay | NoDirection | OppositeTrigger

  datatype Outcome = Entered | Rejected | Expired | StillPending

  /** The audit record of a range day. */
  datatype Row = Row(day: int, rangeStartT: int, rangeEndT: int, expectedBars: int, rangeBars: int,
                     outcome: Outcome, reason: Reason, side: Option<Side>)

  /** A live pair of stop orders; a cancel flag marks a trigger that only ends the day. */
  datatype Orders = Orders(
    day: int, expiryT: int, closeT: int, rangeHigh: real, rangeLow: real, buy: real, sell: real,
    hasLong: bool, hasShort: bool, cancelLong: bool, cancelShort: bool)

  datatype Position = Position(day: int, side: Side, entry: real, size: real, sl: real, tp: real,
                               noTarget: bool, entryIndex: nat)

  datatype ExitReason = ClockClose | StopLoss | TargetHit | EndOfTest

  datatype Exit = Exit(price: real, reason: ExitReason)

  datatype Trade = Trade(day: int, side: Side, entry: real, exit: real, sl: real, tp: real, size: real,
                         entryIndex: nat, exitIndex: nat, points: real, pnl: real, reason: ExitReason)

  /** The settings of a run: schedule, gates, pip size, risk and costs, first tradable bar. */
  datatype Setup = Setup(sch: Schedule, gates: Gates, pip: real, riskUSD: real,
                         slippage: real, slippageBps: real, feePerUnit: real, tradeStart: int)
  {
    function SlippageAt(price: real): real {
      slippage + Abs(price) * slippageBps / 10000.0
    }
  }

  /** Everything a run reads. Bars after index `end` are never executed. */
  datatype Inputs = Inputs(bars: seq<Bar>, end: int, setup: Setup) {
    /** What validateClockRangeRun admits (finite prices are reals here). */
    ghost predicate Valid() {
      && ValidSeries(bars, setup.sch.tf)
      && setup.sch.Valid()
      && ValidClockRange(setup.sch.spec, setup.gates)
      && setup.pip > 0.0 && setup.riskUSD >= 0.0
      && -1 <= end < |bars|
    }

    /** Bars up to `end` that open before the range end of `day`. */
    function Known(day: int): nat {
      if -1 <= end < |bars| then SearchTime(bars, end + 1, setup.sch.EndOf(day)) else 0
    }
  }

  const MAX_TIMESTAMP := 253_402_300_799_999

  predicate ValidBar(bars: seq<Bar>, tf: int, i: nat)
    requires tf > 0 && i < |bars|
  {
    && 0 <= bars[i].t <= MAX_TIMESTAMP
    && bars[i].t % tf == 0
    && (i > 0 ==> bars[i].t > bars[i - 1].t)
    && bars[i].l <= Min(bars[i].o, bars[i].c) && Max(bars[i].o, bars[i].c) <= bars[i].h
  }

  ghost predicate ValidSeries(bars: seq<Bar>, tf: int) {
    tf > 0 && forall i :: 0 <= i < |bars| ==> ValidBar(bars, tf, i)
  }

  lemma {:induction false} SeriesIncreasingFrom(bars: seq<Bar>, tf: int, i: nat, j: nat)
    requires ValidSeries(bars, tf) && i < j < |bars|
    ensures bars[i].t < bars[j].t
  {
    assert ValidBar(bars, tf, j);
    if i + 1 < j {
      SeriesIncreasingFrom(bars, tf, i, j - 1);
    }
  }

  lemma SeriesIncreasing(bars: seq<Bar>, tf: int)
    requires ValidSeries(bars, tf)
    ensures Increasing(bars)
    ensures forall i :: 0 <= i < |bars| ==> bars[i].t % tf == 0
  {
    forall i, j | 0 <= i < j < |bars| ensures bars[i].t < bars[j].t {
      SeriesIncreasingFrom(bars, tf, i, j);
    }
    forall i | 0 <= i < |bars| ensures bars[i].t % tf == 0 {
      assert ValidBar(bars, tf, i);
    }
  }

  /** The series loop of validateClockRangeRun: the index of the first bar it refuses. */
  method FirstBadBar(bars: seq<Bar>, tf: int) returns (bad: Option<nat>)
    requires tf > 0
    ensures bad.None? <==> ValidSeries(bars, tf)
    ensures bad.Some? ==> bad.value < |bars| && !ValidBar(bars, tf, bad.value) && ValidSeries(bars[..bad.value], tf)
  {
    for i := 0 to |bars|
      invariant forall j :: 0 <= j < i ==> ValidBar(bars, tf, j)
    {
      if bars[i].t < 0 || bars[i].t > MAX_TIMESTAMP || bars[i].t % tf != 0
         || (i > 0 && !(bars[i].t > bars[i - 1].t))
         || !(bars[i].l <= Min(bars[i].o, bars[i].c)) || !(Max(bars[i].o, bars[i].c) <= bars[i].h)
      {
        assert !ValidBar(bars, tf, i);
        forall j | 0 <= j < |bars[..i]| ensures ValidBar(bars[..i], tf, j) {
          assert ValidBar(bars, tf, j);
        }
        return Some(i);
      }
    }
    return None;
  }

  /** Index of the first of the leading k bars that opens at or after x, else k. */
  function SearchTime(bars: seq<Bar>, k: nat, x: int): (i: nat)
    requires k <= |bars|
    ensures i <= k
    ensures forall j :: 0 <= j < i ==> bars[j].t < x
    ensures i < k ==> bars[i].t >= x
  {
    if k == 0 then 0
    else
      var r := SearchTime(bars, k - 1, x);
      if r < k - 1 || bars[k - 1].t >= x then r else k
  }

  // ----- placement

  datatype Placement = Refuse(reason: Reason) | Place(orders: Orders)

  function ExpectedBars(inp: Inputs, day: int): int
    requires inp.setup.sch.tf > 0
  {
    (inp.setup.sch.EndOf(day) - inp.setup.sch.StartOf(day)) / inp.setup.sch.tf
  }

  /** ceil(0.9 * expected) in integers. */
  function RequiredBars(expected: int): int {
    (9 * expected + 9) / 10
  }

  function BaseRow(inp: Inputs, day: int, k: nat): Row
    requires inp.setup.sch.tf > 0 && k <= |inp.bars|
  {
    Row(day, inp.setup.sch.StartOf(day), inp.setup.sch.EndOf(day), ExpectedBars(inp, day),
        k - SearchTime(inp.bars, k, inp.setup.sch.StartOf(day)), Rejected, NoReason, None)
  }

  /** The optional gates: a refusal, or the orders with their sides chosen. */
  function ApplyGates(su: Setup, daily: seq<TradingDay>, orders: Orders): Placement
    requires 0 <= su.gates.widthATRDays
  {
    var g := su.gates;
    if !g.UsesDailyInputs() then Place(orders)
    else
      var prior := PriorIndex(daily, orders.day);
      var atr := if g.widthATRDays > 0 then DailyATR(daily, prior, g.widthATRDays) else None;
      if g.widthATRDays > 0 && (atr.None? || !(atr.value > 0.0)) then Refuse(NoDailyATR)
      else if g.widthATRDays > 0 && orders.rangeHigh - orders.rangeLow < g.widthMinATR * atr.value
      then Refuse(RangeTooNarrow)
      else if !g.priorDayCandle then Place(orders)
      else if prior < 0 then Refuse(NoPriorDay)
      else
        var colour := daily[prior].c - daily[prior].o;
        if colour == 0.0 then Refuse(NoDirection)
        else
          var sided := orders.(hasLong := colour > 0.0, hasShort := colour < 0.0);
          Place(if g.cancelOnOpposite then sided.(cancelLong := colour < 0.0, cancelShort := colour > 0.0) else sided)
  }

  function RawOrders(inp: Inputs, day: int, lo: nat, k: nat): Orders
    requires lo < k <= |inp.bars|
  {
    var high, low := HighestHigh(inp.bars, lo, k), LowestLow(inp.bars, lo, k);
    var spec := inp.setup.sch.spec;
    Orders(day, inp.setup.sch.ExpiryOf(day), inp.setup.sch.CloseOf(day), high, low,
           high + spec.bufferPips * inp.setup.pip, low - spec.bufferPips * inp.setup.pip,
           spec.allowLong, spec.allowShort, false, false)
  }

  predicate PricesOK(o: Orders) {
    && (o.hasLong || o.cancelLong ==> o.buy > 0.0)
    && (o.hasShort || o.cancelShort ==> o.sell > 0.0)
  }

  /** What placing `day` decides from the first k bars, an idle broker given. */
  function PlacementOf(inp: Inputs, day: int, k: nat): Placement
    requires inp.setup.sch.tf > 0 && 0 <= inp.setup.gates.widthATRDays && k <= |inp.bars|
  {
    var lo := SearchTime(inp.bars, k, inp.setup.sch.StartOf(day));
    if k - lo == 0 then Refuse(EmptyRange)
    else if k - lo < RequiredBars(ExpectedBars(inp, day)) then Refuse(InsufficientCoverage)
    else if inp.bars[k - 1].t != inp.setup.sch.EndOf(day) - inp.setup.sch.tf then Refuse(MissingFinalSlot)
    else
      var raw := RawOrders(inp, day, lo, k);
      if !(raw.rangeHigh > raw.rangeLow) then Refuse(NonpositiveWidth)
      else
        match ApplyGates(inp.setup, AllDays(inp.setup.sch, inp.bars), raw)
        case Refuse(reason) => Refuse(reason)
        case Place(orders) => if PricesOK(orders) then Place(orders) else Refuse(InvalidPrice)
  }

  // ----- fills

  datatype Touch = NoTouch | TouchBuy | TouchSell

  /** Which trigger the bar reaches first: nearer to the open, an exact tie is long. */
  function FirstTouch(o: Orders, bar: Bar): Touch {
    var long := (o.hasLong || o.cancelLong) && bar.h >= o.buy;
    var short := (o.hasShort || o.cancelShort) && bar.l <= o.sell;
    if long && short then
      if Abs(bar.o - o.buy) <= Abs(bar.o - o.sell) then TouchBuy else TouchSell
    else if long then TouchBuy
    else if short then TouchSell
    else NoTouch
  }

  datatype FillResult = Untouched | Cancelled(reason: Reason) | Opened(pos: Position)

  function StopDistance(su: Setup, o: Orders, side: Side, fill: real): real {
    if su.gates.stopMode == OppositeRangeEdge
    then Sign(side) * (fill - (if side == Short then o.rangeHigh else o.rangeLow))
    else fill * su.sch.spec.stopPercent / 100.0
  }

  function StopLevel(su: Setup, o: Orders, side: Side, fill: real): real {
    if su.gates.stopMode == OppositeRangeEdge
    then (if side == Short then o.rangeHigh else o.rangeLow)
    else fill - Sign(side) * StopDistance(su, o, side, fill)
  }

  /** Zero when the run has no R target. */
  function TargetLevel(su: Setup, o: Orders, side: Side, fill: real): real {
    if su.gates.targetR > 0.0
    then fill + Sign(side) * su.gates.targetR * StopDistance(su, o, side, fill)
    else 0.0
  }

  /** The single adverse entry slippage. */
  function FillPrice(su: Setup, side: Side, base: real): real {
    base + Sign(side) * su.SlippageAt(base)
  }

  /** Risk over the stated distance; an explicit zero risk gives size zero. */
  function PositionSize(su: Setup, distance: real): real
    requires distance > 0.0
  {
    su.riskUSD / distance
  }

  /** Opening at `base` before slippage, or the reason the fill is refused. */
  function OpenAt(su: Setup, o: Orders, side: Side, base: real, i: nat): FillResult {
    var fill := FillPrice(su, side, base);
    var distance := StopDistance(su, o, side, fill);
    var target := TargetLevel(su, o, side, fill);
    if !(fill > 0.0) then Cancelled(InvalidFill)
    else if !(distance > 0.0) then Cancelled(InvalidStop)
    else if su.gates.targetR > 0.0 && !(target > 0.0) then Cancelled(InvalidStop)
    else if i < su.tradeStart then Cancelled(OutsideWindow)
    else Opened(Position(o.day, side, fill, PositionSize(su, distance), StopLevel(su, o, side, fill),
                         target, target == 0.0, i))
  }

  /** The stop is the stated distance away, on the losing side, in both stop modes. */
  lemma StopIsDistanceAway(su: Setup, o: Orders, side: Side, fill: real)
    ensures Sign(side) * (fill - StopLevel(su, o, side, fill)) == StopDistance(su, o, side, fill)
  {
    var d := StopDistance(su, o, side, fill);
    assert Sign(side) * (Sign(side) * d) == d;
  }

  /** The pair against one bar, bar i. */
  function FillBar(su: Setup, o: Orders, bar: Bar, i: nat): FillResult {
    match FirstTouch(o, bar)
    case NoTouch => Untouched
    case TouchBuy => if o.cancelLong then Cancelled(OppositeTrigger) else OpenAt(su, o, Long, Max(o.buy, bar.o), i)
    case TouchSell => if o.cancelShort then Cancelled(OppositeTrigger) else OpenAt(su, o, Short, Min(o.sell, bar.o), i)
  }

  // ----- exits

  predicate StopTouched(pos: Position, bar: Bar) {
    if pos.side == Long then bar.l <= pos.sl else bar.h >= pos.sl
  }

  /** What closes an open position at a later bar. */
  function ExitBar(sch: Schedule, pos: Position, bar: Bar): Option<Exit> {
    if bar.t >= sch.CloseOf(pos.day) then Some(Exit(bar.o, ClockClose))
    else if (if pos.side == Long then bar.o <= pos.sl else bar.o >= pos.sl) then Some(Exit(bar.o, StopLoss))
    else if StopTouched(pos, bar) then Some(Exit(pos.sl, StopLoss))
    else if !pos.noTarget && (if pos.side == Long then bar.h >= pos.tp else bar.l <= pos.tp)
    then Some(Exit(pos.tp, TargetHit))
    else None
  }

  function CloseTrade(su: Setup, pos: Position, exit: Exit, i: nat): Trade {
    var px := exit.price - Sign(pos.side) * su.SlippageAt(exit.price);
    var points := (px - pos.entry) * Sign(pos.side);
    Trade(pos.day, pos.side, pos.entry, px, pos.sl, pos.tp, pos.size, pos.entryIndex, i,
          points, points * pos.size - su.feePerUnit * pos.size, exit.reason)
  }

  // ----- the whole day

  datatype DayResult = DayResult(row: Row, trade: Option<Trade>, open: Option<Position>)

  /** An open position seen from bar i on. */
  function FromExit(inp: Inputs, row: Row, pos: Position, i: nat, liquidate: bool): DayResult
    requires inp.end < |inp.bars| && 0 <= inp.end
    decreases inp.end + 1 - i
  {
    if i > inp.end then
      if liquidate
      then DayResult(row, Some(CloseTrade(inp.setup, pos, Exit(inp.bars[inp.end].c, EndOfTest), inp.end)), None)
      else DayResult(row, None, Some(pos))
    else match ExitBar(inp.setup.sch, pos, inp.bars[i])
      case Some(exit) => DayResult(row, Some(CloseTrade(inp.setup, pos, exit, i)), None)
      case None => FromExit(inp, row, pos, i + 1, liquidate)
  }

  function EnteredRow(row: Row, side: Side): Row {
    row.(outcome := Entered, reason := NoReason, side := Some(side))
  }

  /** Live orders seen from bar i on; the entry bar itself is held against the stop. */
  function FromOrders(inp: Inputs, row: Row, o: Orders, i: nat, liquidate: bool): DayResult
    requires inp.end < |inp.bars| && 0 <= inp.end
    decreases inp.end + 1 - i
  {
    if i > inp.end then DayResult(row.(outcome := StillPending), None, None)
    else if inp.bars[i].t >= o.expiryT then DayResult(row.(outcome := Expired), None, None)
    else match FillBar(inp.setup, o, inp.bars[i], i)
      case Untouched => FromOrders(inp, row, o, i + 1, liquidate)
      case Cancelled(reason) => DayResult(row.(outcome := Rejected, reason := reason), None, None)
      case Opened(pos) =>
        if StopTouched(pos, inp.bars[i])
        then DayResult(EnteredRow(row, pos.side), Some(CloseTrade(inp.setup, pos, Exit(pos.sl, StopLoss), i)), None)
        else FromExit(inp, EnteredRow(row, pos.side), pos, i + 1, liquidate)
  }

  function Evaluate(inp: Inputs, day: int, liquidate: bool): DayResult
    requires inp.setup.sch.tf > 0 && 0 <= inp.setup.gates.widthATRDays && 0 <= inp.end < |inp.bars|
  {
    var k := inp.Known(day);
    var row := BaseRow(inp, day, k);
    match PlacementOf(inp, day, k)
    case Refuse(reason) => DayResult(row.(reason := reason), None, None)
    case Place(orders) => FromOrders(inp, row, orders, k, liquidate)
  }

  /** A refused day is its audit row and nothing else. */
  lemma EvaluateRefused(inp: Inputs, day: int, k: nat, liquidate: bool)
    requires inp.setup.sch.tf > 0 && 0 <= inp.setup.gates.widthATRDays && 0 <= inp.end < |inp.bars|
    requires inp.Known(day) == k && PlacementOf(inp, day, k).Refuse?
    ensures Evaluate(inp, day, liquidate)
            == DayResult(BaseRow(inp, day, k).(reason := PlacementOf(inp, day, k).reason), None, None)
  {
    hide PlacementOf, BaseRow;
  }

  /** A placed day goes on from its orders. */
  lemma EvaluatePlaced(inp: Inputs, day: int, k: nat, liquidate: bool)
    requires inp.setup.sch.tf > 0 && 0 <= inp.setup.gates.widthATRDays && 0 <= inp.end < |inp.bars|
    requires inp.Known(day) == k && PlacementOf(inp, day, k).Place?
    ensures var o := PlacementOf(inp, day, k).orders;
            && Evaluate(inp, day, liquidate) == FromOrders(inp, BaseRow(inp, day, k), o, k, liquidate)
            && o.day == day && o.expiryT == inp.setup.sch.ExpiryOf(day) && o.closeT == inp.setup.sch.CloseOf(day)
  {
    hide BaseRow;
  }

  /** Following an open position never changes the audit row. */
  lemma {:induction false} FromExitRow(inp: Inputs, row: Row, pos: Position, i: nat, liquidate: bool)
    requires inp.end < |inp.bars| && 0 <= inp.end
    ensures FromExit(inp, row, pos, i, liquidate).row == row
    decreases inp.end + 1 - i
  {
    hide ExitBar, CloseTrade;
    if i <= inp.end {
      FromExitRow(inp, row, pos, i + 1, liquidate);
    }
  }

  /** The first day whose range ends after instant t. */
  function DayAfter(s: Schedule, t: int): int {
    (t + s.spec.utcOffset * MS_PER_MINUTE - s.spec.rangeEnd * MS_PER_MINUTE) / MS_PER_DAY + 1
  }

  lemma DayAfterIsFirst(s: Schedule, t: int, day: int)
    ensures s.EndOf(day) <= t <==> day < DayAfter(s, t)
  {
  }

  /** What a run needs before a day can be evaluated. */
  ghost predicate Runnable(inp: Inputs) {
    inp.Valid() && 0 <= inp.end
  }

  /** The audit rows, trades and still open positions of a stretch of days. */
  datatype Book = Book(rows: seq<Row>, trades: seq<Trade>, open: seq<Position>) {
    function Then(next: Book): Book {
      Book(rows + next.rows, trades + next.trades, open + next.open)
    }
  }

  function ListOf<T>(x: Option<T>): seq<T> {
    if x.Some? then [x.value] else []
  }

  function DayBook(r: DayResult): Book {
    Book([r.row], ListOf(r.trade), ListOf(r.open))
  }

  /** Days a..b evaluated one by one, in order, none looking at another. */
  ghost function BookOf(inp: Inputs, a: int, b: int, liquidate: bool): Book
    requires Runnable(inp) && a <= b
    decreases b - a
  {
    if a == b then Book([], [], [])
    else BookOf(inp, a, b - 1, liquidate).Then(DayBook(Evaluate(inp, b - 1, liquidate)))
  }

  lemma {:induction false} BookSplit(inp: Inputs, a: int, m: int, b: int, liquidate: bool)
    requires Runnable(inp) && a <= m <= b
    ensures BookOf(inp, a, b, liquidate) == BookOf(inp, a, m, liquidate).Then(BookOf(inp, m, b, liquidate))
    decreases b - m
  {
    hide Evaluate, Runnable, DayBook;
    if m < b {
      BookSplit(inp, a, m, b - 1, liquidate);
    }
  }

  /** One audit row per day, consecutive days, each from its own evaluation. */
  lemma {:induction false} BookRows(inp: Inputs, a: int, b: int, liquidate: bool)
    requires Runnable(inp) && a <= b
    ensures |BookOf(inp, a, b, liquidate).rows| == b - a
    ensures forall d :: a <= d < b ==>
              BookOf(inp, a, b, liquidate).rows[d - a] == Evaluate(inp, d, liquidate).row
    decreases b - a
  {
    hide Evaluate, Runnable;
    if a < b {
      BookRows(inp, a, b - 1, liquidate);
    }
  }

  // ----- when a day is placed

  lemma KnownIs(inp: Inputs, day: int, k: nat)
    requires Runnable(inp) && k <= inp.end + 1
    requires k > 0 ==> inp.bars[k - 1].t < inp.setup.sch.EndOf(day)
    requires k <= inp.end ==> inp.bars[k].t >= inp.setup.sch.EndOf(day)
    ensures inp.Known(day) == k
  {
    SeriesIncreasing(inp.bars, inp.setup.sch.tf);
  }

  /**
    A range whose end is only noticed at bar i, because bars are missing before it,
    lacks its final slot: it is always refused.
  */
  lemma LateDayIsRefused(inp: Inputs, day: int, i: nat)
    requires Runnable(inp) && 0 < i <= inp.end
    requires inp.bars[i - 1].t + inp.setup.sch.tf < inp.setup.sch.EndOf(day) <= inp.bars[i].t
    ensures inp.Known(day) == i && PlacementOf(inp, day, i).Refuse?
  {
    KnownIs(inp, day, i);
  }

  /**
    A range that ends with bar i: every earlier day's expiry and close are due by the
    open of bar i, since all of them lie on the bar grid.
  */
  lemma EarlierDaysAreDue(inp: Inputs, d: int, day: int, i: nat)
    requires Runnable(inp) && i <= inp.end && d < day
    requires inp.setup.sch.EndOf(day) <= inp.bars[i].t + inp.setup.sch.tf
    ensures inp.setup.sch.ExpiryOf(d) <= inp.setup.sch.CloseOf(d) <= inp.bars[i].t
  {
    DaysAhead(inp.setup.sch, d, day);
    DayOrder(inp.setup.sch, d);
    OnGrid(inp.setup.sch, d);
    SeriesIncreasing(inp.bars, inp.setup.sch.tf);
    GridStep(inp.setup.sch.CloseOf(d), inp.bars[i].t, inp.setup.sch.tf);
  }
}
