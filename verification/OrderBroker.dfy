/**
  The shared order broker (engine/broker.go, engine/broker_deferred_exits.go): queues changed in
  place while they are walked, one position, cash. The decisions of a setup family are its
  inputs; everything between a decision and a closed trade is the broker's.
*/
module OrderBroker {
  import opened Common

  datatype Costs = Costs(fee: real, slippage: real, bps: real, nextOpen: bool) {
    /** slippageAt. */
    function Slip(price: real): real {
      slippage + Abs(price) * bps / 10000.0
    }
  }

  datatype Order = Order(
    side: Side, sl: real, tp: real, size: Option<real>, risk: Option<real>, index: int, limit: Option<real>,
    noSlip: bool, placedAt: int, expireAt: int, expireBars: int,
    stopDistance: Option<real>, targetDistance: Option<real>,
    gapAware: bool, noTarget: bool, noStop: bool,
    openingTarget: bool)  // the source sets this on the position, right after opening it

  /** Where a position was filled: at a bar's open, at its close, or at its limit inside the bar. */
  datatype How = AtOpen | AtClose | AtLimit

  datatype Position = Position(
    ord: Order, entry: real, size: real, sl: real, initialSL: real, tp: real, entryIndex: nat, how: How)

  datatype Reason = StopLoss | TakeProfit | Rule(name: string) | TimeLimit | EndOfTest

  datatype Trade = Trade(pos: Position, exit: real, exitIndex: nat, points: real, pnl: real, reason: Reason)

  datatype PendingExit = PendingExit(entryIndex: nat, index: int, rule: string)

  /**
    What a family may ask for on a bar: a market entry, a limit entry, a captured order, an order
    queued for the next open, a deferred exit, an exit at this close, a tighter stop.
  */
  datatype Intent =
    | Enter(side: Side, stop: real, target: real, risk: real)
    | EnterLimit(side: Side, limit: real, stop: real, target: real, risk: real, expireBars: int)
    | Dispatch(captured: Order)
    | QueueNextOpen(ord: Order)
    | LeaveNextOpen(rule: string)
    | LeaveAtClose
    | TightenStop(price: real)

  // ----- prices

  function FillPrice(c: Costs, o: Order, raw: real): real {
    if o.noSlip then raw else raw + Sign(o.side) * c.Slip(raw)
  }

  function StopOf(c: Costs, o: Order, px: real): real {
    if o.stopDistance.Some? then px - Sign(o.side) * o.stopDistance.value else o.sl
  }

  function TargetOf(c: Costs, o: Order, px: real): real {
    if o.targetDistance.Some? then px + Sign(o.side) * o.targetDistance.value else o.tp
  }

  /** A given size, a size from the risked amount, or one unit. */
  function SizeOf(o: Order, px: real, stop: real): real {
    if o.size.Some? then o.size.value
    else if o.risk.Some? then (if Abs(px - stop) > 0.0 then o.risk.value / Abs(px - stop) else 0.0)
    else 1.0
  }

  /** The position an order opens at a raw price. */
  function Opened(c: Costs, o: Order, raw: real, index: nat, how: How): Position {
    var px := FillPrice(c, o, raw);
    var stop := StopOf(c, o, px);
    Position(o, px, SizeOf(o, px, stop), stop, stop, TargetOf(c, o, px), index, how)
  }

  /** tightenStop: the stop only ever moves toward the price. */
  function Tightened(p: Position, price: real): Position {
    p.(sl := if p.ord.side == Long then Max(p.sl, price) else Min(p.sl, price))
  }

  /** The position with the stop it was opened with. */
  function AsOpened(p: Position): Position {
    p.(sl := p.initialSL)
  }

  /** The trade a position closes into at a raw price. */
  function Closed(c: Costs, p: Position, raw: real, index: nat, reason: Reason): Trade {
    var px := raw - Sign(p.ord.side) * c.Slip(raw);
    var points := (px - p.entry) * Sign(p.ord.side);
    Trade(p, px, index, points, points * p.size - c.fee * p.size, reason)
  }

  predicate Touches(o: Order, limit: real, b: Bar) {
    if o.side == Long then b.l <= limit else b.h >= limit
  }

  /** A limit fills at the open when the bar opens beyond it. */
  function LimitPrice(o: Order, limit: real, b: Bar): real {
    if o.side == Long then (if b.o < limit then b.o else limit) else (if b.o > limit then b.o else limit)
  }

  /**
    How a bar's prices close a position: opening gap through a carried stop, then, where the
    policy asks for it, a target already passed at the open, then stop before target.
  */
  function IntrabarExit(p: Position, b: Bar, i: nat): Option<(real, Reason)> {
    var long := p.ord.side == Long;
    var gapFill := p.ord.gapAware || p.entryIndex < i;
    if !p.ord.noStop && gapFill && (if long then b.o <= p.sl else b.o >= p.sl) then Some((b.o, StopLoss))
    else if p.ord.openingTarget && gapFill && !p.ord.noTarget && (if long then b.o >= p.tp else b.o <= p.tp)
    then Some((p.tp, TakeProfit))
    else if !p.ord.noStop && (if long then b.l <= p.sl else b.h >= p.sl) then Some((p.sl, StopLoss))
    else if !p.ord.noTarget && (if long then b.h >= p.tp else b.l <= p.tp) then Some((p.tp, TakeProfit))
    else None
  }

  predicate ValidBar(b: Bar) {
    b.l <= b.o <= b.h && b.l <= b.c <= b.h
  }

  lemma SlipNonNegative(c: Costs, price: real)
    requires c.slippage >= 0.0 && c.bps >= 0.0
    ensures c.Slip(price) >= 0.0
  {
    ProductNonNegative(Abs(price), c.bps, Abs(price) * c.bps);
  }

  lemma ProductNonNegative(a: real, b: real, product: real)
    requires a >= 0.0 && b >= 0.0 && product == a * b
    ensures product >= 0.0
  {
  }

  /** Slippage always works against the trade: dearer to buy, cheaper to sell, on entry and on exit. */
  lemma SlippageIsAdverse(c: Costs, o: Order, raw: real, p: Position, out: real, i: nat, reason: Reason)
    requires c.slippage >= 0.0 && c.bps >= 0.0
    ensures Sign(o.side) * (FillPrice(c, o, raw) - raw) >= 0.0
    ensures Sign(p.ord.side) * (Closed(c, p, out, i, reason).exit - out) <= 0.0
    ensures var t := Closed(c, p, out, i, reason);
            t.points == if p.ord.side == Long then t.exit - p.entry else p.entry - t.exit
  {
    hide Costs.Slip;
    SlipNonNegative(c, raw);
    SlipNonNegative(c, out);
  }

  /** A position sized by risk loses exactly the risked amount, fees and slippage apart, when left at its stop. */
  lemma RiskIsSized(c: Costs, o: Order, raw: real, i: nat, how: How)
    requires o.size.None? && o.risk.Some?
    ensures var p := Opened(c, o, raw, i, how);
            p.entry != p.sl ==> p.size * Abs(p.entry - p.sl) == o.risk.value
    ensures var p := Opened(c, o, raw, i, how);
            o.stopDistance.Some? ==> Sign(o.side) * (p.entry - p.sl) == o.stopDistance.value
  {
    hide Costs.Slip;
    var p := Opened(c, o, raw, i, how);
    if p.entry != p.sl {
      Quotient(o.risk.value, Abs(p.entry - p.sl));
    }
  }

  lemma Quotient(a: real, d: real)
    requires d != 0.0
    ensures (a / d) * d == a
  {
  }

  /** On a valid bar a touched limit fills inside the bar and never worse than the limit. */
  lemma LimitNeverWorse(o: Order, limit: real, b: Bar)
    requires ValidBar(b) && Touches(o, limit, b)
    ensures b.l <= LimitPrice(o, limit, b) <= b.h
    ensures Sign(o.side) * (limit - LimitPrice(o, limit, b)) >= 0.0
    ensures LimitPrice(o, limit, b) == if o.side == Long then Min(limit, b.o) else Max(limit, b.o)
  {
  }

  /**
    On a valid bar a position leaves exactly when the bar trades at its stop or its target. The
    stop comes first, at its level or, gapped beyond it, at the worse open; only a policy with
    opening targets lets a target passed at the open go before a stop the open has not passed.
  */
  lemma ExitMeaning(p: Position, b: Bar, i: nat)
    requires ValidBar(b)
    ensures var stopped := !p.ord.noStop && (if p.ord.side == Long then b.l <= p.sl else b.h >= p.sl);
            var reached := !p.ord.noTarget && (if p.ord.side == Long then b.h >= p.tp else b.l <= p.tp);
            var gapped := (p.ord.gapAware || p.entryIndex < i) && Sign(p.ord.side) * (p.sl - b.o) >= 0.0;
            var opening := p.ord.openingTarget && (p.ord.gapAware || p.entryIndex < i) && !p.ord.noTarget
                           && Sign(p.ord.side) * (b.o - p.tp) >= 0.0 && (p.ord.noStop || !gapped);
            && (IntrabarExit(p, b, i).Some? <==> stopped || reached)
            && (opening ==> IntrabarExit(p, b, i) == Some((p.tp, TakeProfit)))
            && (stopped && !opening ==> IntrabarExit(p, b, i) == Some((if gapped then b.o else p.sl, StopLoss)))
            && (!stopped && reached ==> IntrabarExit(p, b, i) == Some((p.tp, TakeProfit)))
  {
  }

  // ----- what a position and a trade must be able to show

  /** The first bar whose prices may close the position: its own, unless it was opened at that bar's close. */
  function WatchFrom(p: Position): nat {
    if p.how == AtClose then p.entryIndex + 1 else p.entryIndex
  }

  /** The stop has not moved away from the price since the position was opened. */
  predicate NotLooser(p: Position) {
    if p.ord.side == Long then p.initialSL <= p.sl else p.sl <= p.initialSL
  }

  /**
    How the position came to be: at its signal's close, at the open after it, or at its limit on
    the first touching bar.
  */
  ghost predicate EntryShown(bars: seq<Bar>, c: Costs, p: Position) {
    && p.entryIndex < |bars| && NotLooser(p)
    && var b := bars[p.entryIndex];
       match p.how
       case AtOpen => p.ord.index == p.entryIndex && AsOpened(p) == Opened(c, p.ord, b.o, p.entryIndex, AtOpen)
       case AtClose =>
         && p.ord.index == p.entryIndex && !c.nextOpen
         && AsOpened(p) == Opened(c, p.ord, b.c, p.entryIndex, AtClose)
       case AtLimit =>
         && p.ord.noSlip && p.ord.placedAt < p.entryIndex && p.ord.limit.Some?
         && Touches(p.ord, p.ord.limit.value, b)
         && AsOpened(p) == Opened(c, p.ord, LimitPrice(p.ord, p.ord.limit.value, b), p.entryIndex, AtLimit)
         && LimitWaited(bars, p.ord, p.ord.limit.value, p.entryIndex)
  }

  /** Bars placedAt+1 .. upto-1 neither touched the limit nor ended its life. */
  ghost predicate LimitWaited(bars: seq<Bar>, o: Order, limit: real, upto: nat) {
    upto <= |bars| && forall j :: 0 <= j < upto && o.placedAt < j ==> !Touches(o, limit, bars[j]) && j < o.expireAt
  }

  /** No bar before upto reached the stop the position was opened with, or its target. */
  ghost predicate Survived(bars: seq<Bar>, p: Position, upto: nat) {
    upto <= |bars| && forall j :: WatchFrom(p) <= j < upto ==> IntrabarExit(AsOpened(p), bars[j], j).None?
  }

  ghost predicate ExitShown(bars: seq<Bar>, c: Costs, t: Trade) {
    && t.exitIndex < |bars| && t.pos.entryIndex <= t.exitIndex
    && Survived(bars, t.pos, t.exitIndex)
    && var b := bars[t.exitIndex];
       match t.reason
       case StopLoss => ByPrices(bars, c, t)
       case TakeProfit => ByPrices(bars, c, t)
       case Rule(_) => t == Closed(c, t.pos, b.o, t.exitIndex, t.reason) && t.pos.entryIndex < t.exitIndex
       case TimeLimit => t == Closed(c, t.pos, b.c, t.exitIndex, t.reason) && Survived(bars, t.pos, t.exitIndex + 1)
       case EndOfTest =>
         && t == Closed(c, t.pos, b.c, t.exitIndex, t.reason)
         && t.exitIndex == |bars| - 1 && Survived(bars, t.pos, |bars|)
  }

  ghost predicate ByPrices(bars: seq<Bar>, c: Costs, t: Trade)
    requires t.exitIndex < |bars|
  {
    var hit := IntrabarExit(t.pos, bars[t.exitIndex], t.exitIndex);
    && WatchFrom(t.pos) <= t.exitIndex
    && hit.Some? && hit.value.1 == t.reason && t == Closed(c, t.pos, hit.value.0, t.exitIndex, t.reason)
  }

  ghost predicate Shown(bars: seq<Bar>, c: Costs, t: Trade) {
    EntryShown(bars, c, t.pos) && ExitShown(bars, c, t)
  }

  // ----- the broker as one slot

  /** What can be live: a queued market order, a resting limit, or a position that may have been told to leave. */
  datatype Live = Idle | Queued(ord: Order) | Resting(ord: Order) | Holding(pos: Position, leave: Option<string>)

  datatype Ledger = Ledger(live: Live, trades: seq<Trade>)

  function Left(c: Costs, g: Ledger, raw: real, i: nat, reason: Reason): Ledger
    requires g.live.Holding?
  {
    Ledger(Idle, g.trades + [Closed(c, g.live.pos, raw, i, reason)])
  }

  /** A position told to leave goes at the open. */
  function AfterExits(bars: seq<Bar>, c: Costs, g: Ledger, i: nat): Ledger
    requires i < |bars|
  {
    if g.live.Holding? && g.live.leave.Some? then Left(c, g, bars[i].o, i, Rule(g.live.leave.value)) else g
  }

  /** A queued order becomes a position at the open. */
  function AfterQueue(bars: seq<Bar>, c: Costs, g: Ledger, i: nat): Ledger
    requires i < |bars|
  {
    if g.live.Queued? then g.(live := Holding(Opened(c, g.live.ord, bars[i].o, i, AtOpen), None)) else g
  }

  /** A resting limit fills when touched and ends with its last bar. */
  function AfterLimits(bars: seq<Bar>, c: Costs, g: Ledger, i: nat): Ledger
    requires i < |bars|
  {
    if !g.live.Resting? || g.live.ord.limit.None? || i <= g.live.ord.placedAt then g
    else
      var o, limit := g.live.ord, g.live.ord.limit.value;
      if Touches(o, limit, bars[i]) then
        g.(live := Holding(Opened(c, o.(noSlip := true), LimitPrice(o, limit, bars[i]), i, AtLimit), None))
      else if i >= o.expireAt then g.(live := Idle)
      else g
  }

  /** The bar's prices may close the position. */
  function AfterPrices(bars: seq<Bar>, c: Costs, g: Ledger, i: nat): Ledger
    requires i < |bars|
  {
    if !g.live.Holding? then g
    else match IntrabarExit(g.live.pos, bars[i], i)
      case None => g
      case Some((raw, reason)) => Left(c, g, raw, i, reason)
  }

  function Placed(bars: seq<Bar>, c: Costs, i: nat, o: Order): Live
    requires i < |bars|
  {
    if o.limit.Some? then Resting(o.(index := i, placedAt := i, expireAt := i + o.expireBars))
    else if c.nextOpen then Queued(o.(index := i + 1, gapAware := o.gapAware || !o.noStop))
    else Holding(Opened(c, o.(index := i), bars[i].c, i, AtClose), None)
  }

  /** A fresh order of a family. */
  function FamilyOrder(
    side: Side, stop: real, target: real, risk: real, limit: Option<real>, i: nat, bars: int): Order
  {
    Order(side, stop, target, None, Some(risk), i, limit, false, if limit.Some? then i else 0,
          if limit.Some? then i + bars else 0, bars, None, None, false, false, false, false)
  }

  /** What a held position is asked to do. */
  function AfterHeldIntent(bars: seq<Bar>, c: Costs, g: Ledger, i: nat, intent: Intent): Ledger
    requires i < |bars| && g.live.Holding?
  {
    match intent
    case LeaveNextOpen(rule) => if g.live.leave.None? then g.(live := g.live.(leave := Some(rule))) else g
    case LeaveAtClose => Left(c, g, bars[i].c, i, TimeLimit)
    case TightenStop(price) => g.(live := g.live.(pos := Tightened(g.live.pos, price)))
    case _ => g
  }

  /** A decision counts only in its own situation: orders when nothing is live, the others when a position is held. */
  function AfterIntent(bars: seq<Bar>, c: Costs, g: Ledger, i: nat, intent: Intent): Ledger
    requires i < |bars|
  {
    if g.live.Holding? then AfterHeldIntent(bars, c, g, i, intent)
    else if !g.live.Idle? then g
    else match intent
      case Enter(side, stop, target, risk) =>
        g.(live := Placed(bars, c, i, FamilyOrder(side, stop, target, risk, None, i, 5)))
      case EnterLimit(side, limit, stop, target, risk, expireBars) =>
        g.(live := Placed(bars, c, i, FamilyOrder(side, stop, target, risk, Some(limit), i, expireBars)))
      case Dispatch(captured) => g.(live := Placed(bars, c, i, captured))
      case QueueNextOpen(ord) => g.(live := Queued(ord.(index := i + 1)))
      case _ => g
  }

  function AfterIntents(bars: seq<Bar>, c: Costs, g: Ledger, i: nat, intents: seq<Intent>, n: nat): Ledger
    requires i < |bars| && n <= |intents|
  {
    if n == 0 then g else AfterIntent(bars, c, AfterIntents(bars, c, g, i, intents, n - 1), i, intents[n - 1])
  }

  /** Bar i before any decision: leave, fill, fill at a limit, exit. */
  function BarWorked(bars: seq<Bar>, c: Costs, g: Ledger, i: nat): Ledger
    requires i < |bars|
  {
    AfterPrices(bars, c, AfterLimits(bars, c, AfterQueue(bars, c, AfterExits(bars, c, g, i), i), i), i)
  }

  /** The ledger after the first n bars. */
  function LedgerAfter(bars: seq<Bar>, c: Costs, intents: seq<seq<Intent>>, n: nat): Ledger
    requires |intents| == |bars| && n <= |bars|
  {
    if n == 0 then Ledger(Idle, [])
    else
      var i := n - 1;
      AfterIntents(bars, c, BarWorked(bars, c, LedgerAfter(bars, c, intents, i), i), i, intents[i], |intents[i]|)
  }

  /** End of data: an open position may be closed at the last close. */
  function Finished(bars: seq<Bar>, c: Costs, g: Ledger, liquidate: bool): Ledger {
    if liquidate && bars != [] && g.live.Holding? then Left(c, g, bars[|bars| - 1].c, |bars| - 1, EndOfTest) else g
  }

  // ----- cash

  function PnlSum(trades: seq<Trade>): real {
    if trades == [] then 0.0 else PnlSum(trades[..|trades| - 1]) + trades[|trades| - 1].pnl
  }

  function GrossSum(trades: seq<Trade>): real {
    if trades == [] then 0.0
    else GrossSum(trades[..|trades| - 1]) + trades[|trades| - 1].points * trades[|trades| - 1].pos.size
  }

  function SizeSum(trades: seq<Trade>): real {
    if trades == [] then 0.0 else SizeSum(trades[..|trades| - 1]) + trades[|trades| - 1].pos.size
  }

  function OpenFee(c: Costs, p: Option<Position>): real {
    if p.Some? then c.fee * p.value.size else 0.0
  }

  /** The entry fees of closed trades and of the open position come off the summed profits. */
  ghost predicate CashKept(c: Costs, trades: seq<Trade>, p: Option<Position>, realized: real) {
    realized == PnlSum(trades) - c.fee * SizeSum(trades) - OpenFee(c, p)
  }

  /** Everything ever opened: one entry per trade, and the open position. */
  ghost predicate Entered(entered: seq<Position>, trades: seq<Trade>, p: Option<Position>) {
    && |entered| == |trades| + (if p.Some? then 1 else 0)
    && (forall k :: 0 <= k < |trades| ==> entered[k] == AsOpened(trades[k].pos))
    && (p.Some? ==> entered[|entered| - 1] == AsOpened(p.value))
  }

  ghost predicate InTurn(trades: seq<Trade>, p: Option<Position>) {
    && (forall k :: 0 < k < |trades| ==> Follows(trades, k))
    && (p.Some? && trades != [] ==> trades[|trades| - 1].exitIndex <= p.value.entryIndex)
  }

  ghost predicate Follows(trades: seq<Trade>, k: nat)
    requires 0 < k < |trades|
  {
    trades[k - 1].exitIndex <= trades[k].pos.entryIndex
  }

  lemma CashClosed(c: Costs, trades: seq<Trade>, p: Position, t: Trade, realized: real)
    requires CashKept(c, trades, Some(p), realized) && t.pos == p
    ensures CashKept(c, trades + [t], None, realized + t.pnl)
  {
    assert (trades + [t])[..|trades|] == trades;
    Spread(c.fee, SizeSum(trades), p.size);
  }

  lemma Spread(fee: real, a: real, b: real)
    ensures fee * (a + b) == fee * a + fee * b
  {
  }

  lemma ShownPnl(bars: seq<Bar>, c: Costs, t: Trade)
    requires Shown(bars, c, t)
    ensures t.pnl == t.points * t.pos.size - c.fee * t.pos.size
  {
    hide Survived, EntryShown, IntrabarExit, Costs.Slip;
  }

  /** When flat, cash is the gross result less two fees per traded unit. */
  lemma {:induction false} FlatCash(c: Costs, bars: seq<Bar>, trades: seq<Trade>)
    requires forall k :: 0 <= k < |trades| ==> Shown(bars, c, trades[k])
    ensures PnlSum(trades) - c.fee * SizeSum(trades) == GrossSum(trades) - 2.0 * (c.fee * SizeSum(trades))
  {
    hide Shown;
    if trades != [] {
      var front, t := trades[..|trades| - 1], trades[|trades| - 1];
      FlatCash(c, bars, front);
      ShownPnl(bars, c, t);
      Spread(c.fee, SizeSum(front), t.pos.size);
    }
  }

  // ----- the broker

  class Broker {
    const bars: seq<Bar>
    const costs: Costs
    var pendingOrders: seq<Order>
    var limitOrders: seq<Order>
    var pendingExits: seq<PendingExit>
    var position: Option<Position>
    var trades: seq<Trade>
    var realized: real
    ghost var entered: seq<Position>

    constructor (bars: seq<Bar>, costs: Costs)
      ensures this.bars == bars && this.costs == costs
      ensures pendingOrders == [] && limitOrders == [] && pendingExits == []
      ensures position == None && trades == [] && realized == 0.0
      ensures entered == []
    {
      this.bars, this.costs := bars, costs;
      pendingOrders, limitOrders, pendingExits, position, trades, realized := [], [], [], None, [], 0.0;
      entered := [];
    }

    /** Pending orders, limit orders and the position together are at most one. */
    ghost predicate Exclusive()
      reads this
    {
      |pendingOrders| + |limitOrders| + (if position.Some? then 1 else 0) <= 1
    }

    /** At most one deferred exit, and it belongs to the open position. */
    ghost predicate ExitsBelong(next: nat)
      reads this
    {
      && |pendingExits| <= 1
      && (pendingExits != [] ==>
            position.Some? && pendingExits[0].entryIndex == position.value.entryIndex && pendingExits[0].index == next
            && position.value.entryIndex < next)
    }

    /** Everything recorded so far, with `next` the first bar not yet begun. */
    ghost predicate Books(next: nat)
      reads this
    {
      && CashKept(costs, trades, position, realized)
      && InTurn(trades, position)
      && Entered(entered, trades, position)
      && (forall k :: 0 <= k < |trades| ==> Shown(bars, costs, trades[k]) && trades[k].exitIndex < next)
      && (position.Some? ==> EntryShown(bars, costs, position.value) && position.value.entryIndex < next)
    }

    /** Waiting orders: a market order for bar `due`, a limit that has waited through every bar before `waited`. */
    ghost predicate Waiting(due: nat, waited: nat)
      reads this
    {
      && (forall k :: 0 <= k < |pendingOrders| ==> pendingOrders[k].index == due)
      && (forall k :: 0 <= k < |limitOrders| ==> LimitWaits(bars, limitOrders[k], waited))
    }

    /** The invariant between bars: everything up to bar next-1 is done. */
    ghost predicate Valid(next: nat)
      reads this
    {
      && next <= |bars| && Exclusive() && ExitsBelong(next) && Books(next) && Waiting(next, next)
      && (position.Some? ==> Survived(bars, position.value, next))
    }

    /** closePosition, which also drops the position's deferred exits. */
    method ClosePosition(raw: real, index: nat, reason: Reason)
      requires position.Some?
      modifies this
      ensures position == None && pendingOrders == old(pendingOrders) && limitOrders == old(limitOrders)
      ensures var t := Closed(costs, old(position.value), raw, index, reason);
              trades == old(trades) + [t] && realized == old(realized) + t.pnl && entered == old(entered)
      ensures |old(pendingExits)| <= 1
              && (old(pendingExits) != [] ==> old(pendingExits)[0].entryIndex == old(position.value).entryIndex)
              ==> pendingExits == []
      ensures old(pendingExits) == [] ==> pendingExits == []
    {
      var pos := position.value;
      var t := Closed(costs, pos, raw, index, reason);
      realized := realized + t.pnl;
      trades := trades + [t];
      var k := |pendingExits| - 1;
      while k >= 0
        invariant -1 <= k < |pendingExits| <= |old(pendingExits)|
        invariant pendingOrders == old(pendingOrders) && limitOrders == old(limitOrders)
        invariant trades == old(trades) + [t] && realized == old(realized) + t.pnl && entered == old(entered)
        invariant k >= 0 ==> pendingExits == old(pendingExits)[..k + 1] + pendingExits[k + 1..]
        invariant k < 0 && |old(pendingExits)| == 1 && old(pendingExits)[0].entryIndex == pos.entryIndex
                  ==> pendingExits == []
      {
        assert pendingExits[k] == old(pendingExits)[k];
        if pendingExits[k].entryIndex == pos.entryIndex {
          pendingExits := pendingExits[..k] + pendingExits[k + 1..];
        }
        k := k - 1;
      }
      position := None;
    }

    /** openPosition never replaces a position: none is open. */
    method OpenPosition(raw: real, ord: Order, index: nat, how: How)
      requires position.None?
      modifies `position, `realized, `entered
      ensures position == Some(Opened(costs, ord, raw, index, how))
      ensures entered == old(entered) + [position.value]
      ensures realized == old(realized) - OpenFee(costs, position)
    {
      hide Costs.Slip, SizeOf;
      var px := raw;
      if !ord.noSlip {
        px := px + Sign(ord.side) * costs.Slip(raw);
      }
      var stop := if ord.stopDistance.Some? then px - Sign(ord.side) * ord.stopDistance.value else ord.sl;
      var target := if ord.targetDistance.Some? then px + Sign(ord.side) * ord.targetDistance.value else ord.tp;
      var size := SizeOf(ord, px, stop);
      position := Some(Position(ord, px, size, stop, stop, target, index, how));
      entered := entered + [position.value];
      realized := realized - costs.fee * size;
    }

    /** The queues, the position and the trades show this ledger; a told exit is due on bar `due`. */
    ghost predicate Mirrors(g: Ledger, due: int)
      reads this
    {
      && trades == g.trades
      && position == (if g.live.Holding? then Some(g.live.pos) else None)
      && pendingOrders == (if g.live.Queued? then [g.live.ord] else [])
      && limitOrders == (if g.live.Resting? then [g.live.ord] else [])
      && pendingExits == (if g.live.Holding? && g.live.leave.Some?
                          then [PendingExit(g.live.pos.entryIndex, due, g.live.leave.value)] else [])
    }

    /** Inside bar i: limits have waited before `waited`, the position has survived the bars before `watched`. */
    ghost predicate During(i: nat, waited: nat, watched: nat)
      reads this
    {
      && i < |bars| && waited <= |bars| && watched <= |bars| && Exclusive() && Books(i + 1) && Waiting(i, waited)
      && (position.Some? ==> Survived(bars, position.value, watched) && WatchFrom(position.value) <= i)
    }

    /** fillPendingExits: a deferred exit leaves at this bar's open. */
    method FillPendingExits(i: nat, ghost g: Ledger)
      requires i < |bars| && Valid(i) && Mirrors(g, i)
      modifies this
      ensures During(i, i, i) && pendingExits == []
      ensures Mirrors(AfterExits(bars, costs, g, i), i)
    {
      hide CashKept, Survived, EntryShown, InTurn, Entered, Closed;
      var k := |pendingExits| - 1;
      assert During(i, i, i);
      while k >= 0
        invariant k == |pendingExits| - 1 && During(i, i, i)
        invariant if k >= 0 then ExitsBelong(i) && Mirrors(g, i) else Mirrors(AfterExits(bars, costs, g, i), i)
        decreases k
      {
        var pending := pendingExits[k];
        if pending.index > i {
          k := k - 1;
          continue;
        }
        pendingExits := pendingExits[..k] + pendingExits[k + 1..];
        if position.Some? && position.value.entryIndex == pending.entryIndex {
          RuleExitShown(bars, costs, position.value, i, pending.rule);
          CloseShown(costs, trades, position.value, realized, entered, i, bars[i].o, Rule(pending.rule));
          ClosePosition(bars[i].o, i, Rule(pending.rule));
        }
        k := k - 1;
      }
    }

    /** fillPending: a queued market order fills at this bar's open. */
    method FillPending(i: nat, ghost g: Ledger)
      requires During(i, i, i) && pendingExits == [] && Mirrors(g, i)
      modifies this
      ensures During(i, i, i) && pendingExits == [] && pendingOrders == []
      ensures Mirrors(AfterQueue(bars, costs, g, i), i)
    {
      hide CashKept, OpenFee, Survived, EntryShown, InTurn, Entered, Opened, Shown, LimitWaits;
      var k := 0;
      while k < |pendingOrders|
        invariant k == 0 && During(i, i, i) && pendingExits == []
        invariant if pendingOrders != [] then Mirrors(g, i) else Mirrors(AfterQueue(bars, costs, g, i), i)
        decreases |pendingOrders| - k
      {
        var ord := pendingOrders[k];
        if ord.index > i {
          k := k + 1;
          continue;
        }
        pendingOrders := pendingOrders[..k] + pendingOrders[k + 1..];
        OpenShown(costs, trades, realized, entered, i, bars[i].o, ord, AtOpen);
        MarketShown(bars, costs, ord, i);
        OpenPosition(bars[i].o, ord, i, AtOpen);
      }
    }

    /** The position of a limit that has been taken off its list. */
    method OpenAtLimit(i: nat, fill: real, ord: Order)
      requires i < |bars| && Books(i + 1) && position.None?
      requires pendingOrders == [] && limitOrders == [] && pendingExits == []
      requires var p := Opened(costs, ord, fill, i, AtLimit);
               EntryShown(bars, costs, p) && WatchFrom(p) == i && Survived(bars, p, i) && p.entryIndex == i
      modifies `position, `realized, `entered
      ensures During(i, i + 1, i) && position == Some(Opened(costs, ord, fill, i, AtLimit))
    {
      hide CashKept, OpenFee, Survived, EntryShown, InTurn, Entered, Opened, Shown, LimitWaits, LimitPrice, WatchFrom;
      OpenShown(costs, trades, realized, entered, i, fill, ord, AtLimit);
      OpenPosition(fill, ord, i, AtLimit);
    }

    /** fillLimits: a touched limit fills, an untouched one that has run its bars is dropped. */
    method FillLimits(i: nat, ghost g: Ledger)
      requires During(i, i, i) && pendingExits == [] && pendingOrders == [] && Mirrors(g, i)
      modifies this
      ensures During(i, i + 1, i) && pendingExits == [] && pendingOrders == []
      ensures Mirrors(AfterLimits(bars, costs, g, i), i)
    {
      hide CashKept, OpenFee, Survived, EntryShown, InTurn, Entered, Opened, Shown, LimitWaits, LimitPrice, WatchFrom;
      var k := |limitOrders| - 1;
      while k >= 0
        invariant -1 <= k < |limitOrders| <= 1 && pendingExits == [] && pendingOrders == []
        invariant if k >= 0 then During(i, i, i) && Mirrors(g, i)
                  else During(i, i + 1, i) && Mirrors(AfterLimits(bars, costs, g, i), i)
        decreases k
      {
        var ord := limitOrders[k];
        LimitFacts(bars, ord, i);
        if i <= ord.placedAt {
          k := k - 1;
          continue;
        }
        if (ord.side == Long && bars[i].l <= ord.limit.value) || (ord.side == Short && bars[i].h >= ord.limit.value) {
          var gapped := (ord.side == Long && bars[i].o < ord.limit.value)
                        || (ord.side == Short && bars[i].o > ord.limit.value);
          var fill := if gapped then bars[i].o else ord.limit.value;
          limitOrders := limitOrders[..k] + limitOrders[k + 1..];
          LimitShown(bars, costs, ord, i);
          ord := ord.(noSlip := true);
          OpenAtLimit(i, fill, ord);
          k := k - 1;
          continue;
        }
        if i >= ord.expireAt {
          limitOrders := limitOrders[..k] + limitOrders[k + 1..];
        }
        k := k - 1;
      }
    }

    /** The position leaves at the price its stop or its target gives on this bar. */
    method LeaveByPrices(i: nat, raw: real, reason: Reason, ghost g: Ledger)
      requires During(i, i + 1, i) && pendingExits == [] && pendingOrders == [] && Mirrors(g, i) && g.live.Holding?
      requires IntrabarExit(position.value, bars[i], i) == Some((raw, reason))
      requires reason == StopLoss || reason == TakeProfit
      modifies this
      ensures Valid(i + 1) && pendingExits == [] && pendingOrders == []
      ensures Mirrors(AfterPrices(bars, costs, g, i), i + 1)
    {
      hide CashKept, Survived, EntryShown, InTurn, Entered, Shown, LimitWaits, Closed, IntrabarExit;
      PricesShown(bars, costs, position.value, i, raw, reason);
      CloseShown(costs, trades, position.value, realized, entered, i, raw, reason);
      ClosePosition(raw, i, reason);
    }

    /** resolveIntrabarExit: what the bar's prices do to the position. */
    method ResolveIntrabarExit(i: nat, ghost g: Ledger)
      requires During(i, i + 1, i) && pendingExits == [] && pendingOrders == [] && Mirrors(g, i)
      modifies this
      ensures Valid(i + 1) && pendingExits == [] && pendingOrders == []
      ensures Mirrors(AfterPrices(bars, costs, g, i), i + 1)
    {
      hide CashKept, Survived, EntryShown, InTurn, Entered, Shown, LimitWaits, Closed, WatchFrom;
      if position.None? {
        return;
      }
      var pos := position.value;
      var b := bars[i];
      SurvivesBar(bars, costs, pos, i);
      var long := pos.ord.side == Long;
      var gapFill := pos.ord.gapAware || pos.entryIndex < i;
      if !pos.ord.noStop && gapFill && ((long && b.o <= pos.sl) || (!long && b.o >= pos.sl)) {
        LeaveByPrices(i, b.o, StopLoss, g);
        return;
      }
      if pos.ord.openingTarget && gapFill && !pos.ord.noTarget
         && ((long && b.o >= pos.tp) || (!long && b.o <= pos.tp)) {
        LeaveByPrices(i, pos.tp, TakeProfit, g);
        return;
      }
      var hitSL := !pos.ord.noStop && ((long && b.l <= pos.sl) || (!long && b.h >= pos.sl));
      var hitTP := !pos.ord.noTarget && ((long && b.h >= pos.tp) || (!long && b.l <= pos.tp));
      if hitSL {
        LeaveByPrices(i, pos.sl, StopLoss, g);
        return;
      }
      if hitTP {
        LeaveByPrices(i, pos.tp, TakeProfit, g);
      }
    }

    /** queueMarketAtNextOpen. */
    method QueueMarketAtNextOpen(ord: Order, signalIndex: nat)
      modifies `pendingOrders
      ensures var queued := ord.(index := signalIndex + 1, gapAware := ord.gapAware || !ord.noStop);
              pendingOrders == old(pendingOrders) + [queued]
    {
      var queued := ord.(index := signalIndex + 1);
      if !ord.noStop {
        queued := queued.(gapAware := true);
      }
      pendingOrders := pendingOrders + [queued];
    }

    /** The position a market order opens at this close. */
    method OpenAtClose(i: nat, ord: Order)
      requires Valid(i + 1) && position.None? && pendingOrders == [] && limitOrders == [] && pendingExits == []
      requires ord.index == i && !costs.nextOpen
      modifies `position, `realized, `entered
      ensures Valid(i + 1) && position == Some(Opened(costs, ord, bars[i].c, i, AtClose))
    {
      hide CashKept, OpenFee, Survived, EntryShown, InTurn, Entered, Opened, Shown, LimitWaits, WatchFrom;
      OpenShown(costs, trades, realized, entered, i, bars[i].c, ord, AtClose);
      CloseFillShown(bars, costs, ord, i);
      OpenPosition(bars[i].c, ord, i, AtClose);
    }

    /** A market order decided at the close of bar i: queued for the next open, or filled at this close. */
    method PlaceMarket(i: nat, ord: Order, ghost g: Ledger)
      requires Valid(i + 1) && Mirrors(g, i + 1) && g.live.Idle?
      requires ord.limit.None? && ord.index == i
      modifies this
      ensures Valid(i + 1) && Mirrors(g.(live := Placed(bars, costs, i, ord)), i + 1)
    {
      hide CashKept, OpenFee, Survived, EntryShown, InTurn, Entered, Opened, Shown, LimitWaits, WatchFrom;
      if costs.nextOpen {
        QueueMarketAtNextOpen(ord, i);
        return;
      }
      OpenAtClose(i, ord);
    }

    method PlaceLimit(i: nat, ord: Order, ghost g: Ledger)
      requires Valid(i + 1) && Mirrors(g, i + 1) && g.live.Idle?
      requires ord.limit.Some? && ord.index == ord.placedAt == i && ord.expireAt == i + ord.expireBars
      modifies this
      ensures Valid(i + 1) && Mirrors(g.(live := Placed(bars, costs, i, ord)), i + 1)
    {
      hide CashKept, OpenFee, Survived, EntryShown, InTurn, Entered, Shown;
      limitOrders := limitOrders + [ord];
      assert LimitWaited(bars, ord, ord.limit.value, i + 1);
    }

    /** tightenStop, at the close of bar i. */
    method TightenStop(i: nat, price: real, ghost g: Ledger)
      requires Valid(i + 1) && Mirrors(g, i + 1) && g.live.Holding?
      modifies `position
      ensures Valid(i + 1) && Mirrors(g.(live := g.live.(pos := Tightened(g.live.pos, price))), i + 1)
    {
      hide CashKept, Survived, EntryShown, InTurn, Entered, Shown, LimitWaits, WatchFrom;
      var pos := position.value;
      TightenShown(bars, costs, trades, pos, realized, entered, i + 1, price);
      if pos.ord.side == Long {
        if price > pos.sl {
          position := Some(pos.(sl := price));
        }
        return;
      }
      if price < pos.sl {
        position := Some(pos.(sl := price));
      }
    }

    /** A time limit closes the position at the close of bar i. */
    method LeaveAtClose(i: nat, ghost g: Ledger)
      requires i < |bars| && Valid(i + 1) && Mirrors(g, i + 1) && g.live.Holding?
      modifies this
      ensures Valid(i + 1) && Mirrors(Left(costs, g, bars[i].c, i, TimeLimit), i + 1)
    {
      hide CashKept, Survived, EntryShown, InTurn, Entered, Shown, LimitWaits, Closed;
      TimeExitShown(bars, costs, position.value, i);
      CloseShown(costs, trades, position.value, realized, entered, i, bars[i].c, TimeLimit);
      ClosePosition(bars[i].c, i, TimeLimit);
    }

    /** What a family does with an open position. */
    method DecideHeld(i: nat, intent: Intent, ghost g: Ledger)
      requires i < |bars| && Valid(i + 1) && Mirrors(g, i + 1) && g.live.Holding?
      modifies this
      ensures Valid(i + 1) && Mirrors(AfterHeldIntent(bars, costs, g, i, intent), i + 1)
    {
      hide CashKept, OpenFee, Survived, EntryShown, InTurn, Entered, Shown, LimitWaits, Opened;
      match intent {
        case LeaveNextOpen(rule) =>
          if forall k :: 0 <= k < |pendingExits| ==> pendingExits[k].entryIndex != position.value.entryIndex {
            pendingExits := pendingExits + [PendingExit(position.value.entryIndex, i + 1, rule)];
          }
        case LeaveAtClose =>
          LeaveAtClose(i, g);
        case TightenStop(price) =>
          TightenStop(i, price, g);
        case _ =>
      }
    }

    /** enter, enterLimit, dispatchCaptured and the direct queue, behind their guard; the rest for an open position. */
    method Decide(i: nat, intent: Intent, ghost g: Ledger)
      requires i < |bars| && Valid(i + 1) && Mirrors(g, i + 1)
      modifies this
      ensures Valid(i + 1) && Mirrors(AfterIntent(bars, costs, g, i, intent), i + 1)
    {
      hide CashKept, OpenFee, Survived, EntryShown, InTurn, Entered, Shown, LimitWaits, Opened, AfterHeldIntent;
      if position.Some? {
        DecideHeld(i, intent, g);
        return;
      }
      if |pendingOrders| > 0 || |limitOrders| > 0 {
        return;
      }
      match intent {
        case Enter(side, stop, target, risk) =>
          PlaceMarket(i, Order(side, stop, target, None, Some(risk), i, None, false, 0, 0, 5,
                               None, None, false, false, false, false), g);
        case EnterLimit(side, limit, stop, target, risk, expireBars) =>
          PlaceLimit(i, Order(side, stop, target, None, Some(risk), i, Some(limit), false, i, i + expireBars,
                              expireBars, None, None, false, false, false, false), g);
        case Dispatch(captured) =>
          if captured.limit.Some? {
            PlaceLimit(i, captured.(index := i, placedAt := i, expireAt := i + captured.expireBars), g);
          } else {
            PlaceMarket(i, captured.(index := i), g);
          }
        case QueueNextOpen(ord) =>
          pendingOrders := pendingOrders + [ord.(index := i + 1)];
        case _ =>
      }
    }

    /** One bar: deferred exits, queued orders, limits, prices, then the family's decisions. */
    method WorkBar(i: nat, decisions: seq<Intent>, ghost g: Ledger)
      requires i < |bars| && Valid(i) && Mirrors(g, i)
      modifies this
      ensures Valid(i + 1)
      ensures Mirrors(AfterIntents(bars, costs, BarWorked(bars, costs, g, i), i, decisions, |decisions|), i + 1)
    {
      hide Valid, During, Mirrors, AfterExits, AfterQueue, AfterLimits, AfterPrices, AfterIntent;
      ghost var g1 := AfterExits(bars, costs, g, i);
      ghost var g2 := AfterQueue(bars, costs, g1, i);
      ghost var g3 := AfterLimits(bars, costs, g2, i);
      ghost var g4 := BarWorked(bars, costs, g, i);
      FillPendingExits(i, g);
      FillPending(i, g1);
      FillLimits(i, g2);
      ResolveIntrabarExit(i, g3);
      for k := 0 to |decisions|
        invariant Valid(i + 1) && Mirrors(AfterIntents(bars, costs, g4, i, decisions, k), i + 1)
      {
        Decide(i, decisions[k], AfterIntents(bars, costs, g4, i, decisions, k));
      }
    }

    /**
      runRangeWithFinalization over all bars: fills, exits, then the family's decisions; at the
      end an open position may be closed at the last close.
    */
    method Run(intents: seq<seq<Intent>>, liquidateAtEnd: bool)
      requires |intents| == |bars| && Valid(0) && Mirrors(Ledger(Idle, []), 0)
      modifies this
      ensures Mirrors(Finished(bars, costs, LedgerAfter(bars, costs, intents, |bars|), liquidateAtEnd), |bars|)
      ensures Exclusive() && Books(|bars|)
      ensures position.None? ==> realized == GrossSum(trades) - 2.0 * (costs.fee * SizeSum(trades))
    {
      hide CashKept, OpenFee, Survived, EntryShown, InTurn, Entered, Shown, LimitWaits, GrossSum, SizeSum, Closed;
      hide BarWorked, AfterIntents;
      for i := 0 to |bars|
        invariant Valid(i) && Mirrors(LedgerAfter(bars, costs, intents, i), i)
      {
        WorkBar(i, intents[i], LedgerAfter(bars, costs, intents, i));
      }
      if liquidateAtEnd && |bars| > 0 && position.Some? {
        var end := |bars| - 1;
        EndShown(bars, costs, position.value);
        CloseShown(costs, trades, position.value, realized, entered, end, bars[end].c, EndOfTest);
        ClosePosition(bars[end].c, end, EndOfTest);
      }
      if position.None? {
        FlatBooks(costs, bars, trades, realized);
      }
    }
  }

  lemma RuleExitShown(bars: seq<Bar>, c: Costs, p: Position, i: nat, rule: string)
    requires i < |bars| && EntryShown(bars, c, p) && p.entryIndex < i && Survived(bars, p, i)
    ensures Shown(bars, c, Closed(c, p, bars[i].o, i, Rule(rule)))
  {
    hide Survived, EntryShown, IntrabarExit;
  }

  lemma PricesShown(bars: seq<Bar>, c: Costs, p: Position, i: nat, raw: real, reason: Reason)
    requires i < |bars| && EntryShown(bars, c, p) && p.entryIndex <= i
    requires WatchFrom(p) <= i && Survived(bars, p, i)
    requires reason == StopLoss || reason == TakeProfit
    requires IntrabarExit(p, bars[i], i) == Some((raw, reason))
    ensures Shown(bars, c, Closed(c, p, raw, i, reason))
  {
    hide Survived, EntryShown, IntrabarExit;
  }

  lemma EndShown(bars: seq<Bar>, c: Costs, p: Position)
    requires bars != [] && EntryShown(bars, c, p) && Survived(bars, p, |bars|)
    ensures Shown(bars, c, Closed(c, p, bars[|bars| - 1].c, |bars| - 1, EndOfTest))
  {
    hide IntrabarExit;
  }

  /** The books after closing the position. */
  lemma CloseShown(c: Costs, trades: seq<Trade>, p: Position, realized: real, entered: seq<Position>, i: nat, raw: real,
                   reason: Reason)
    requires CashKept(c, trades, Some(p), realized) && InTurn(trades, Some(p)) && Entered(entered, trades, Some(p))
    ensures var t := Closed(c, p, raw, i, reason);
            && t.pos == p && t.exitIndex == i
            && CashKept(c, trades + [t], None, realized + t.pnl) && InTurn(trades + [t], None)
            && Entered(entered, trades + [t], None)
  {
    var t := Closed(c, p, raw, i, reason);
    hide Closed;
    ClosedKeeps(c, p, raw, i, reason);
    CashClosed(c, trades, p, t, realized);
    TurnClosed(trades, p, t);
  }

  /** The position an order opens on bar i, and the cash after its entry fee. */
  lemma OpenShown(c: Costs, trades: seq<Trade>, realized: real, entered: seq<Position>, i: nat, raw: real,
                  ord: Order, how: How)
    requires CashKept(c, trades, None, realized) && InTurn(trades, None) && Entered(entered, trades, None)
    requires trades != [] ==> trades[|trades| - 1].exitIndex <= i
    ensures var p := Opened(c, ord, raw, i, how);
            && CashKept(c, trades, Some(p), realized - OpenFee(c, Some(p))) && InTurn(trades, Some(p))
            && Entered(entered + [p], trades, Some(p))
  {
    hide Opened;
    OpenedAt(c, ord, raw, i, how);
  }

  lemma ClosedKeeps(c: Costs, p: Position, raw: real, i: nat, reason: Reason)
    ensures Closed(c, p, raw, i, reason).pos == p && Closed(c, p, raw, i, reason).exitIndex == i
  {
  }

  lemma OpenedAt(c: Costs, o: Order, raw: real, i: nat, how: How)
    ensures var p := Opened(c, o, raw, i, how); p.entryIndex == i && p.ord == o && AsOpened(p) == p
  {
  }

  lemma MarketShown(bars: seq<Bar>, c: Costs, o: Order, i: nat)
    requires i < |bars| && o.index == i
    ensures var p := Opened(c, o, bars[i].o, i, AtOpen);
            EntryShown(bars, c, p) && WatchFrom(p) == i && Survived(bars, p, i) && p.entryIndex == i
  {
  }

  lemma CloseFillShown(bars: seq<Bar>, c: Costs, o: Order, i: nat)
    requires i < |bars| && o.index == i && !c.nextOpen
    ensures var p := Opened(c, o, bars[i].c, i, AtClose);
            EntryShown(bars, c, p) && Survived(bars, p, i + 1) && p.entryIndex == i
  {
  }

  lemma FlatBooks(c: Costs, bars: seq<Bar>, trades: seq<Trade>, realized: real)
    requires CashKept(c, trades, None, realized) && forall k :: 0 <= k < |trades| ==> Shown(bars, c, trades[k])
    ensures realized == GrossSum(trades) - 2.0 * (c.fee * SizeSum(trades))
  {
    hide Shown;
    FlatCash(c, bars, trades);
  }

  lemma LimitFacts(bars: seq<Bar>, o: Order, i: nat)
    requires i < |bars| && LimitWaits(bars, o, i)
    ensures o.limit.Some? && o.placedAt < i
    ensures !Touches(o, o.limit.value, bars[i]) && i < o.expireAt ==> LimitWaits(bars, o, i + 1)
  {
  }

  lemma LimitShown(bars: seq<Bar>, c: Costs, o: Order, i: nat)
    requires i < |bars| && LimitWaits(bars, o, i) && Touches(o, o.limit.value, bars[i])
    ensures var p := Opened(c, o.(noSlip := true), LimitPrice(o, o.limit.value, bars[i]), i, AtLimit);
            EntryShown(bars, c, p) && WatchFrom(p) == i && Survived(bars, p, i) && p.entryIndex == i
    ensures var open, limit := bars[i].o, o.limit.value;
            var gapped := (o.side == Long && open < limit) || (o.side == Short && open > limit);
            LimitPrice(o, o.limit.value, bars[i]) == if gapped then bars[i].o else o.limit.value
  {
    assert LimitWaited(bars, o.(noSlip := true), o.limit.value, i);
  }

  lemma SurvivesBar(bars: seq<Bar>, c: Costs, p: Position, i: nat)
    requires i < |bars| && Survived(bars, p, i) && EntryShown(bars, c, p)
    ensures IntrabarExit(p, bars[i], i).None? ==> Survived(bars, p, i + 1)
  {
    hide IntrabarExit;
    if IntrabarExit(p, bars[i], i).None? {
      LooserSurvives(p, bars[i], i);
    }
  }

  /** A bar that spares a stop spares a looser one. */
  lemma LooserSurvives(p: Position, b: Bar, i: nat)
    requires NotLooser(p) && IntrabarExit(p, b, i).None?
    ensures IntrabarExit(AsOpened(p), b, i).None?
  {
  }

  /** A tighter stop changes nothing that is on record. */
  lemma TightenShown(bars: seq<Bar>, c: Costs, trades: seq<Trade>, p: Position, realized: real, entered: seq<Position>,
                     upto: nat, price: real)
    requires EntryShown(bars, c, p) && Survived(bars, p, upto)
    requires CashKept(c, trades, Some(p), realized) && InTurn(trades, Some(p)) && Entered(entered, trades, Some(p))
    ensures var q := Tightened(p, price);
            && EntryShown(bars, c, q) && Survived(bars, q, upto) && WatchFrom(q) == WatchFrom(p)
            && CashKept(c, trades, Some(q), realized) && InTurn(trades, Some(q)) && Entered(entered, trades, Some(q))
  {
    assert AsOpened(Tightened(p, price)) == AsOpened(p);
    hide IntrabarExit, Opened, Touches, LimitPrice;
  }

  lemma TimeExitShown(bars: seq<Bar>, c: Costs, p: Position, i: nat)
    requires i < |bars| && EntryShown(bars, c, p) && p.entryIndex <= i && Survived(bars, p, i + 1)
    ensures Shown(bars, c, Closed(c, p, bars[i].c, i, TimeLimit))
  {
    hide EntryShown, IntrabarExit;
  }

  ghost predicate LimitWaits(bars: seq<Bar>, o: Order, upto: nat) {
    o.limit.Some? && o.placedAt < upto && LimitWaited(bars, o, o.limit.value, upto)
  }

  lemma TurnClosed(trades: seq<Trade>, p: Position, t: Trade)
    requires InTurn(trades, Some(p)) && t.pos == p
    ensures InTurn(trades + [t], None)
  {
    var more := trades + [t];
    forall k | 0 < k < |more|
      ensures Follows(more, k)
    {
      if k < |trades| {
        assert Follows(trades, k);
      }
    }
  }
}
