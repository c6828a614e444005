/**
  The life of an order of the shared broker, from the decision that asked for it: a limit rests as
  long as it should, a queued order and a told exit are carried out on the next bar, and every
  position and trade goes back to a decision.
*/
module OrderLife {
  import opened Common
  import opened OrderBroker

  // ----- prices, in full

  /** What slippage takes off a price: a fixed amount and basis points, ten thousand to the whole. */
  function Adverse(c: Costs, price: real): real {
    c.slippage + c.bps * (Abs(price) / 10000.0)
  }

  lemma SlipIs(c: Costs, price: real)
    ensures c.Slip(price) == Adverse(c, price)
  {
  }

  /** Fills pay the slippage unless the order is exempt, exits always pay it; profit is per unit, less one fee. */
  lemma PricesInFull(c: Costs, o: Order, raw: real, p: Position, out: real, i: nat, reason: Reason)
    ensures FillPrice(c, o, raw)
            == if o.noSlip then raw else if o.side == Long then raw + Adverse(c, raw) else raw - Adverse(c, raw)
    ensures var t := Closed(c, p, out, i, reason);
            && t.exit == (if p.ord.side == Long then out - Adverse(c, out) else out + Adverse(c, out))
            && t.pnl == (t.points - c.fee) * p.size
            && t.points == (if p.ord.side == Long then t.exit - p.entry else p.entry - t.exit)
  {
    SlipIs(c, raw);
    SlipIs(c, out);
    hide Adverse, Costs.Slip;
  }

  /** A stated distance is measured from the fill, on its own side; otherwise the stated level stands. */
  lemma LevelsInFull(c: Costs, o: Order, raw: real, i: nat, how: How)
    ensures var p := Opened(c, o, raw, i, how);
            && p.ord == o && p.entryIndex == i && p.how == how && p.entry == FillPrice(c, o, raw) && p.initialSL == p.sl
            && (match o.stopDistance
                case None => p.sl == o.sl
                case Some(d) => d == if o.side == Long then p.entry - p.sl else p.sl - p.entry)
            && (match o.targetDistance
                case None => p.tp == o.tp
                case Some(d) => d == if o.side == Long then p.tp - p.entry else p.entry - p.tp)
            && (o.size.Some? ==> p.size == o.size.value)
            && (o.size.None? && o.risk.None? ==> p.size == 1.0)
            && (o.size.None? && o.risk.Some? && p.entry == p.sl ==> p.size == 0.0)
  {
    hide FillPrice;
  }

  /** A tightened stop is the better of the two. */
  lemma TightenTakesBetter(p: Position, price: real)
    ensures var q := Tightened(p, price);
            && q == p.(sl := q.sl) && (q.sl == p.sl || q.sl == price)
            && (p.ord.side == Long ==> q.sl >= p.sl && q.sl >= price)
            && (p.ord.side == Short ==> q.sl <= p.sl && q.sl <= price)
  {
  }

  // ----- a resting limit

  /** The bar trades at a limit, or through it. */
  predicate Meets(o: Order, b: Bar) {
    o.limit.Some? &&
    match o.side
    case Long => b.l <= o.limit.value
    case Short => o.limit.value <= b.h
  }

  /** The last bar on which a resting limit may fill: its expiry, but never before the bar after its placement. */
  function LastChance(o: Order): int {
    if o.expireAt <= o.placedAt then o.placedAt + 1 else o.expireAt
  }

  /** The ledger after the first i + 1 bars holds this resting limit, placed on bar i. */
  ghost predicate PlacedOn(bars: seq<Bar>, c: Costs, intents: seq<seq<Intent>>, i: nat, o: Order) {
    && |intents| == |bars| && i < |bars| && o.limit.Some? && o.placedAt == i
    && LedgerAfter(bars, c, intents, i + 1).live == Resting(o)
  }

  /** Bars i+1 .. n-1 do not meet the limit. */
  ghost predicate Unmet(bars: seq<Bar>, o: Order, i: nat, n: nat) {
    n <= |bars| && forall j :: i < j < n ==> !Meets(o, bars[j])
  }

  lemma MeetsIs(o: Order, b: Bar)
    requires o.limit.Some?
    ensures Meets(o, b) <==> Touches(o, o.limit.value, b)
  {
  }

  /** What a bar does to a resting limit before any decision. */
  lemma RestingBar(bars: seq<Bar>, c: Costs, o: Order, trades: seq<Trade>, n: nat)
    requires n < |bars| && o.limit.Some? && o.placedAt < n
    ensures var g := BarWorked(bars, c, Ledger(Resting(o), trades), n);
            var price := if o.side == Long then Min(o.limit.value, bars[n].o) else Max(o.limit.value, bars[n].o);
            var p := Opened(c, o.(noSlip := true), price, n, AtLimit);
            if Meets(o, bars[n]) then g == AfterPrices(bars, c, Ledger(Holding(p, None), trades), n)
            else if n < o.expireAt then g == Ledger(Resting(o), trades)
            else g == Ledger(Idle, trades)
  {
    MeetsIs(o, bars[n]);
    hide Opened, IntrabarExit, Touches;
  }

  /** Decisions do nothing to a resting limit. */
  lemma {:induction false} DecisionsWait(
    bars: seq<Bar>, c: Costs, g: Ledger, i: nat, intents: seq<Intent>, n: nat)
    requires i < |bars| && n <= |intents| && (g.live.Resting? || g.live.Queued?)
    ensures AfterIntents(bars, c, g, i, intents, n) == g
  {
    if n > 0 {
      DecisionsWait(bars, c, g, i, intents, n - 1);
    }
  }

  /**
    A limit placed on bar i rests after every bar before its last chance that leaves it unmet. The
    first bar to meet it, up to the last chance, fills it at the limit or a better open; when none
    does, it is gone before that bar's decisions.
  */
  lemma {:induction false} LimitLife(bars: seq<Bar>, c: Costs, intents: seq<seq<Intent>>, i: nat, o: Order, n: nat)
    requires PlacedOn(bars, c, intents, i, o) && i < n <= |bars| && Unmet(bars, o, i, n) && n <= LastChance(o)
    ensures var g := LedgerAfter(bars, c, intents, n);
            && g.live == Resting(o) && g.trades == LedgerAfter(bars, c, intents, i + 1).trades
            && (n < |bars| ==>
                  var worked := BarWorked(bars, c, g, n);
                  var price := if o.side == Long then Min(o.limit.value, bars[n].o)
                               else Max(o.limit.value, bars[n].o);
                  var p := Opened(c, o.(noSlip := true), price, n, AtLimit);
                  && (Meets(o, bars[n]) ==> worked == AfterPrices(bars, c, Ledger(Holding(p, None), g.trades), n))
                  && (!Meets(o, bars[n]) && n == LastChance(o) ==> worked == Ledger(Idle, g.trades))
                  && (!Meets(o, bars[n]) && n < LastChance(o) ==> LedgerAfter(bars, c, intents, n + 1) == g))
    decreases n
  {
    hide BarWorked, AfterPrices, Opened, Min, Max, Meets, LedgerAfter;
    if n > i + 1 {
      LimitLife(bars, c, intents, i, o, n - 1);
    }
    var g := LedgerAfter(bars, c, intents, n);
    if n < |bars| {
      RestingBar(bars, c, o, g.trades, n);
      LedgerStep(bars, c, intents, n);
      if !Meets(o, bars[n]) && n < LastChance(o) {
        DecisionsWait(bars, c, g, n, intents[n], |intents[n]|);
      }
    }
  }

  lemma LedgerStep(bars: seq<Bar>, c: Costs, intents: seq<seq<Intent>>, n: nat)
    requires |intents| == |bars| && n < |bars|
    ensures LedgerAfter(bars, c, intents, n + 1)
         == AfterIntents(bars, c, BarWorked(bars, c, LedgerAfter(bars, c, intents, n), n), n, intents[n], |intents[n]|)
  {
    hide BarWorked, AfterIntents;
  }

  // ----- queued orders and told exits

  /** A queued order becomes a position at the next open; that bar's own prices may already close it. */
  lemma QueuedFillsNext(bars: seq<Bar>, c: Costs, o: Order, trades: seq<Trade>, n: nat)
    requires n < |bars|
    ensures BarWorked(bars, c, Ledger(Queued(o), trades), n)
         == AfterPrices(bars, c, Ledger(Holding(Opened(c, o, bars[n].o, n, AtOpen), None), trades), n)
  {
    hide Opened, IntrabarExit;
  }

  /** A position told to leave is closed at the next open under its rule, and nothing is left live. */
  lemma ToldToLeaveGoes(bars: seq<Bar>, c: Costs, p: Position, rule: string, trades: seq<Trade>, n: nat)
    requires n < |bars|
    ensures BarWorked(bars, c, Ledger(Holding(p, Some(rule)), trades), n)
         == Ledger(Idle, trades + [Closed(c, p, bars[n].o, n, Rule(rule))])
  {
    hide Closed, IntrabarExit;
  }

  /** The bar trades at the stop or the target that the position has. */
  predicate Barred(p: Position, b: Bar) {
    match p.ord.side
    case Long => (!p.ord.noStop && b.l <= p.sl) || (!p.ord.noTarget && p.tp <= b.h)
    case Short => (!p.ord.noStop && p.sl <= b.h) || (!p.ord.noTarget && b.l <= p.tp)
  }

  /**
    A held position goes through a bar unchanged unless the bar trades at its stop or its target;
    then it is closed.
  */
  lemma HeldThroughBar(bars: seq<Bar>, c: Costs, p: Position, trades: seq<Trade>, n: nat)
    requires n < |bars| && ValidBar(bars[n])
    ensures var g, held := BarWorked(bars, c, Ledger(Holding(p, None), trades), n), Ledger(Holding(p, None), trades);
            if !Barred(p, bars[n]) then g == held
            else
              && g.live == Idle && |g.trades| == |trades| + 1 && g.trades[..|trades|] == trades
              && g.trades[|trades|].pos == p && g.trades[|trades|].exitIndex == n
              && (g.trades[|trades|].reason == StopLoss || g.trades[|trades|].reason == TakeProfit)
  {
    hide Closed;
    ExitMeaning(p, bars[n], n);
    if IntrabarExit(p, bars[n], n).Some? {
      var (raw, reason) := IntrabarExit(p, bars[n], n).value;
      ClosedKeeps(c, p, raw, n, reason);
      ClosedHow(c, p, raw, n, reason);
      ByPricesOnly(p, bars[n], n);
    }
    hide IntrabarExit;
  }

  // ----- where orders come from

  /** The order a decision on bar k asks for. */
  ghost predicate Asks(c: Costs, intent: Intent, k: nat, o: Order) {
    match intent
    case Enter(side, stop, target, risk) =>
      && o.side == side && o.sl == stop && o.tp == target && o.risk == Some(risk) && o.size == None
      && o.limit == None && o.stopDistance == None && o.targetDistance == None
      && !o.noSlip && !o.noStop && !o.noTarget && !o.openingTarget
      && o.index == (if c.nextOpen then k + 1 else k) && (o.gapAware <==> c.nextOpen)
      && o.placedAt == o.expireAt == 0 && o.expireBars == 5
    case EnterLimit(side, limit, stop, target, risk, expireBars) =>
      && o.side == side && o.sl == stop && o.tp == target && o.risk == Some(risk) && o.size == None
      && o.limit == Some(limit) && o.stopDistance == None && o.targetDistance == None
      && !o.noSlip && !o.noStop && !o.noTarget && !o.openingTarget && !o.gapAware
      && o.index == o.placedAt == k && o.expireAt == k + expireBars && o.expireBars == expireBars
    case Dispatch(captured) =>
      if captured.limit.Some? then
        o == captured.(index := k, placedAt := k, expireAt := k + captured.expireBars)
      else if c.nextOpen then o == captured.(index := k + 1, gapAware := captured.gapAware || !captured.noStop)
      else o == captured.(index := k)
    case QueueNextOpen(ord) => o == ord.(index := k + 1)
    case _ => false
  }

  /** Some decision on one of the first n bars asked for the order. */
  ghost predicate Caused(c: Costs, intents: seq<seq<Intent>>, n: nat, o: Order) {
    exists k: nat, j: nat :: k < n && AsksAt(c, intents, k, j, o)
  }

  ghost predicate AsksAt(c: Costs, intents: seq<seq<Intent>>, k: nat, j: nat, o: Order) {
    k < |intents| && j < |intents[k]| && Asks(c, intents[k][j], k, o)
  }

  /** A position carries the order that was asked for; a limit is exempt from slippage when it fills. */
  ghost predicate PositionCaused(c: Costs, intents: seq<seq<Intent>>, n: nat, p: Position) {
    if p.how == AtLimit then exists o :: Caused(c, intents, n, o) && o.limit.Some? && p.ord == o.(noSlip := true)
    else Caused(c, intents, n, p.ord)
  }

  ghost predicate LiveCaused(c: Costs, intents: seq<seq<Intent>>, n: nat, live: Live) {
    match live
    case Idle => true
    case Queued(o) => Caused(c, intents, n, o)
    case Resting(o) => o.limit.Some? && Caused(c, intents, n, o)
    case Holding(p, _) => PositionCaused(c, intents, n, p)
  }

  ghost predicate AllCaused(c: Costs, intents: seq<seq<Intent>>, n: nat, g: Ledger) {
    && LiveCaused(c, intents, n, g.live)
    && forall k :: 0 <= k < |g.trades| ==> PositionCaused(c, intents, n, g.trades[k].pos)
  }

  lemma CausedLater(c: Costs, intents: seq<seq<Intent>>, n: nat, m: nat, o: Order)
    requires Caused(c, intents, n, o) && n <= m
    ensures Caused(c, intents, m, o)
  {
    hide AsksAt;
  }

  lemma PositionLater(c: Costs, intents: seq<seq<Intent>>, n: nat, m: nat, p: Position)
    requires PositionCaused(c, intents, n, p) && n <= m
    ensures PositionCaused(c, intents, m, p)
  {
    hide Caused;
    if p.how == AtLimit {
      var o :| Caused(c, intents, n, o) && o.limit.Some? && p.ord == o.(noSlip := true);
      CausedLater(c, intents, n, m, o);
    } else {
      CausedLater(c, intents, n, m, p.ord);
    }
  }

  lemma AllLater(c: Costs, intents: seq<seq<Intent>>, n: nat, m: nat, g: Ledger)
    requires AllCaused(c, intents, n, g) && n <= m
    ensures AllCaused(c, intents, m, g)
  {
    hide Caused, PositionCaused;
    if g.live.Queued? || g.live.Resting? {
      CausedLater(c, intents, n, m, g.live.ord);
    } else if g.live.Holding? {
      PositionLater(c, intents, n, m, g.live.pos);
    }
    forall k | 0 <= k < |g.trades|
      ensures PositionCaused(c, intents, m, g.trades[k].pos)
    {
      PositionLater(c, intents, n, m, g.trades[k].pos);
    }
  }

  lemma LeftCaused(c: Costs, intents: seq<seq<Intent>>, n: nat, g: Ledger, raw: real, i: nat, reason: Reason)
    requires AllCaused(c, intents, n, g) && g.live.Holding?
    ensures AllCaused(c, intents, n, Left(c, g, raw, i, reason))
  {
    hide PositionCaused;
    ClosedKeeps(c, g.live.pos, raw, i, reason);
  }

  /** The fills and exits of a bar keep every order traced. */
  lemma BarCaused(bars: seq<Bar>, c: Costs, intents: seq<seq<Intent>>, n: nat, g: Ledger, i: nat)
    requires i < |bars| && AllCaused(c, intents, n, g)
    ensures AllCaused(c, intents, n, BarWorked(bars, c, g, i))
  {
    hide Caused, PositionCaused, Opened, IntrabarExit, Touches, LimitPrice, Left;
    var g1 := AfterExits(bars, c, g, i);
    if g.live.Holding? && g.live.leave.Some? {
      LeftCaused(c, intents, n, g, bars[i].o, i, Rule(g.live.leave.value));
    }
    var g2 := AfterQueue(bars, c, g1, i);
    if g1.live.Queued? {
      QueuedCaused(c, intents, n, g1.live.ord, bars[i].o, i);
    }
    var g3 := AfterLimits(bars, c, g2, i);
    if g2.live.Resting? {
      RestingCaused(c, intents, n, g2.live.ord, LimitPrice(g2.live.ord, g2.live.ord.limit.value, bars[i]), i);
    }
    if g3.live.Holding? && IntrabarExit(g3.live.pos, bars[i], i).Some? {
      var (raw, reason) := IntrabarExit(g3.live.pos, bars[i], i).value;
      LeftCaused(c, intents, n, g3, raw, i, reason);
    }
  }

  lemma QueuedCaused(c: Costs, intents: seq<seq<Intent>>, n: nat, o: Order, raw: real, i: nat)
    requires Caused(c, intents, n, o)
    ensures PositionCaused(c, intents, n, Opened(c, o, raw, i, AtOpen))
    ensures PositionCaused(c, intents, n, Opened(c, o, raw, i, AtClose))
  {
    hide Caused, FillPrice;
  }

  lemma RestingCaused(c: Costs, intents: seq<seq<Intent>>, n: nat, o: Order, raw: real, i: nat)
    requires Caused(c, intents, n, o) && o.limit.Some?
    ensures PositionCaused(c, intents, n, Opened(c, o.(noSlip := true), raw, i, AtLimit))
  {
    hide Caused, FillPrice;
  }

  /** A decision that is taken asks for exactly what becomes live, and from an idle ledger every order is taken. */
  lemma DecisionTaken(bars: seq<Bar>, c: Costs, g: Ledger, i: nat, intent: Intent)
    requires i < |bars| && g.live.Idle?
    ensures var live := AfterIntent(bars, c, g, i, intent).live;
            match live
            case Idle => intent.LeaveNextOpen? || intent.LeaveAtClose? || intent.TightenStop?
            case Queued(o) => Asks(c, intent, i, o) && o.index == i + 1
            case Resting(o) => Asks(c, intent, i, o) && o.limit.Some? && o.placedAt == i
            case Holding(p, leave) =>
              && Asks(c, intent, i, p.ord) && p == Opened(c, p.ord, bars[i].c, i, AtClose) && leave == None
              && !c.nextOpen
    ensures AfterIntent(bars, c, g, i, intent).trades == g.trades
  {
    hide FillPrice, StopOf, TargetOf, SizeOf;
  }

  lemma {:induction false} DecisionsCaused(
    bars: seq<Bar>, c: Costs, intents: seq<seq<Intent>>, g: Ledger, i: nat, m: nat)
    requires |intents| == |bars| && i < |bars| && m <= |intents[i]| && AllCaused(c, intents, i + 1, g)
    ensures AllCaused(c, intents, i + 1, AfterIntents(bars, c, g, i, intents[i], m))
  {
    hide AllCaused;
    if m > 0 {
      DecisionsCaused(bars, c, intents, g, i, m - 1);
      DecisionCaused(bars, c, intents, AfterIntents(bars, c, g, i, intents[i], m - 1), i, m - 1);
    }
  }

  lemma DecisionCaused(bars: seq<Bar>, c: Costs, intents: seq<seq<Intent>>, g: Ledger, i: nat, j: nat)
    requires |intents| == |bars| && i < |bars| && j < |intents[i]| && AllCaused(c, intents, i + 1, g)
    ensures AllCaused(c, intents, i + 1, AfterIntent(bars, c, g, i, intents[i][j]))
  {
    hide Opened, Closed, Placed, Asks, FamilyOrder, Left;
    var live := AfterIntent(bars, c, g, i, intents[i][j]).live;
    if g.live.Idle? {
      DecisionTaken(bars, c, g, i, intents[i][j]);
      if !live.Idle? {
        var o := if live.Holding? then live.pos.ord else live.ord;
        assert AsksAt(c, intents, i, j, o);
        if live.Holding? {
          OpenedHow(c, o, bars[i].c, i);
        }
      }
    } else if g.live.Holding? {
      hide Caused;
      LeftCaused(c, intents, i + 1, g, bars[i].c, i, TimeLimit);
      if intents[i][j].TightenStop? {
        TightenTakesBetter(g.live.pos, intents[i][j].price);
      }
    }
  }

  lemma OpenedHow(c: Costs, o: Order, raw: real, i: nat)
    ensures Opened(c, o, raw, i, AtClose).how == AtClose && Opened(c, o, raw, i, AtClose).ord == o
  {
  }

  /** Over every run, the live order or position and every trade carry an order that some earlier decision asked for. */
  lemma {:induction false} EveryOrderCaused(bars: seq<Bar>, c: Costs, intents: seq<seq<Intent>>, n: nat)
    requires |intents| == |bars| && n <= |bars|
    ensures AllCaused(c, intents, n, LedgerAfter(bars, c, intents, n))
  {
    hide AllCaused, BarWorked, AfterIntents;
    if n == 0 {
      NothingCaused(c, intents);
    } else {
      var i := n - 1;
      var g := LedgerAfter(bars, c, intents, i);
      EveryOrderCaused(bars, c, intents, i);
      BarCaused(bars, c, intents, i, g, i);
      AllLater(c, intents, i, n, BarWorked(bars, c, g, i));
      DecisionsCaused(bars, c, intents, BarWorked(bars, c, g, i), i, |intents[i]|);
    }
  }

  lemma NothingCaused(c: Costs, intents: seq<seq<Intent>>)
    ensures AllCaused(c, intents, 0, Ledger(Idle, []))
  {
  }

  // ----- where exits come from

  /** A rule exit was told on the bar before, a time exit on its own bar; prices and the end of data need no telling. */
  ghost predicate ExitAsked(intents: seq<seq<Intent>>, t: Trade) {
    match t.reason
    case Rule(rule) => 0 < t.exitIndex <= |intents| && LeaveNextOpen(rule) in intents[t.exitIndex - 1]
    case TimeLimit => t.exitIndex < |intents| && LeaveAtClose in intents[t.exitIndex]
    case _ => true
  }

  ghost predicate ExitsAsked(intents: seq<seq<Intent>>, trades: seq<Trade>) {
    forall k :: 0 <= k < |trades| ==> ExitAsked(intents, trades[k])
  }

  /** What a position has been told was told on bar i. */
  ghost predicate ToldOn(intents: seq<seq<Intent>>, i: int, live: Live) {
    live.Holding? && live.leave.Some? ==> 0 <= i < |intents| && LeaveNextOpen(live.leave.value) in intents[i]
  }

  lemma BarExits(bars: seq<Bar>, c: Costs, intents: seq<seq<Intent>>, g: Ledger, i: nat)
    requires i < |bars| == |intents| && ExitsAsked(intents, g.trades) && ToldOn(intents, i - 1, g.live)
    ensures var w := BarWorked(bars, c, g, i);
            ExitsAsked(intents, w.trades) && (w.live.Holding? ==> w.live.leave == None)
  {
    hide Opened, Touches, LimitPrice, Closed;
    if g.live.Holding? && g.live.leave.Some? {
      ClosedHow(c, g.live.pos, bars[i].o, i, Rule(g.live.leave.value));
    }
    var g3 := AfterLimits(bars, c, AfterQueue(bars, c, AfterExits(bars, c, g, i), i), i);
    if g3.live.Holding? && IntrabarExit(g3.live.pos, bars[i], i).Some? {
      var (raw, reason) := IntrabarExit(g3.live.pos, bars[i], i).value;
      ClosedHow(c, g3.live.pos, raw, i, reason);
      ByPricesOnly(g3.live.pos, bars[i], i);
    }
    hide IntrabarExit;
  }

  lemma ClosedHow(c: Costs, p: Position, raw: real, i: nat, reason: Reason)
    ensures Closed(c, p, raw, i, reason).reason == reason && Closed(c, p, raw, i, reason).exitIndex == i
  {
  }

  lemma ByPricesOnly(p: Position, b: Bar, i: nat)
    ensures match IntrabarExit(p, b, i)
            case None => true
            case Some((_, reason)) => reason == StopLoss || reason == TakeProfit
  {
  }

  lemma {:induction false} DecisionExits(
    bars: seq<Bar>, c: Costs, intents: seq<seq<Intent>>, g: Ledger, i: nat, m: nat)
    requires i < |bars| == |intents| && m <= |intents[i]|
    requires ExitsAsked(intents, g.trades) && ToldOn(intents, i, g.live)
    ensures var after := AfterIntents(bars, c, g, i, intents[i], m);
            ExitsAsked(intents, after.trades) && ToldOn(intents, i, after.live)
  {
    if m > 0 {
      DecisionExits(bars, c, intents, g, i, m - 1);
      var before, intent := AfterIntents(bars, c, g, i, intents[i], m - 1), intents[i][m - 1];
      hide AfterIntents, Opened, Closed;
      if before.live.Idle? {
        DecisionTaken(bars, c, before, i, intent);
      } else if before.live.Holding? {
        ClosedHow(c, before.live.pos, bars[i].c, i, TimeLimit);
      }
    }
  }

  /** Over every run, each rule exit and each time exit was asked for when it should have been. */
  lemma {:induction false} EveryExitAsked(bars: seq<Bar>, c: Costs, intents: seq<seq<Intent>>, n: nat)
    requires |intents| == |bars| && n <= |bars|
    ensures var g := LedgerAfter(bars, c, intents, n);
            ExitsAsked(intents, g.trades) && ToldOn(intents, n - 1, g.live)
  {
    hide BarWorked, AfterIntents, ExitAsked;
    if n > 0 {
      var g := LedgerAfter(bars, c, intents, n - 1);
      EveryExitAsked(bars, c, intents, n - 1);
      BarExits(bars, c, intents, g, n - 1);
      DecisionExits(bars, c, intents, BarWorked(bars, c, g, n - 1), n - 1, |intents[n - 1]|);
    }
  }

  /** What a held position does with a decision: told once, closed at this close, or its stop moved. */
  lemma HeldDecisionTaken(bars: seq<Bar>, c: Costs, g: Ledger, i: nat, intent: Intent)
    requires i < |bars| && g.live.Holding?
    ensures var after := AfterIntent(bars, c, g, i, intent);
            match intent
            case LeaveAtClose => after == Ledger(Idle, g.trades + [Closed(c, g.live.pos, bars[i].c, i, TimeLimit)])
            case LeaveNextOpen(rule) =>
              && after.trades == g.trades && after.live.Holding? && after.live.pos == g.live.pos
              && after.live.leave == Some(if g.live.leave.Some? then g.live.leave.value else rule)
            case TightenStop(price) =>
              && after.trades == g.trades && after.live.Holding? && after.live.leave == g.live.leave
              && after.live.pos == g.live.pos.(sl := after.live.pos.sl)
            case _ => after == g
  {
    hide Closed;
  }
}
