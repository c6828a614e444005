/**
  The run loop of the clock range breakout family on plain state values: what each
  phase of a bar does to the audit list, the pending orders, the position and the
  trades, and why the state always matches the days evaluated on their own.
*/
module ClockRun {
  import opened Common
  import opened ClockSchedule
  import opened TradingDays
  import opened ClockDay

  /** Live orders and the audit row they report to. */
  datatype Pending = Pending(auditIndex: nat, orders: Orders)

  datatype State = State(days: seq<Row>, pending: Option<Pending>, position: Option<Position>, trades: seq<Trade>)

  /** The audit list once orders still pending have been marked expired. */
  function ExpireRow(days: seq<Row>, pending: Option<Pending>): seq<Row>
    requires pending.Some? ==> pending.value.auditIndex < |days|
  {
    if pending.None? then days
    else
      var a := pending.value.auditIndex;
      days[a := days[a].(outcome := Expired, reason := NoReason)]
  }

  /** Placing `day` when the first k bars are known. */
  function PlaceStep(inp: Inputs, st: State, day: int, k: nat): State
    requires inp.setup.sch.tf > 0 && 0 <= inp.setup.gates.widthATRDays && k <= |inp.bars|
    requires st.pending.Some? ==> st.pending.value.auditIndex < |st.days|
  {
    var row, days := BaseRow(inp, day, k), ExpireRow(st.days, st.pending);
    match PlacementOf(inp, day, k)
    case Refuse(reason) => st.(days := days + [row.(reason := reason)], pending := None)
    case Place(orders) =>
      if st.position.Some?
      then st.(days := days + [row.(reason := BrokerBlocked)], pending := None)
      else st.(days := days + [row.(outcome := StillPending)], pending := Some(Pending(|days|, orders)))
  }

  /** Due clock close, stop or target of an open position at bar i. */
  function ExitStep(inp: Inputs, st: State, i: nat): State
    requires i < |inp.bars|
  {
    if st.position.None? then st
    else match ExitBar(inp.setup.sch, st.position.value, inp.bars[i])
      case None => st
      case Some(exit) =>
        st.(position := None, trades := st.trades + [CloseTrade(inp.setup, st.position.value, exit, i)])
  }

  /** A touched pair at bar i: the day is used up, whatever comes of the fill. */
  function FillStep(inp: Inputs, st: State, result: FillResult, i: nat): State
    requires i < |inp.bars| && st.pending.Some? && st.pending.value.auditIndex < |st.days|
  {
    var a := st.pending.value.auditIndex;
    match result
    case Untouched => st
    case Cancelled(reason) =>
      st.(days := st.days[a := st.days[a].(outcome := Rejected, reason := reason)], pending := None)
    case Opened(pos) =>
      var entered := st.(days := st.days[a := EnteredRow(st.days[a], pos.side)], pending := None);
      if StopTouched(pos, inp.bars[i])
      then entered.(trades := st.trades + [CloseTrade(inp.setup, pos, Exit(pos.sl, StopLoss), i)])
      else entered.(position := Some(pos))
  }

  /** Pending orders at bar i: expiry first, then the touch test. */
  function OrdersStep(inp: Inputs, st: State, i: nat): State
    requires i < |inp.bars|
    requires st.pending.Some? ==> st.pending.value.auditIndex < |st.days|
  {
    if st.pending.None? then st
    else if inp.bars[i].t >= st.pending.value.orders.expiryT
    then st.(days := ExpireRow(st.days, st.pending), pending := None)
    else FillStep(inp, st, FillBar(inp.setup, st.pending.value.orders, inp.bars[i], i), i)
  }

  // ----- the invariant of the run

  /**
    Before bar i, with days first..next placed: finished days show their own
    evaluation, and at most one day is unfinished, holding either orders or the
    position its evaluation has reached by bar i.
  */
  ghost predicate Synced(inp: Inputs, st: State, first: int, next: int, i: nat, liquidate: bool)
    requires Runnable(inp)
  {
    && first <= next
    && (st.pending.Some? ==> st.position.None? && PendingSynced(inp, st, first, next, i, liquidate))
    && (st.position.Some? ==> OpenSynced(inp, st, first, next, i, liquidate))
    && (st.pending.None? && st.position.None? ==>
          Book(st.days, st.trades, []) == BookOf(inp, first, next, liquidate))
  }

  ghost predicate PendingSynced(inp: Inputs, st: State, first: int, next: int, i: nat, liquidate: bool)
    requires Runnable(inp) && st.pending.Some? && first <= next
  {
    var d, p := next - 1, st.pending.value;
    && first <= d && p.auditIndex == d - first
    && p.orders.day == d && p.orders.expiryT == inp.setup.sch.ExpiryOf(d) && p.orders.closeT == inp.setup.sch.CloseOf(d)
    && exists row :: OrdersReach(inp, st, first, d, row, i, liquidate)
  }

  ghost predicate OrdersReach(inp: Inputs, st: State, first: int, d: int, row: Row, i: nat, liquidate: bool)
    requires Runnable(inp) && st.pending.Some? && first <= d
  {
    && row.outcome == Rejected && row.reason == NoReason && row.side == None
    && Book(st.days, st.trades, [])
       == BookOf(inp, first, d, liquidate).Then(Book([row.(outcome := StillPending)], [], []))
    && |BookOf(inp, first, d, liquidate).rows| == d - first
    && Evaluate(inp, d, liquidate) == FromOrders(inp, row, st.pending.value.orders, i, liquidate)
  }

  ghost predicate OpenSynced(inp: Inputs, st: State, first: int, next: int, i: nat, liquidate: bool)
    requires Runnable(inp) && st.position.Some? && first <= next
  {
    var pos := st.position.value;
    var d := pos.day;
    && first <= d < next && pos.entryIndex < i
    && var whole, later := Evaluate(inp, d, liquidate), BookOf(inp, d + 1, next, liquidate);
    && Book(st.days, st.trades, [])
       == BookOf(inp, first, d, liquidate).Then(Book([whole.row], [], [])).Then(later)
    && later.trades == [] && later.open == []
    && whole == FromExit(inp, whole.row, pos, i, liquidate)
  }

  // ----- each phase keeps it

  lemma BookEmpty(inp: Inputs, a: int, liquidate: bool)
    requires Runnable(inp)
    ensures BookOf(inp, a, a, liquidate) == Book([], [], [])
  {
  }

  lemma BookSnoc(inp: Inputs, a: int, b: int, liquidate: bool)
    requires Runnable(inp) && a <= b
    ensures BookOf(inp, a, b + 1, liquidate) == BookOf(inp, a, b, liquidate).Then(DayBook(Evaluate(inp, b, liquidate)))
  {
    hide Evaluate, Runnable, DayBook;
  }

  /** Orders whose expiry is due make an expired day. */
  lemma DueOrdersExpire(inp: Inputs, row: Row, o: Orders, i: nat, liquidate: bool)
    requires 0 <= inp.end < |inp.bars| && i <= inp.end && inp.bars[i].t >= o.expiryT
    ensures FromOrders(inp, row, o, i, liquidate) == DayResult(row.(outcome := Expired), None, None)
  {
    hide FillBar;
  }

  lemma FinishPending(inp: Inputs, st: State, first: int, next: int, i: nat, liquidate: bool, row: Row, r: DayResult)
    requires Runnable(inp) && st.pending.Some? && first <= next - 1
    requires OrdersReach(inp, st, first, next - 1, row, i, liquidate)
    requires st.pending.value.auditIndex == next - 1 - first
    requires Evaluate(inp, next - 1, liquidate) == r
    ensures Book(st.days[st.pending.value.auditIndex := r.row], st.trades + ListOf(r.trade), ListOf(r.open))
            == BookOf(inp, first, next, liquidate)
  {
    hide Evaluate, Runnable, FromOrders;
    BookSnoc(inp, first, next - 1, liquidate);
  }

  lemma StartRunnable(inp: Inputs)
    requires inp.Valid() && 0 <= inp.end
    ensures Runnable(inp) && ValidSpec(inp.setup.sch.spec, false) && inp.setup.sch.tf > 0
  {
  }

  lemma StartSynced(inp: Inputs, st: State, first: int, liquidate: bool)
    requires Runnable(inp) && st == State([], None, None, [])
    ensures Synced(inp, st, first, first, 0, liquidate)
  {
  }

  /** The plain facts the steps need from a runnable input. */
  lemma RunnableFacts(inp: Inputs)
    requires Runnable(inp)
    ensures inp.setup.sch.tf > 0 && 0 <= inp.setup.gates.widthATRDays && 0 <= inp.end < |inp.bars|
    ensures ValidSpec(inp.setup.sch.spec, false)
  {
  }

  lemma SyncedIndex(inp: Inputs, st: State, first: int, next: int, i: nat, liquidate: bool)
    requires Runnable(inp) && Synced(inp, st, first, next, i, liquidate)
    ensures st.pending.Some? ==> st.pending.value.auditIndex < |st.days|
  {
    hide Runnable, ValidSpec, Evaluate, FromOrders, FromExit, PlacementOf, FillBar, ExitBar, CloseTrade, StopTouched,
         BookOf;
  }

  /** Expiring due orders leaves every placed day finished. */
  lemma ExpireKeeps(inp: Inputs, st: State, first: int, next: int, i: nat, j: nat, liquidate: bool)
    requires Runnable(inp) && i <= inp.end && st.pending.Some?
    requires Synced(inp, st, first, next, i, liquidate)
    requires inp.bars[i].t >= inp.setup.sch.ExpiryOf(next - 1)
    ensures st.pending.value.auditIndex < |st.days|
    ensures Synced(inp, st.(days := ExpireRow(st.days, st.pending), pending := None), first, next, j, liquidate)
  {
    hide Runnable, ValidSpec, Evaluate, FromOrders, FromExit, PlacementOf, FillBar, ExitBar, CloseTrade, StopTouched,
         BookOf;
    RunnableFacts(inp);
    SyncedIndex(inp, st, first, next, i, liquidate);
    var row :| OrdersReach(inp, st, first, next - 1, row, i, liquidate);
    DueOrdersExpire(inp, row, st.pending.value.orders, i, liquidate);
    FinishPending(inp, st, first, next, i, liquidate, row, Evaluate(inp, next - 1, liquidate));
    BookSnoc(inp, first, next - 1, liquidate);
    var a := st.pending.value.auditIndex;
    assert st.days[a] == row.(outcome := StillPending);
  }

  /** A day without trade or position only adds its audit row. */
  lemma QuietDayKeeps(inp: Inputs, st: State, first: int, day: int, i: nat, liquidate: bool)
    requires Runnable(inp) && st.pending.None?
    requires Synced(inp, st, first, day, i, liquidate)
    requires Evaluate(inp, day, liquidate).trade.None? && Evaluate(inp, day, liquidate).open.None?
    ensures Synced(inp, st.(days := st.days + [Evaluate(inp, day, liquidate).row]), first, day + 1, i, liquidate)
  {
    hide Runnable, ValidSpec, Evaluate, FromOrders, FromExit, PlacementOf, FillBar, ExitBar, CloseTrade, StopTouched,
         BookOf;
    BookSnoc(inp, first, day, liquidate);
    if st.position.Some? {
      BookSnoc(inp, st.position.value.day + 1, day, liquidate);
    }
  }

  /** A day noticed late is refused; it expires what was pending and leaves a position alone. */
  lemma PlaceLate(inp: Inputs, st: State, first: int, day: int, i: nat, liquidate: bool)
    requires Runnable(inp) && 0 < i <= inp.end
    requires inp.bars[i - 1].t + inp.setup.sch.tf < inp.setup.sch.EndOf(day) <= inp.bars[i].t
    requires Synced(inp, st, first, day, i, liquidate)
    ensures st.pending.Some? ==> st.pending.value.auditIndex < |st.days|
    ensures inp.setup.sch.tf > 0 && 0 <= inp.setup.gates.widthATRDays
    ensures Synced(inp, PlaceStep(inp, st, day, i), first, day + 1, i, liquidate)
  {
    hide Runnable, ValidSpec, Evaluate, FromOrders, FromExit, PlacementOf, BookOf, Synced, BaseRow;
    RunnableFacts(inp);
    SyncedIndex(inp, st, first, day, i, liquidate);
    LateDayIsRefused(inp, day, i);
    EvaluateRefused(inp, day, i, liquidate);
    DayOrder(inp.setup.sch, day - 1);
    var clear := st.(days := ExpireRow(st.days, st.pending), pending := None);
    if st.pending.Some? {
      ExpireKeeps(inp, st, first, day, i, i, liquidate);
    } else {
      assert clear == st;
    }
    QuietDayKeeps(inp, clear, first, day, i, liquidate);
  }

  /** A range ending with bar i is placed while nothing is live: its orders become the pending ones. */
  lemma PlaceClosing(inp: Inputs, st: State, first: int, day: int, i: nat, liquidate: bool)
    requires Runnable(inp) && i <= inp.end
    requires inp.bars[i].t < inp.setup.sch.EndOf(day) <= inp.bars[i].t + inp.setup.sch.tf
    requires Synced(inp, st, first, day, i + 1, liquidate)
    requires st.pending.None? && st.position.None?
    ensures inp.setup.sch.tf > 0 && 0 <= inp.setup.gates.widthATRDays
    ensures var after := PlaceStep(inp, st, day, i + 1);
            && Synced(inp, after, first, day + 1, i + 1, liquidate)
            && after.position.None?
            && (after.pending.Some? ==> inp.bars[i].t < after.pending.value.orders.expiryT)
  {
    hide Runnable, ValidSpec, Evaluate, FromOrders, FromExit, PlacementOf, BookOf, Synced;
    RunnableFacts(inp);
    ClosingIsKnown(inp, day, i);
    DayOrder(inp.setup.sch, day);
    if PlacementOf(inp, day, i + 1).Refuse? {
      EvaluateRefused(inp, day, i + 1, liquidate);
      QuietDayKeeps(inp, st, first, day, i + 1, liquidate);
    } else {
      EvaluatePlaced(inp, day, i + 1, liquidate);
      PlacedKeeps(inp, st, first, day, i + 1, BaseRow(inp, day, i + 1), PlacementOf(inp, day, i + 1).orders, liquidate);
    }
  }

  lemma PlacedKeeps(inp: Inputs, st: State, first: int, day: int, k: nat, row: Row, o: Orders, liquidate: bool)
    requires Runnable(inp) && Synced(inp, st, first, day, k, liquidate)
    requires st.pending.None? && st.position.None?
    requires row.outcome == Rejected && row.reason == NoReason && row.side == None
    requires o.day == day && o.expiryT == inp.setup.sch.ExpiryOf(day) && o.closeT == inp.setup.sch.CloseOf(day)
    requires Evaluate(inp, day, liquidate) == FromOrders(inp, row, o, k, liquidate)
    ensures var after := st.(days := st.days + [row.(outcome := StillPending)], pending := Some(Pending(|st.days|, o)));
            Synced(inp, after, first, day + 1, k, liquidate)
  {
    hide Runnable, ValidSpec, Evaluate, FromOrders, FromExit, PlacementOf, FillBar, ExitBar, CloseTrade, StopTouched,
         BookOf;
    BookRows(inp, first, day, liquidate);
    var after := st.(days := st.days + [row.(outcome := StillPending)], pending := Some(Pending(|st.days|, o)));
    assert OrdersReach(inp, after, first, day, row, k, liquidate);
  }

  lemma ClosingIsKnown(inp: Inputs, day: int, i: nat)
    requires Runnable(inp) && i <= inp.end
    requires inp.bars[i].t < inp.setup.sch.EndOf(day) <= inp.bars[i].t + inp.setup.sch.tf
    ensures inp.Known(day) == i + 1
  {
    SeriesIncreasing(inp.bars, inp.setup.sch.tf);
    if i < inp.end {
      ModShift(inp.bars[i].t, 1, inp.setup.sch.tf);
      GridStep(inp.bars[i].t + inp.setup.sch.tf, inp.bars[i + 1].t, inp.setup.sch.tf);
    }
    KnownIs(inp, day, i + 1);
  }

  /** An open position either closes at bar i or goes on past it before its clock close. */
  lemma ExitKeeps(inp: Inputs, st: State, first: int, next: int, i: nat, liquidate: bool)
    requires Runnable(inp) && i <= inp.end && Synced(inp, st, first, next, i, liquidate)
    ensures var after := ExitStep(inp, st, i);
            && after.pending == st.pending
            && (st.pending.Some? ==> after == st)
            && (after.position.Some? ==> after.position == st.position)
            && (after.pending.None? ==> Synced(inp, after, first, next, i + 1, liquidate))
            && (after.position.Some? ==> inp.bars[i].t < inp.setup.sch.CloseOf(after.position.value.day))
  {
    hide Runnable, ValidSpec, Evaluate, FromOrders, FromExit, PlacementOf, FillBar, ExitBar, CloseTrade, StopTouched,
         BookOf;
    RunnableFacts(inp);
    if st.position.Some? {
      var pos := st.position.value;
      ExitUnfolds(inp, Evaluate(inp, pos.day, liquidate).row, pos, i, liquidate);
      match ExitBar(inp.setup.sch, pos, inp.bars[i])
      case None =>
      case Some(exit) => ClosedDayKeeps(inp, st, first, next, i, CloseTrade(inp.setup, pos, exit, i), liquidate);
    }
  }

  /** Once its open day is finished, the whole book is that of the evaluated days. */
  lemma ClosedDayKeeps(inp: Inputs, st: State, first: int, next: int, i: nat, trade: Trade, liquidate: bool)
    requires Runnable(inp) && st.position.Some? && st.pending.None? && Synced(inp, st, first, next, i, liquidate)
    requires Evaluate(inp, st.position.value.day, liquidate).trade == Some(trade)
    requires Evaluate(inp, st.position.value.day, liquidate).open.None?
    ensures Book(st.days, st.trades + [trade], []) == BookOf(inp, first, next, liquidate)
  {
    hide Runnable, ValidSpec, Evaluate, FromOrders, FromExit, PlacementOf, FillBar, ExitBar, CloseTrade, StopTouched,
         BookOf;
    RunnableFacts(inp);
    var d := st.position.value.day;
    BookSplit(inp, first, d + 1, next, liquidate);
    BookSnoc(inp, first, d, liquidate);
    AddTrade(BookOf(inp, first, d, liquidate), Evaluate(inp, d, liquidate), BookOf(inp, d + 1, next, liquidate),
             st.days, st.trades);
  }

  lemma AddTrade(before: Book, r: DayResult, later: Book, days: seq<Row>, trades: seq<Trade>)
    requires Book(days, trades, []) == before.Then(Book([r.row], [], [])).Then(later)
    requires later.trades == [] && later.open == [] && r.trade.Some? && r.open.None?
    ensures Book(days, trades + [r.trade.value], []) == before.Then(DayBook(r)).Then(later)
  {
    assert before.open == [] by {
      assert |before.open + [] + later.open| == 0;
    }
  }

  lemma ExitUnfolds(inp: Inputs, row: Row, pos: Position, i: nat, liquidate: bool)
    requires 0 <= inp.end < |inp.bars| && i <= inp.end
    ensures FromExit(inp, row, pos, i, liquidate)
            == match ExitBar(inp.setup.sch, pos, inp.bars[i])
               case Some(exit) => DayResult(row, Some(CloseTrade(inp.setup, pos, exit, i)), None)
               case None => FromExit(inp, row, pos, i + 1, liquidate)
    ensures ExitBar(inp.setup.sch, pos, inp.bars[i]).None? ==> inp.bars[i].t < inp.setup.sch.CloseOf(pos.day)
  {
    hide CloseTrade;
  }

  /** Pending orders either expire, are used up, or stay live past bar i. */
  lemma OrdersKeeps(inp: Inputs, st: State, first: int, next: int, i: nat, liquidate: bool)
    requires Runnable(inp) && i <= inp.end && Synced(inp, st, first, next, i, liquidate) && st.pending.Some?
    ensures st.pending.value.auditIndex < |st.days|
    ensures var after := OrdersStep(inp, st, i);
            && Synced(inp, after, first, next, i + 1, liquidate)
            && (after.pending.Some? ==> inp.bars[i].t < after.pending.value.orders.expiryT)
            && (after.position.Some? ==> inp.bars[i].t < inp.setup.sch.CloseOf(after.position.value.day))
  {
    hide Runnable, ValidSpec, Evaluate, FromOrders, FromExit, PlacementOf, FillBar, ExitBar, CloseTrade, StopTouched,
         BookOf;
    RunnableFacts(inp);
    SyncedIndex(inp, st, first, next, i, liquidate);
    var p := st.pending.value;
    if inp.bars[i].t >= p.orders.expiryT {
      ExpireKeeps(inp, st, first, next, i, i + 1, liquidate);
    } else {
      var row :| OrdersReach(inp, st, first, next - 1, row, i, liquidate);
      OrdersUnfold(inp, row, p.orders, i, liquidate);
      FillKeeps(inp, st, first, next, i, row, FillBar(inp.setup, p.orders, inp.bars[i], i), liquidate);
    }
  }

  lemma OrdersUnfold(inp: Inputs, row: Row, o: Orders, i: nat, liquidate: bool)
    requires 0 <= inp.end < |inp.bars| && i <= inp.end && inp.bars[i].t < o.expiryT
    ensures FromOrders(inp, row, o, i, liquidate)
            == match FillBar(inp.setup, o, inp.bars[i], i)
               case Untouched => FromOrders(inp, row, o, i + 1, liquidate)
               case Cancelled(reason) => DayResult(row.(outcome := Rejected, reason := reason), None, None)
               case Opened(pos) =>
                 if StopTouched(pos, inp.bars[i])
                 then DayResult(EnteredRow(row, pos.side), Some(CloseTrade(inp.setup, pos, Exit(pos.sl, StopLoss), i)),
                                None)
                 else FromExit(inp, EnteredRow(row, pos.side), pos, i + 1, liquidate)
    ensures var r := FillBar(inp.setup, o, inp.bars[i], i);
            r.Opened? ==> r.pos.day == o.day && r.pos.entryIndex == i
  {
    hide CloseTrade, FromExit;
  }

  lemma FillKeeps(inp: Inputs, st: State, first: int, next: int, i: nat, row: Row, result: FillResult, liquidate: bool)
    requires Runnable(inp) && i <= inp.end && Synced(inp, st, first, next, i, liquidate) && st.pending.Some?
    requires st.pending.value.auditIndex < |st.days| && inp.bars[i].t < st.pending.value.orders.expiryT
    requires OrdersReach(inp, st, first, next - 1, row, i, liquidate)
    requires result.Opened? ==> result.pos.day == next - 1 && result.pos.entryIndex == i
    requires var o := st.pending.value.orders;
             FromOrders(inp, row, o, i, liquidate)
             == match result
                case Untouched => FromOrders(inp, row, o, i + 1, liquidate)
                case Cancelled(reason) => DayResult(row.(outcome := Rejected, reason := reason), None, None)
                case Opened(pos) =>
                  if StopTouched(pos, inp.bars[i])
                  then DayResult(EnteredRow(row, pos.side),
                                 Some(CloseTrade(inp.setup, pos, Exit(pos.sl, StopLoss), i)), None)
                  else FromExit(inp, EnteredRow(row, pos.side), pos, i + 1, liquidate)
    ensures var after := FillStep(inp, st, result, i);
            && Synced(inp, after, first, next, i + 1, liquidate)
            && (after.pending.Some? ==> inp.bars[i].t < after.pending.value.orders.expiryT)
            && (after.position.Some? ==> inp.bars[i].t < inp.setup.sch.CloseOf(after.position.value.day))
  {
    hide Runnable, ValidSpec, Evaluate, FromOrders, FromExit, PlacementOf, FillBar, ExitBar, CloseTrade, StopTouched,
         BookOf;
    RunnableFacts(inp);
    var d := next - 1;
    DayOrder(inp.setup.sch, d);
    var after := FillStep(inp, st, result, i);
    var whole := Evaluate(inp, d, liquidate);
    match result
    case Untouched =>
      assert OrdersReach(inp, after, first, d, row, i + 1, liquidate);
    case Cancelled(reason) =>
      FinishPending(inp, st, first, next, i, liquidate, row, whole);
    case Opened(pos) =>
      if StopTouched(pos, inp.bars[i]) {
        FinishPending(inp, st, first, next, i, liquidate, row, whole);
      } else {
        OpenKeeps(inp, st, first, next, i, row, pos, liquidate);
      }
  }

  lemma OpenKeeps(inp: Inputs, st: State, first: int, next: int, i: nat, row: Row, pos: Position, liquidate: bool)
    requires Runnable(inp) && st.pending.Some? && first <= next - 1
    requires st.pending.value.auditIndex == next - 1 - first && st.pending.value.auditIndex < |st.days|
    requires OrdersReach(inp, st, first, next - 1, row, i, liquidate)
    requires pos.day == next - 1 && pos.entryIndex == i
    requires Evaluate(inp, next - 1, liquidate) == FromExit(inp, EnteredRow(row, pos.side), pos, i + 1, liquidate)
    ensures var a := st.pending.value.auditIndex;
            Synced(inp, st.(days := st.days[a := EnteredRow(st.days[a], pos.side)], pending := None,
                            position := Some(pos)),
                   first, next, i + 1, liquidate)
  {
    hide Runnable, ValidSpec, Evaluate, FromOrders, FromExit, PlacementOf, FillBar, ExitBar, CloseTrade, StopTouched,
         BookOf;
    RunnableFacts(inp);
    FromExitRow(inp, EnteredRow(row, pos.side), pos, i + 1, liquidate);
    BookEmpty(inp, next, liquidate);
    var a := st.pending.value.auditIndex;
    assert st.days[a] == row.(outcome := StillPending);
  }

  // ----- the clock of the run

  /** Each bar opens at least one bar length after the one before it. */
  lemma TimeSteps(inp: Inputs, i: nat)
    requires Runnable(inp) && i <= inp.end
    ensures inp.setup.sch.tf > 0 && 0 <= inp.setup.gates.widthATRDays && 0 <= inp.end < |inp.bars|
    ensures i > 0 ==> inp.bars[i - 1].t + inp.setup.sch.tf <= inp.bars[i].t
  {
    SeriesIncreasing(inp.bars, inp.setup.sch.tf);
    if i > 0 {
      ModShift(inp.bars[i - 1].t, 1, inp.setup.sch.tf);
      GridStep(inp.bars[i - 1].t + inp.setup.sch.tf, inp.bars[i].t, inp.setup.sch.tf);
    }
  }

  /** After bar i has been worked, what is still live is not yet due at its open. */
  predicate NothingDue(inp: Inputs, st: State, i: nat)
    requires i < |inp.bars|
  {
    && (st.pending.Some? ==> inp.bars[i].t < st.pending.value.orders.expiryT)
    && (st.position.Some? ==> inp.bars[i].t < inp.setup.sch.CloseOf(st.position.value.day))
  }

  /** When a range ends with bar i, no orders and no position of an earlier day are left. */
  lemma NothingLive(inp: Inputs, st: State, first: int, day: int, i: nat, liquidate: bool)
    requires Runnable(inp) && i <= inp.end && Synced(inp, st, first, day, i + 1, liquidate)
    requires inp.setup.sch.EndOf(day) <= inp.bars[i].t + inp.setup.sch.tf && NothingDue(inp, st, i)
    ensures st.pending.None? && st.position.None?
  {
    if st.pending.Some? {
      EarlierDaysAreDue(inp, day - 1, day, i);
    } else if st.position.Some? {
      EarlierDaysAreDue(inp, st.position.value.day, day, i);
    }
  }

  /** What a phase may rely on about live orders and an open position. */
  lemma SyncedLive(inp: Inputs, st: State, first: int, next: int, i: nat, liquidate: bool)
    requires Runnable(inp) && Synced(inp, st, first, next, i, liquidate)
    ensures first <= next && (st.pending.Some? ==> st.position.None?)
    ensures st.pending.Some? ==>
              var o := st.pending.value.orders;
              st.pending.value.auditIndex < |st.days| && o.closeT == inp.setup.sch.CloseOf(o.day)
    ensures st.position.Some? ==> st.position.value.entryIndex < i
  {
    hide Runnable, ValidSpec, Evaluate, FromOrders, FromExit, PlacementOf, FillBar, ExitBar, CloseTrade, StopTouched,
         BookOf;
    SyncedIndex(inp, st, first, next, i, liquidate);
  }

  lemma IdleExit(inp: Inputs, st: State, i: nat)
    requires i < |inp.bars| && st.position.None?
    ensures ExitStep(inp, st, i) == st
  {
  }

  lemma IdleOrders(inp: Inputs, st: State, i: nat)
    requires i < |inp.bars| && st.pending.None?
    ensures OrdersStep(inp, st, i) == st
  {
  }

  /** Without daily gates the trading days are not read. */
  lemma IdleGates(inp: Inputs, daily: seq<TradingDay>, orders: Orders)
    requires 0 <= inp.setup.gates.widthATRDays
    requires inp.setup.gates.UsesDailyInputs() ==> daily == AllDays(inp.setup.sch, inp.bars)
    ensures ApplyGates(inp.setup, daily, orders) == ApplyGates(inp.setup, AllDays(inp.setup.sch, inp.bars), orders)
  {
  }

  lemma FillDay(inp: Inputs, o: Orders, i: nat)
    requires i < |inp.bars| && FillBar(inp.setup, o, inp.bars[i], i).Opened?
    ensures FillBar(inp.setup, o, inp.bars[i], i).pos.day == o.day
  {
  }

  function FinalStep(inp: Inputs, st: State, liquidate: bool): State
    requires 0 <= inp.end < |inp.bars|
    requires st.pending.Some? ==> st.pending.value.auditIndex < |st.days|
  {
    var closed :=
      if liquidate && st.position.Some?
      then st.(position := None,
               trades := st.trades + [CloseTrade(inp.setup, st.position.value, Exit(inp.bars[inp.end].c, EndOfTest),
                                                 inp.end)])
      else st;
    if st.pending.None? then closed
    else
      var a := st.pending.value.auditIndex;
      closed.(days := st.days[a := st.days[a].(outcome := StillPending, reason := NoReason)])
  }

  /** At the end of the data the final state is the book of all placed days. */
  lemma SyncedFinal(inp: Inputs, st: State, first: int, next: int, liquidate: bool)
    requires Runnable(inp) && Synced(inp, st, first, next, inp.end + 1, liquidate)
    requires st.pending.Some? ==> st.pending.value.auditIndex < |st.days|
    ensures inp.end < |inp.bars|
    ensures var final := FinalStep(inp, st, liquidate);
            Book(final.days, final.trades, ListOf(final.position)) == BookOf(inp, first, next, liquidate)
  {
    hide Runnable, ValidSpec, Evaluate, PendingSynced, OpenSynced, BookOf, CloseTrade;
    RunnableFacts(inp);
    SyncedLive(inp, st, first, next, inp.end + 1, liquidate);
    if st.pending.Some? {
      PendingFinal(inp, st, first, next, liquidate);
    } else if st.position.Some? {
      OpenFinal(inp, st, first, next, liquidate);
    }
  }

  lemma OrdersAtEnd(inp: Inputs, row: Row, o: Orders, liquidate: bool)
    requires 0 <= inp.end < |inp.bars|
    ensures FromOrders(inp, row, o, inp.end + 1, liquidate) == DayResult(row.(outcome := StillPending), None, None)
  {
    hide FillBar, CloseTrade;
  }

  lemma ExitAtEnd(inp: Inputs, row: Row, pos: Position, liquidate: bool)
    requires 0 <= inp.end < |inp.bars|
    ensures FromExit(inp, row, pos, inp.end + 1, liquidate)
            == if liquidate
               then DayResult(row, Some(CloseTrade(inp.setup, pos, Exit(inp.bars[inp.end].c, EndOfTest), inp.end)),
                              None)
               else DayResult(row, None, Some(pos))
  {
    hide ExitBar, CloseTrade;
  }

  lemma PendingFinal(inp: Inputs, st: State, first: int, next: int, liquidate: bool)
    requires Runnable(inp) && Synced(inp, st, first, next, inp.end + 1, liquidate) && st.pending.Some?
    requires st.pending.value.auditIndex < |st.days|
    ensures var a := st.pending.value.auditIndex;
            Book(st.days[a := st.days[a].(outcome := StillPending, reason := NoReason)], st.trades, [])
            == BookOf(inp, first, next, liquidate)
  {
    hide Runnable, ValidSpec, Evaluate, FromOrders, FromExit, PlacementOf, FillBar, ExitBar, CloseTrade, StopTouched,
         BookOf;
    RunnableFacts(inp);
    var row :| OrdersReach(inp, st, first, next - 1, row, inp.end + 1, liquidate);
    OrdersAtEnd(inp, row, st.pending.value.orders, liquidate);
    FinishPending(inp, st, first, next, inp.end + 1, liquidate, row, Evaluate(inp, next - 1, liquidate));
  }

  lemma OpenFinal(inp: Inputs, st: State, first: int, next: int, liquidate: bool)
    requires Runnable(inp) && Synced(inp, st, first, next, inp.end + 1, liquidate) && st.position.Some?
    ensures var pos := st.position.value;
            var exit := Exit(inp.bars[inp.end].c, EndOfTest);
            Book(st.days, if liquidate then st.trades + [CloseTrade(inp.setup, pos, exit, inp.end)] else st.trades,
                 if liquidate then [] else [pos])
            == BookOf(inp, first, next, liquidate)
  {
    hide Runnable, ValidSpec, Evaluate, FromOrders, FromExit, PlacementOf, FillBar, ExitBar, CloseTrade, StopTouched,
         BookOf;
    RunnableFacts(inp);
    var pos := st.position.value;
    var d := pos.day;
    var whole := Evaluate(inp, d, liquidate);
    ExitAtEnd(inp, whole.row, pos, liquidate);
    if liquidate {
      ClosedDayKeeps(inp, st, first, next, inp.end + 1, whole.trade.value, liquidate);
    } else {
      BookSplit(inp, first, d + 1, next, liquidate);
      BookSnoc(inp, first, d, liquidate);
      AddOpen(BookOf(inp, first, d, liquidate), whole, BookOf(inp, d + 1, next, liquidate), st.days, st.trades);
    }
  }

  lemma AddOpen(before: Book, r: DayResult, later: Book, days: seq<Row>, trades: seq<Trade>)
    requires Book(days, trades, []) == before.Then(Book([r.row], [], [])).Then(later)
    requires later.trades == [] && later.open == [] && r.trade.None? && r.open.Some?
    ensures Book(days, trades, [r.open.value]) == before.Then(DayBook(r)).Then(later)
  {
    assert before.open == [] by {
      assert |before.open + [] + later.open| == 0;
    }
  }
}
