/**
  What a run of the adaptive flag shows, said of its own orders and bars: which rows arm an order,
  when and at what price each event happens, and what is live after each row.
*/
module AdaptiveOutcomes {
  import opened Common
  import opened AdaptiveBracket
  import opened AdaptiveFlag
  import opened AdaptiveTheorems

  // ----- arming

  /** The order has come to its end by the close of row r: closed, or expired unfilled. */
  ghost predicate GoneBy(inp: Inputs, o: Order, r: nat) {
    (o.status == Closed && o.exitIdx.Some? && o.exitIdx.value <= r)
    || (o.status == Expired && o.sig.signalIdx + inp.rules.validBars + 1 <= r)
  }

  lemma GoneIs(inp: Inputs, sig: Signal, id: nat, first: nat, r: nat, n: nat)
    requires inp.Valid() && sig.signalIdx < n <= |inp.bars|
    ensures EndedBy(inp, sig, r, n) <==> GoneBy(inp, OrderOf(inp, sig, id, first, n), r)
    ensures OrderOf(inp, sig, id, first, n).sig == sig
  {
    hide CourseOf, MarksOf;
    CourseInRange(inp, sig, n);
  }

  /**
    A row arms an order exactly when it opens in the trading window, has a candidate, and every
    order armed before it has been closed or has expired by its close.
  */
  lemma ArmedExactlyWhen(inp: Inputs, n: nat, r: nat)
    requires inp.Valid() && r < n <= |inp.bars|
    ensures (exists k :: 0 <= k < |Orders(inp, n)| && Orders(inp, n)[k].sig.signalIdx == r)
            <==> && inp.tradeFrom <= inp.bars[r].openT && inp.cands[r].Some?
                 && forall k :: 0 <= k < |Orders(inp, n)| && Orders(inp, n)[k].sig.signalIdx < r ==>
                      GoneBy(inp, Orders(inp, n)[k], r)
  {
    hide ArmsFrom, OrdersOf, EventsOf, OrderOf, EndedBy, GoneBy;
    var arms := Arms(inp, n);
    ArmsExactlyWhenFlat(inp, 0, n, r);
    forall k | 0 <= k < |arms|
      ensures Orders(inp, n)[k].sig == arms[k]
      ensures EndedBy(inp, arms[k], r, n) <==> GoneBy(inp, Orders(inp, n)[k], r)
    {
      OrderAt(inp, arms, n, k);
      GoneIs(inp, arms[k], k, |EventsOf(inp, arms[..k], n)|, r, n);
    }
    assert ArmedAt(arms, r) <==> exists k :: 0 <= k < |Orders(inp, n)| && Orders(inp, n)[k].sig.signalIdx == r;
  }

  // ----- events

  /** A price taken at the open is a moment, one met inside the bar lies between its open and its close. */
  predicate PricedWhen(b: FlagBar, atOpen: bool, w: When) {
    w == if atOpen then Point(b.openT) else Crossing(b.openT, b.closeT)
  }

  /** The event fits its order: on its row, at its time, at its price. */
  ghost predicate MarkAsStated(inp: Inputs, o: Order, m: Mark)
    requires inp.Valid()
  {
    var s, b := o.sig.signalIdx, if m.row < |inp.bars| then inp.bars[m.row] else FlagBar(0, 0, 0.0, 0.0, 0.0, 0.0, 0.0);
    && m.row < |inp.bars|
    && match m.kind
       case Armed => m.row == s && m.when == Point(b.closeT) && m.price == None
       case Opportunity =>
         s < m.row <= s + o.fillOpportunities && m.when == DuringBar(b.openT, b.closeT) && m.price == None
       case Filled =>
         o.fillIdx == Some(m.row) && o.entry.Some? && m.price == o.entry && PricedWhen(b, o.entryAtOpen, m.when)
       case BracketCreated => o.fillIdx == Some(m.row) && m.when == Point(b.closeT) && m.price == None
       case ExitQueued(why) =>
         && o.fillIdx.Some? && m.when == Point(b.closeT) && m.price == None
         && m.row == o.fillIdx.value + (if why == StopActivatedAtClose then 0 else inp.rules.maxHold)
       case ClosedBy(cause) =>
         && o.status == Closed && o.exitIdx == Some(m.row) && o.reason == Some(cause) && m.price == o.exit
         && (if cause.Barrier? then BracketOf(o.sig, b).Some? && PricedWhen(b, BracketOf(o.sig, b).value.atOpen, m.when)
             else m.price == Some(b.open) && m.when == Point(b.openT))
       case Lapse =>
         o.status == Expired && m.row == s + inp.rules.validBars + 1 && m.when == Point(b.closeT) && m.price == None
  }

  /** What a course says about its last row. */
  ghost predicate EndAsStated(inp: Inputs, sig: Signal, c: Course)
    requires inp.Valid()
  {
    match c
    case Waiting => true
    case Lapsed(end) => end == sig.signalIdx + inp.rules.validBars + 1 && end < |inp.bars|
    case Held(f, _) => f < |inp.bars|
    case Leaving(f, _, q) =>
      && f <= q.row < |inp.bars|
      && q.row == f + (if q.reason == StopActivatedAtClose then 0 else inp.rules.maxHold)
    case Done(f, _, x) =>
      && f < x.row < |inp.bars|
      && if x.reason.Barrier?
         then BracketOf(sig, inp.bars[x.row]).Some? && x.atOpen == BracketOf(sig, inp.bars[x.row]).value.atOpen
         else
           && x.atOpen && x.price == inp.bars[x.row].open
           && x.row == f + 1 + (if x.reason == StopActivatedAtClose then 0 else inp.rules.maxHold)
  }

  lemma EndIs(inp: Inputs, sig: Signal, n: nat)
    requires inp.Valid() && sig.signalIdx < n <= |inp.bars|
    ensures EndAsStated(inp, sig, CourseOf(inp.bars, inp.rules, sig, n))
  {
    hide EntryOf, BracketOf, ClosesBeyondStop, FirstFill, FirstHit;
  }

  lemma TailMarksFit(inp: Inputs, sig: Signal, id: nat, c: Course, n: nat, ids: seq<nat>, j: nat)
    requires inp.Valid() && sig.signalIdx < n <= |inp.bars| && EndAsStated(inp, sig, c)
    requires j < |TailMarks(inp.bars, c)|
    ensures MarkAsStated(inp, RecordOf(sig, id, c, n, inp.rules, ids), TailMarks(inp.bars, c)[j])
  {
    hide BracketOf;
  }

  lemma MarksFit(inp: Inputs, sig: Signal, id: nat, first: nat, n: nat, j: nat)
    requires inp.Valid() && sig.signalIdx < n <= |inp.bars| && j < |MarksOf(inp, sig, n)|
    ensures MarkAsStated(inp, OrderOf(inp, sig, id, first, n), MarksOf(inp, sig, n)[j])
  {
    hide CourseOf, TailMarks, EntryOf, BracketOf;
    CourseInRange(inp, sig, n);
    var c := CourseOf(inp.bars, inp.rules, sig, n);
    var count := Opportunities(sig, c, n, inp.rules);
    if j > count {
      EndIs(inp, sig, n);
      TailMarksFit(inp, sig, id, c, n, Span(first, |MarksOf(inp, sig, n)|), j - 1 - count);
    }
  }

  /** Every event of every run belongs to an order and fits it: its row, its time, its price. */
  lemma EventsShown(inp: Inputs, n: nat, e: nat)
    requires inp.Valid() && n <= |inp.bars| && e < |Events(inp, n)|
    ensures var event := Events(inp, n)[e];
            && event.id == e && event.orderID < |Orders(inp, n)|
            && MarkAsStated(inp, Orders(inp, n)[event.orderID], event.mark)
  {
    hide ArmsFrom, OrdersOf, EventsOf, MarksOf, OrderOf, MarkAsStated;
    var arms := Arms(inp, n);
    LogNumbered(inp, arms, n);
    var k := Events(inp, n)[e].orderID;
    LogLayout(inp, arms, n, k);
    OrderAt(inp, arms, n, k);
    var first := |EventsOf(inp, arms[..k], n)|;
    MarksFit(inp, arms[k], k, first, n, e - first);
  }

  // ----- states

  /** What is live after row i, said of the orders after row i: the last one, unless it has ended. */
  ghost predicate StateAsStated(inp: Inputs, i: nat, st: RowState)
    requires inp.Valid() && i < |inp.bars|
  {
    var orders := Orders(inp, i + 1);
    && st.row == i && st.closeMs == inp.bars[i].closeT
    && if orders == [] || orders[|orders| - 1].status == Closed || orders[|orders| - 1].status == Expired
       then st.status == IsFlat && st.pendingID == None && st.positionID == None && st.pendingAge == 0
         && st.queued == None
       else LiveAsStated(inp, i, st, orders[|orders| - 1], |orders| - 1)
  }

  ghost predicate LiveAsStated(inp: Inputs, i: nat, st: RowState, o: Order, id: nat)
    requires i < |inp.bars|
  {
    match o.status
    case Pending =>
      && st.status == IsPending && st.pendingID == Some(id) && st.positionID == None
      && st.pendingAge == o.pendingAge == i - o.sig.signalIdx && st.queued == None
    case Open =>
      && st.status == IsOpen && st.pendingID == None && st.positionID == Some(id) && st.pendingAge == 0
      && st.queued == None
    case QueuedExit =>
      && st.status == IsQueuedExit && st.pendingID == None && st.positionID == Some(id) && st.pendingAge == 0
      && o.fillIdx.Some? && o.fillIdx.value <= i
      && var why := if StopPassed(o.sig, inp.bars[o.fillIdx.value]) then StopActivatedAtClose else MaxHold;
         st.queued == Some(Queued(why, i, inp.bars[i].closeT, i + 1))
    case _ => false
  }

  lemma LiveIs(inp: Inputs, sig: Signal, id: nat, first: nat, i: nat)
    requires inp.Valid() && sig.signalIdx <= i < |inp.bars|
    ensures var c, o := CourseOf(inp.bars, inp.rules, sig, i + 1), OrderOf(inp, sig, id, first, i + 1);
            var flat := RowState(i, inp.bars[i].closeT, IsFlat, None, None, 0, None);
            match c
            case Waiting =>
              o.status == Pending
              && LiveAsStated(inp, i, flat.(status := IsPending, pendingID := Some(id), pendingAge := i
                                            - sig.signalIdx),
                              o, id)
            case Held(_, _) =>
              o.status == Open && LiveAsStated(inp, i, flat.(status := IsOpen, positionID := Some(id)), o, id)
            case Leaving(_, _, q) =>
              o.status == QueuedExit
              && LiveAsStated(inp, i, flat.(status := IsQueuedExit, positionID := Some(id), queued := Some(q)), o, id)
            case Lapsed(_) => o.status == Expired
            case Done(_, _, _) => o.status == Closed
  {
    hide EntryOf, BracketOf, FirstFill, FirstHit, MarksOf, ClosesBeyondStop, StopPassed;
    forall b: FlagBar
      ensures ClosesBeyondStop(sig, b) <==> StopPassed(sig, b)
    {
      PassedIs(sig, b);
    }
  }

  /** The state of every row shows exactly what its orders say is live. */
  lemma StatesShown(inp: Inputs, i: nat)
    requires inp.Valid() && i < |inp.bars|
    ensures StateAsStated(inp, i, StateOf(inp, i))
  {
    hide CourseOf, ArmsFrom, OrdersOf, EventsOf, OrderOf, LiveAsStated;
    var arms := Arms(inp, i + 1);
    if arms != [] {
      var k := |arms| - 1;
      OrderAt(inp, arms, i + 1, k);
      LiveIs(inp, arms[k], k, |EventsOf(inp, arms[..k], i + 1)|, i);
    }
  }
}
