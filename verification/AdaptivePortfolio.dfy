/**
  The portfolio loop of engine/adaptive_flag_reference.go: one pass over the rows that
  updates orders, the event log and the pending, position and queued-exit variables in place.
  It is proved equal to the searches of module AdaptiveFlag.
*/
module AdaptivePortfolio {
  import opened Common
  import opened AdaptiveBracket
  import opened AdaptiveFlag

  /** The order and its marks between the entry opportunity and the close phase of row i. */
  function EntryRecord(bars: seq<FlagBar>, sig: Signal, o: Order, c: Course, i: nat): Order
    requires i < |bars|
  {
    if !c.Waiting? then o
    else
      var tried := o.(fillOpportunities := o.fillOpportunities + 1);
      match EntryOf(sig, bars[i])
      case None => tried
      case Some(fill) => tried.(status := Open, fillIdx := Some(i), entry := Some(fill.price),
                                entryAtOpen := fill.atOpen)
  }

  function EntryMarks(bars: seq<FlagBar>, sig: Signal, c: Course, i: nat): seq<Mark>
    requires i < |bars|
  {
    if !c.Waiting? then []
    else match EntryOf(sig, bars[i])
      case None => [OpportunityMark(bars, i)]
      case Some(fill) => [OpportunityMark(bars, i), PriceMark(bars, Filled, i, fill.atOpen, fill.price)]
  }

  /** The last order's record, spelled out from its course and its marks. */
  lemma LastRecord(inp: Inputs, arms: seq<Signal>, n: nat)
    requires inp.Valid() && n <= |inp.bars| && ArmsValid(arms, n) && arms != []
    ensures var k := |arms| - 1;
            var P, Q, marks := OrdersOf(inp, arms[..k], n), EventsOf(inp, arms[..k], n), MarksOf(inp, arms[k], n);
            && |P| == k
            && OrdersOf(inp, arms, n)
               == P + [RecordOf(arms[k], k, CourseOf(inp.bars, inp.rules, arms[k], n), n, inp.rules, [])
                       .(eventIDs := Span(|Q|, |marks|))]
            && EventsOf(inp, arms, n) == Q + Tagged(k, |Q|, marks)
  {
    hide CourseOf, MarksOf;
  }

  lemma EarlierEnded(inp: Inputs, n: nat)
    requires inp.Valid() && n <= |inp.bars|
    ensures var arms := ArmsFrom(inp, 0, n);
            forall k :: 0 <= k < |arms| - 1 ==> CourseOf(inp.bars, inp.rules, arms[k], n).Ended()
  {
    hide CourseOf, ArmsFrom;
    OnlyLastLives(inp, 0, n);
    forall k | 0 <= k < |ArmsFrom(inp, 0, n)| - 1
      ensures CourseOf(inp.bars, inp.rules, ArmsFrom(inp, 0, n)[k], n).Ended()
    {
      assert EndedBefore(inp, ArmsFrom(inp, 0, n), k, n);
    }
  }

  lemma AllEnded(inp: Inputs, n: nat)
    requires inp.Valid() && n <= |inp.bars| && ArmsFrom(inp, 0, n) != []
    requires var arms := ArmsFrom(inp, 0, n); CourseOf(inp.bars, inp.rules, arms[|arms| - 1], n).Ended()
    ensures var arms := ArmsFrom(inp, 0, n);
            forall k :: 0 <= k < |arms| ==> CourseOf(inp.bars, inp.rules, arms[k], n).Ended()
  {
    hide CourseOf, ArmsFrom;
    var arms := ArmsFrom(inp, 0, n);
    OnlyLastLives(inp, 0, n);
    forall k | 0 <= k < |arms|
      ensures CourseOf(inp.bars, inp.rules, arms[k], n).Ended()
    {
      if k < |arms| - 1 {
        assert EndedBefore(inp, arms, k, n);
      }
    }
  }

  /** With a live last order only its record and its new marks change at row n. */
  lemma LiveRecord(inp: Inputs, arms: seq<Signal>, n: nat)
    requires inp.Valid() && n < |inp.bars| && arms == ArmsFrom(inp, 0, n) && arms != []
    ensures var k := |arms| - 1;
            var P, Q, sig := OrdersOf(inp, arms[..k], n), EventsOf(inp, arms[..k], n), arms[k];
            var c := CourseOf(inp.bars, inp.rules, sig, n);
            var d := Advance(inp.bars, inp.rules, sig, c, n);
            var marks := MarksOf(inp, sig, n) + NewMarks(inp.bars, inp.rules, sig, c, n);
            && OrdersOf(inp, arms, n + 1)
               == P + [RecordOf(sig, k, d, n + 1, inp.rules, []).(eventIDs := Span(|Q|, |marks|))]
            && EventsOf(inp, arms, n + 1) == Q + Tagged(k, |Q|, marks)
  {
    hide CourseOf, MarksOf, ArmsFrom, OrdersOf, EventsOf, Advance, NewMarks, RecordOf;
    var k := |arms| - 1;
    EarlierEnded(inp, n);
    EndedKeep(inp, arms[..k], n);
    LastRecord(inp, arms, n + 1);
    CourseAdvances(inp, arms[k], n);
    MarksAdvance(inp, arms[k], n);
  }

  lemma NewRecord(inp: Inputs, arms: seq<Signal>, i: nat)
    requires inp.Valid() && i < |inp.bars| && ArmsValid(arms, i + 1) && Eligible(inp, i)
    ensures var more, sig := arms + [inp.cands[i].value], inp.cands[i].value;
            var P, Q, marks := OrdersOf(inp, arms, i + 1), EventsOf(inp, arms, i + 1), [AtClose(inp.bars, Armed, i)];
            && ArmsValid(more, i + 1)
            && OrdersOf(inp, more, i + 1)
               == P + [RecordOf(sig, |P|, Waiting, i + 1, inp.rules, []).(eventIDs := Span(|Q|, |marks|))]
            && EventsOf(inp, more, i + 1) == Q + Tagged(|P|, |Q|, marks)
  {
    hide CourseOf, OrdersOf, EventsOf, RecordOf;
    var more, sig := arms + [inp.cands[i].value], inp.cands[i].value;
    assert more[..|arms|] == arms;
    LastRecord(inp, more, i + 1);
    NewCourse(inp, sig, i + 1);
    assert OpportunityMarks(inp.bars, i, 0) == [];
    assert MarksOf(inp, sig, i + 1) == [AtClose(inp.bars, Armed, i)];
  }

  lemma AgeShown(inp: Inputs, arms: seq<Signal>, n: nat)
    requires inp.Valid() && n <= |inp.bars| && ArmsValid(arms, n) && arms != []
    requires CourseOf(inp.bars, inp.rules, arms[|arms| - 1], n).Waiting?
    ensures OrdersOf(inp, arms, n)[|arms| - 1].pendingAge == n - 1 - arms[|arms| - 1].signalIdx
  {
    hide CourseOf;
  }

  lemma NoRows(inp: Inputs)
    requires inp.Valid()
    ensures ArmsFrom(inp, 0, 0) == []
    ensures OrdersOf(inp, [], 0) == [] && EventsOf(inp, [], 0) == []
  {
  }

  /** Why a position held at the close of row i, filled on row f, is to leave. */
  function QueueReason(inp: Inputs, sig: Signal, f: nat, i: nat): Option<Reason>
    requires i < |inp.bars|
  {
    if f == i && ClosesBeyondStop(sig, inp.bars[i]) then Some(StopActivatedAtClose)
    else if i - f >= inp.rules.maxHold then Some(MaxHold)
    else None
  }

  /** What the close of row i makes of a held position: its course, its record, its events. */
  lemma HeldOutcome(inp: Inputs, sig: Signal, c: Course, i: nat, id: nat)
    requires inp.Valid() && sig.signalIdx < i < |inp.bars|
    requires c.Waiting? ==> EntryOf(sig, inp.bars[i]).Some?
    requires c.Waiting? || (c.Held? && sig.signalIdx < c.f < i && BracketOf(sig, inp.bars[i]).None?)
    ensures var f, d := if c.Waiting? then i else c.f, Advance(inp.bars, inp.rules, sig, c, i);
            var o := EntryRecord(inp.bars, sig, RecordOf(sig, id, c, i, inp.rules, []), c, i);
            var shown := if c.Waiting? then o.(bracketIdx := Some(i)) else o;
            var why := QueueReason(inp, sig, f, i);
            && o.sig == sig && o.fillIdx == Some(f)
            && (if why.None? then d.Held? else d.Leaving? && d.q == Queued(why.value, i, inp.bars[i].closeT, i + 1))
            && RecordOf(sig, id, d, i + 1, inp.rules, []) == (if why.Some? then shown.(status := QueuedExit) else shown)
            && NewMarks(inp.bars, inp.rules, sig, c, i)
               == EntryMarks(inp.bars, sig, c, i)
                  + (if c.Waiting? then [AtClose(inp.bars, BracketCreated, i)] else [])
                  + (if why.Some? then [AtClose(inp.bars, ExitQueued(why.value), i)] else [])
  {
    hide EntryOf, BracketOf, OpportunityMark, PriceMark, ClosesBeyondStop, AtClose;
  }

  class Portfolio {
    const inp: Inputs
    var orders: seq<Order>
    var events: seq<Event>
    var pending: int
    var position: int
    var queued: Option<Queued>
    var states: seq<RowState>

    constructor (inp: Inputs)
      ensures this.inp == inp
      ensures orders == [] && events == [] && states == [] && pending == -1 && position == -1 && queued == None
    {
      this.inp := inp;
      orders, events, states := [], [], [];
      pending, position, queued := -1, -1, None;
    }

    /** The last order is o with these marks; everything before it is P and Q. */
    ghost predicate Shows(P: seq<Order>, Q: seq<Event>, o: Order, marks: seq<Mark>)
      reads `orders, `events
    {
      && orders == P + [o.(eventIDs := Span(|Q|, |marks|))]
      && events == Q + Tagged(|P|, |Q|, marks)
    }

    /** The three live variables agree with the course of the last order. */
    ghost predicate Points(c: Course, id: nat)
      reads `pending, `position, `queued
    {
      && pending == (if c.Waiting? then id else -1)
      && position == (if c.Held? || c.Leaving? then id else -1)
      && queued == (if c.Leaving? then Some(c.q) else None)
    }

    ghost predicate PointsAt(arms: seq<Signal>, n: nat)
      requires inp.Valid() && n <= |inp.bars| && ArmsValid(arms, n)
      reads `pending, `position, `queued
    {
      if arms == [] then pending == -1 && position == -1 && queued == None
      else Points(CourseOf(inp.bars, inp.rules, arms[|arms| - 1], n), |arms| - 1)
    }

    /** After n rows the variables hold what the searches over those rows say. */
    ghost predicate Matches(n: nat)
      reads this
    {
      && inp.Valid() && n <= |inp.bars|
      && var arms := ArmsFrom(inp, 0, n);
      && orders == OrdersOf(inp, arms, n)
      && events == EventsOf(inp, arms, n)
      && PointsAt(arms, n)
    }

    method AddEvent(id: nat, mark: Mark, ghost P: seq<Order>, ghost Q: seq<Event>, ghost o: Order,
                    ghost marks: seq<Mark>)
      requires Shows(P, Q, o, marks) && id == |P|
      modifies `orders, `events
      ensures Shows(P, Q, o, marks + [mark])
    {
      events := events + [Event(|events|, id, mark)];
      orders := orders[id := orders[id].(eventIDs := orders[id].eventIDs + [|events| - 1])];
      assert Span(|Q|, |marks| + 1) == Span(|Q|, |marks|) + [|Q| + |marks|];
      assert Tagged(id, |Q|, marks + [mark]) == Tagged(id, |Q|, marks) + [Event(|Q| + |marks|, id, mark)];
    }

    method ClosePosition(i: nat, price: real, reason: Reason, atOpen: bool,
                         ghost P: seq<Order>, ghost Q: seq<Event>, ghost o: Order, ghost marks: seq<Mark>)
      requires i < |inp.bars| && position == |P| && Shows(P, Q, o, marks)
      modifies `orders, `events, `position, `queued
      ensures position == -1 && queued == None
      ensures Shows(P, Q, o.(status := Closed, exitIdx := Some(i), exit := Some(price), reason := Some(reason)),
                    marks + [PriceMark(inp.bars, ClosedBy(reason), i, atOpen, price)])
    {
      var id := position;
      orders := orders[id := orders[id].(status := Closed, exitIdx := Some(i), exit := Some(price),
                                         reason := Some(reason))];
      var when := if atOpen then Point(inp.bars[i].openT) else Crossing(inp.bars[i].openT, inp.bars[i].closeT);
      AddEvent(id, Mark(ClosedBy(reason), i, when, Some(price)),
               P, Q, o.(status := Closed, exitIdx := Some(i), exit := Some(price), reason := Some(reason)), marks);
      position := -1;
      queued := None;
    }

    /** A queued exit fills at its open; otherwise an established bracket may close the position. */
    method ExitPhase(i: nat, ghost P: seq<Order>, ghost Q: seq<Event>, ghost sig: Signal, ghost c: Course,
                     ghost marks: seq<Mark>)
      requires inp.Valid() && sig.signalIdx < i < |inp.bars|
      requires Shows(P, Q, RecordOf(sig, |P|, c, i, inp.rules, []), marks) && Points(c, |P|)
      requires c.Leaving? ==> c.q.nextOpen == i
      requires c.Held? || c.Leaving? ==> sig.signalIdx < c.f < i
      modifies `orders, `events, `position, `queued
      ensures var d := Advance(inp.bars, inp.rules, sig, c, i);
              if d.Done? then
                && Points(d, |P|)
                && Shows(P, Q, RecordOf(sig, |P|, d, i + 1, inp.rules, []),
                         marks + NewMarks(inp.bars, inp.rules, sig, c, i))
              else
                Points(c, |P|) && Shows(P, Q, RecordOf(sig, |P|, c, i, inp.rules, []), marks)
    {
      hide BracketOf, EntryOf, AtClose, OpportunityMark, FillMarks;
      ghost var o := RecordOf(sig, |P|, c, i, inp.rules, []);
      if position >= 0 && queued.Some? && queued.value.nextOpen == i {
        ClosePosition(i, inp.bars[i].open, queued.value.reason, true, P, Q, o, marks);
      }
      if position >= 0 && i > orders[position].fillIdx.value {
        assert orders[position].sig == sig;
        var hit := Bracket(orders[position].sig, inp.bars[i]);
        if hit.Some? {
          ClosePosition(i, hit.value.price, Barrier(hit.value.reason), hit.value.atOpen, P, Q, o, marks);
        }
      }
      if c.Done? {
        assert marks + [] == marks;
      }
    }

    /** A pending stop gets its chance on row i. */
    method EntryPhase(i: nat, ghost P: seq<Order>, ghost Q: seq<Event>, ghost sig: Signal, ghost c: Course,
                      ghost marks: seq<Mark>)
      requires inp.Valid() && sig.signalIdx < i < |inp.bars|
      requires Shows(P, Q, RecordOf(sig, |P|, c, i, inp.rules, []), marks) && Points(c, |P|)
      requires position < 0 && pending >= 0
      modifies `orders, `events, `pending, `position
      ensures queued == old(queued)
      ensures var filled := c.Waiting? && EntryOf(sig, inp.bars[i]).Some?;
              && pending == (if filled then -1 else old(pending))
              && position == (if filled then |P| else old(position))
      ensures Shows(P, Q, EntryRecord(inp.bars, sig, RecordOf(sig, |P|, c, i, inp.rules, []), c, i),
                    marks + EntryMarks(inp.bars, sig, c, i))
    {
      hide EntryOf, FillMarks;
      ghost var o := RecordOf(sig, |P|, c, i, inp.rules, []);
      assert marks + [] == marks;
      if i > orders[pending].sig.signalIdx {
        var id := pending;
        orders := orders[id := orders[id].(fillOpportunities := orders[id].fillOpportunities + 1)];
        o := o.(fillOpportunities := o.fillOpportunities + 1);
        AddEvent(id, Mark(Opportunity, i, DuringBar(inp.bars[i].openT, inp.bars[i].closeT), None), P, Q, o, marks);
        var fill := EntryOf(orders[id].sig, inp.bars[i]);
        if fill.Some? {
          orders := orders[id := orders[id].(status := Open, fillIdx := Some(i), entry := Some(fill.value.price),
                                             entryAtOpen := fill.value.atOpen)];
          o := o.(status := Open, fillIdx := Some(i), entry := Some(fill.value.price),
                  entryAtOpen := fill.value.atOpen);
          var when := if fill.value.atOpen then Point(inp.bars[i].openT)
                      else Crossing(inp.bars[i].openT, inp.bars[i].closeT);
          AddEvent(id, Mark(Filled, i, when, Some(fill.value.price)), P, Q, o, marks + [OpportunityMark(inp.bars, i)]);
          position := id;
          pending := -1;
          assert marks + [OpportunityMark(inp.bars, i)]
                 + [PriceMark(inp.bars, Filled, i, fill.value.atOpen, fill.value.price)]
              == marks + EntryMarks(inp.bars, sig, c, i);
        }
      }
    }

    /** The close phase of a held position: its bracket appears, or its exit is queued. */
    method HoldPhase(i: nat, ghost P: seq<Order>, ghost Q: seq<Event>, ghost sig: Signal, ghost c: Course,
                     ghost marks: seq<Mark>)
      requires inp.Valid() && sig.signalIdx < i < |inp.bars|
      requires Shows(P, Q, EntryRecord(inp.bars, sig, RecordOf(sig, |P|, c, i, inp.rules, []), c, i),
                     marks + EntryMarks(inp.bars, sig, c, i))
      requires pending == -1 && position == |P| && queued == None
      requires c.Waiting? ==> EntryOf(sig, inp.bars[i]).Some?
      requires c.Waiting? || (c.Held? && sig.signalIdx < c.f < i && BracketOf(sig, inp.bars[i]).None?)
      modifies `orders, `events, `queued
      ensures var d := Advance(inp.bars, inp.rules, sig, c, i);
              && Points(d, |P|)
              && Shows(P, Q, RecordOf(sig, |P|, d, i + 1, inp.rules, []),
                       marks + NewMarks(inp.bars, inp.rules, sig, c, i))
    {
      hide EntryOf, BracketOf, ClosesBeyondStop, Advance, RecordOf, NewMarks, EntryRecord, EntryMarks;
      HeldOutcome(inp, sig, c, i, |P|);
      var id := position;
      ghost var o := EntryRecord(inp.bars, sig, RecordOf(sig, |P|, c, i, inp.rules, []), c, i);
      ghost var m := marks + EntryMarks(inp.bars, sig, c, i);
      if i == orders[id].fillIdx.value {
        orders := orders[id := orders[id].(bracketIdx := Some(i))];
        o := o.(bracketIdx := Some(i));
        AddEvent(id, Mark(BracketCreated, i, Point(inp.bars[i].closeT), None), P, Q, o, m);
        m := m + [AtClose(inp.bars, BracketCreated, i)];
        if ClosesBeyondStop(orders[id].sig, inp.bars[i]) {
          queued := Some(Queued(StopActivatedAtClose, i, inp.bars[i].closeT, i + 1));
        }
      }
      if queued.None? && i - orders[id].fillIdx.value >= inp.rules.maxHold {
        queued := Some(Queued(MaxHold, i, inp.bars[i].closeT, i + 1));
      }
      if queued.Some? && queued.value.row == i {
        orders := orders[id := orders[id].(status := QueuedExit)];
        o := o.(status := QueuedExit);
        AddEvent(id, Mark(ExitQueued(queued.value.reason), i, Point(inp.bars[i].closeT), None), P, Q, o, m);
        m := m + [AtClose(inp.bars, ExitQueued(queued.value.reason), i)];
      }
      assert m == marks + NewMarks(inp.bars, inp.rules, sig, c, i);
    }

    /** The close phase of a pending order: one bar older, and expired when too old. */
    method AgePhase(i: nat, ghost P: seq<Order>, ghost Q: seq<Event>, ghost sig: Signal, ghost marks: seq<Mark>)
      requires inp.Valid() && sig.signalIdx < i < |inp.bars|
      requires i - sig.signalIdx <= inp.rules.validBars + 1
      requires Shows(P, Q, EntryRecord(inp.bars, sig, RecordOf(sig, |P|, Waiting, i, inp.rules, []), Waiting, i),
                     marks + EntryMarks(inp.bars, sig, Waiting, i))
      requires pending == |P| && position == -1 && queued == None && EntryOf(sig, inp.bars[i]).None?
      modifies `orders, `events, `pending
      ensures var d := Advance(inp.bars, inp.rules, sig, Waiting, i);
              && Points(d, |P|)
              && Shows(P, Q, RecordOf(sig, |P|, d, i + 1, inp.rules, []),
                       marks + NewMarks(inp.bars, inp.rules, sig, Waiting, i))
    {
      hide EntryOf, BracketOf, OpportunityMark, PriceMark;
      var id := pending;
      ghost var o := EntryRecord(inp.bars, sig, RecordOf(sig, |P|, Waiting, i, inp.rules, []), Waiting, i);
      ghost var m := marks + EntryMarks(inp.bars, sig, Waiting, i);
      orders := orders[id := orders[id].(pendingAge := orders[id].pendingAge + 1)];
      o := o.(pendingAge := o.pendingAge + 1);
      if orders[id].pendingAge > inp.rules.validBars {
        orders := orders[id := orders[id].(status := Expired)];
        o := o.(status := Expired);
        AddEvent(id, Mark(Lapse, i, Point(inp.bars[i].closeT), None), P, Q, o, m);
        m := m + [AtClose(inp.bars, Lapse, i)];
        pending := -1;
      }
      assert m == marks + NewMarks(inp.bars, inp.rules, sig, Waiting, i);
    }

    /** A flat portfolio turns the row's candidate into a pending order. */
    method Arm(i: nat)
      requires inp.Valid() && i < |inp.bars| && Eligible(inp, i)
      modifies `orders, `events, `pending
      ensures pending == |old(orders)|
      ensures Shows(old(orders), old(events),
                    RecordOf(inp.cands[i].value, |old(orders)|, Waiting, i + 1, inp.rules, []),
                    [AtClose(inp.bars, Armed, i)])
    {
      ghost var P, Q := orders, events;
      pending := |orders|;
      orders := orders + [Order(inp.cands[i].value, pending, Pending, 0, 0, None, None, false, None, None, None, None,
                                [])];
      ghost var o := RecordOf(inp.cands[i].value, |P|, Waiting, i + 1, inp.rules, []);
      assert Shows(P, Q, o, []) by {
        assert Span(|Q|, 0) == [];
        assert Tagged(|P|, |Q|, []) == [];
      }
      AddEvent(pending, Mark(Armed, i, Point(inp.bars[i].closeT), None), P, Q, o, []);
      assert [] + [AtClose(inp.bars, Armed, i)] == [AtClose(inp.bars, Armed, i)];
    }

    /** The phases of row i for the order that is live, if any; arming comes after. */
    method Carry(i: nat)
      requires Matches(i) && i < |inp.bars|
      modifies `orders, `events, `pending, `position, `queued
      ensures var arms := ArmsFrom(inp, 0, i);
              orders == OrdersOf(inp, arms, i + 1) && events == EventsOf(inp, arms, i + 1) && PointsAt(arms, i + 1)
    {
      hide CourseOf, EntryOf, BracketOf, MarksOf, RecordOf, ArmsFrom, OrdersOf, EventsOf, NewMarks;
      ghost var arms := ArmsFrom(inp, 0, i);
      ghost var P: seq<Order>, Q: seq<Event>, sig: Signal, c, m: seq<Mark>
        := [], [], Signal(0, Long, 0.0, 0.0, 0.0), Lapsed(0), [];
      EarlierEnded(inp, i);
      if arms != [] {
        ghost var k := |arms| - 1;
        P, Q, sig := OrdersOf(inp, arms[..k], i), EventsOf(inp, arms[..k], i), arms[k];
        c, m := CourseOf(inp.bars, inp.rules, sig, i), MarksOf(inp, sig, i);
        LastRecord(inp, arms, i);
        CourseNow(inp, sig, i);
        CourseAdvances(inp, sig, i);
        assert m + [] == m;
      } else {
        EndedKeep(inp, arms, i);
      }
      if position >= 0 {
        ExitPhase(i, P, Q, sig, c, m);
      }
      if position < 0 && pending >= 0 {
        EntryPhase(i, P, Q, sig, c, m);
      }
      if position >= 0 {
        HoldPhase(i, P, Q, sig, c, m);
      } else if pending >= 0 {
        AgePhase(i, P, Q, sig, m);
      }
      if arms != [] {
        if c.Ended() {
          AllEnded(inp, i);
          EndedKeep(inp, arms, i);
        } else {
          LiveRecord(inp, arms, i);
        }
      }
    }

    /** The state recorded after the close of row i. */
    method Observe(i: nat) returns (state: RowState)
      requires i < |inp.bars| && Matches(i + 1)
      ensures state == StateOf(inp, i)
    {
      hide CourseOf, ArmsFrom, OrdersOf, EventsOf;
      state := RowState(i, inp.bars[i].closeT, IsFlat, None, None, 0, None);
      if pending >= 0 {
        AgeShown(inp, ArmsFrom(inp, 0, i + 1), i + 1);
        state := state.(status := IsPending, pendingID := Some(pending), pendingAge := orders[pending].pendingAge);
      }
      if position >= 0 {
        state := state.(status := IsOpen, positionID := Some(position));
      }
      if queued.Some? {
        state := state.(status := IsQueuedExit, queued := queued);
      }
    }

    /** One row: the live order's phases, then the row's candidate if nothing is live. */
    method Row(i: nat)
      requires Matches(i) && i < |inp.bars|
      modifies this
      ensures Matches(i + 1)
      ensures states == old(states) + [StateOf(inp, i)]
    {
      hide CourseOf, EntryOf, BracketOf, MarksOf, RecordOf, ArmsFrom, OrdersOf, EventsOf;
      ghost var arms := ArmsFrom(inp, 0, i);
      ArmsAdvance(inp, 0, i);
      Carry(i);
      if position < 0 && pending < 0 && inp.bars[i].openT >= inp.tradeFrom && inp.cands[i].Some? {
        Arm(i);
        NewRecord(inp, arms, i);
        NewCourse(inp, inp.cands[i].value, i + 1);
        assert ArmsFrom(inp, 0, i + 1) == arms + [inp.cands[i].value];
        assert PointsAt(arms + [inp.cands[i].value], i + 1);
        assert Matches(i + 1);
      } else {
        assert ArmsFrom(inp, 0, i + 1) == arms + [] == arms;
        assert Matches(i + 1);
      }
      var state := Observe(i);
      states := states + [state];
    }

    /** adaptiveFlagPortfolioFrom: every row in turn, ending without liquidation. */
    method Run() returns (terminal: RowState)
      requires inp.Valid()
      requires orders == [] && events == [] && states == [] && pending == -1 && position == -1 && queued == None
      modifies this
      ensures orders == OrdersOf(inp, ArmsFrom(inp, 0, |inp.bars|), |inp.bars|)
      ensures events == EventsOf(inp, ArmsFrom(inp, 0, |inp.bars|), |inp.bars|)
      ensures |states| == |inp.bars| && forall i :: 0 <= i < |states| ==> states[i] == StateOf(inp, i)
      ensures terminal == if states == [] then RowState(-1, 0, IsFlat, None, None, 0, None) else states[|states| - 1]
    {
      hide StateOf, OrdersOf, EventsOf, ArmsFrom, CourseOf;
      terminal := RowState(-1, 0, IsFlat, None, None, 0, None);
      NoRows(inp);
      for i := 0 to |inp.bars|
        invariant Matches(i)
        invariant |states| == i && forall j :: 0 <= j < i ==> states[j] == StateOf(inp, j)
        invariant terminal == if i == 0 then RowState(-1, 0, IsFlat, None, None, 0, None) else states[i - 1]
      {
        Row(i);
        terminal := states[i];
      }
    }
  }
}
