/**
  What holds of every adaptive-flag run: the shape of each order's life, the event log's
  indexing, which rows arm an order, and that later rows never change earlier ones.
*/
module AdaptiveTheorems {
  import opened Common
  import opened AdaptiveBracket
  import opened AdaptiveFlag
  import AdaptivePortfolio

  // ----- the result of a whole run

  function Arms(inp: Inputs, n: nat): seq<Signal>
    requires inp.Valid() && n <= |inp.bars|
  {
    ArmsFrom(inp, 0, n)
  }

  /** The order list after n rows, as Portfolio.Run leaves it for n == |bars|. */
  function Orders(inp: Inputs, n: nat): seq<Order>
    requires inp.Valid() && n <= |inp.bars|
  {
    OrdersOf(inp, Arms(inp, n), n)
  }

  function Events(inp: Inputs, n: nat): seq<Event>
    requires inp.Valid() && n <= |inp.bars|
  {
    EventsOf(inp, Arms(inp, n), n)
  }

  lemma {:induction false} OrderAt(inp: Inputs, arms: seq<Signal>, n: nat, k: nat)
    requires inp.Valid() && n <= |inp.bars| && ArmsValid(arms, n) && k < |arms|
    ensures OrdersOf(inp, arms, n)[k] == OrderOf(inp, arms[k], k, |EventsOf(inp, arms[..k], n)|, n)
  {
    hide CourseOf, MarksOf, OrderOf;
    if k < |arms| - 1 {
      OrderAt(inp, arms[..|arms| - 1], n, k);
      assert arms[..|arms| - 1][..k] == arms[..k];
    }
  }

  // ----- one order's life

  /** Only the last order can still be pending, open or waiting for its queued exit. */
  lemma OnlyLastUnfinished(inp: Inputs, n: nat, k: nat)
    requires inp.Valid() && n <= |inp.bars| && k + 1 < |Orders(inp, n)|
    ensures Orders(inp, n)[k].status == Closed || Orders(inp, n)[k].status == Expired
  {
    hide CourseOf, MarksOf, OrdersOf, EventsOf;
    var arms := ArmsFrom(inp, 0, n);
    OrderAt(inp, arms, n, k);
    OnlyLastLives(inp, 0, n);
    assert EndedBefore(inp, arms, k, n);
  }

  /**
    The counts and rows of an order: it is the candidate of its signal row; unfilled it had one
    entry opportunity per row until it expired after exactly validBars + 1 of them; filled, it
    filled on the first row that traded at its trigger.
  */
  ghost predicate EntryLife(inp: Inputs, o: Order, n: nat)
    requires inp.Valid() && n <= |inp.bars|
  {
    var s, V := o.sig.signalIdx, inp.rules.validBars;
    && s < n && inp.tradeFrom <= inp.bars[s].openT && inp.cands[s] == Some(o.sig)
    && (o.status == Pending ==> o.fillOpportunities == o.pendingAge == n - 1 - s <= V)
    && (o.status == Expired ==> o.fillOpportunities == o.pendingAge == V + 1 && s + V + 1 < n)
    && (o.fillIdx.None? <==> o.status == Pending || o.status == Expired)
    && s + o.fillOpportunities < n
    && (o.fillIdx.None? ==> forall j :: s < j <= s + o.fillOpportunities ==> EntryOf(o.sig, inp.bars[j]).None?)
    && (o.fillIdx.Some? ==>
          var f := o.fillIdx.value;
          && f - s == o.fillOpportunities == o.pendingAge + 1 && 1 <= f - s <= V + 1 && f < n
          && o.bracketIdx == Some(f)
          && o.entry.Some? && EntryOf(o.sig, inp.bars[f]) == Some(Fill(o.entry.value, o.entryAtOpen))
          && forall j :: s < j < f ==> EntryOf(o.sig, inp.bars[j]).None?)
  }

  lemma EntryCounts(inp: Inputs, n: nat, k: nat)
    requires inp.Valid() && n <= |inp.bars| && k < |Orders(inp, n)|
    ensures Orders(inp, n)[k].id == k
    ensures EntryLife(inp, Orders(inp, n)[k], n)
  {
    hide EntryOf, BracketOf, MarksOf, ArmsFrom, OrdersOf, EventsOf, CourseOf, EntryLife, RecordOf;
    var arms := Arms(inp, n);
    OrderAt(inp, arms, n, k);
    ArmsAreCandidates(inp, 0, n);
    RecordLife(inp, arms[k], k, Span(|EventsOf(inp, arms[..k], n)|, |MarksOf(inp, arms[k], n)|), n);
    RecordId(arms[k], k, CourseOf(inp.bars, inp.rules, arms[k], n), n, inp.rules,
             Span(|EventsOf(inp, arms[..k], n)|, |MarksOf(inp, arms[k], n)|));
  }

  lemma RecordId(sig: Signal, id: nat, c: Course, n: nat, rules: Rules, ids: seq<nat>)
    requires sig.signalIdx < n
    ensures RecordOf(sig, id, c, n, rules, ids).id == id
  {
  }

  lemma RecordLife(inp: Inputs, sig: Signal, id: nat, ids: seq<nat>, n: nat)
    requires inp.Valid() && sig.signalIdx < n <= |inp.bars|
    requires Eligible(inp, sig.signalIdx) && inp.cands[sig.signalIdx] == Some(sig)
    ensures EntryLife(inp, RecordOf(sig, id, CourseOf(inp.bars, inp.rules, sig, n), n, inp.rules, ids), n)
  {
    hide EntryOf, BracketOf, CourseOf, HeldFrom, FirstFill;
    CourseShape(inp, sig, n);
    CourseInRange(inp, sig, n);
  }

  lemma {:induction false} ArmsAreCandidates(inp: Inputs, lo: nat, n: nat)
    requires inp.Valid() && n <= |inp.bars|
    ensures forall k :: 0 <= k < |ArmsFrom(inp, lo, n)| ==>
              var sig := ArmsFrom(inp, lo, n)[k];
              Eligible(inp, sig.signalIdx) && inp.cands[sig.signalIdx] == Some(sig)
    decreases n - lo
  {
    hide CourseOf, ArmsFrom, FirstEligible;
    ArmsUnfold(inp, lo, n);
    if FirstEligible(inp, lo, n).Some? {
      var sig := inp.cands[FirstEligible(inp, lo, n).value].value;
      var c := CourseOf(inp.bars, inp.rules, sig, n);
      CourseEnds(inp, sig, n);
      if c.Ended() {
        ArmsAreCandidates(inp, c.EndRow(), n);
      }
    }
  }

  lemma CourseShape(inp: Inputs, sig: Signal, n: nat)
    requires inp.Valid() && sig.signalIdx < n <= |inp.bars|
    ensures var c := CourseOf(inp.bars, inp.rules, sig, n);
            var s, last := sig.signalIdx, sig.signalIdx + inp.rules.validBars + 1;
            && (c.Waiting? ==> n <= last && FirstFill(inp.bars, sig, s + 1, n).None?)
            && (c.Lapsed? ==> c.end == last < n && FirstFill(inp.bars, sig, s + 1, last + 1).None?)
            && (c.Held? || c.Leaving? || c.Done? ==>
                  FirstFill(inp.bars, sig, s + 1, Least(n, last + 1)) == Some(c.f)
                  && EntryOf(sig, inp.bars[c.f]) == Some(c.fill)
                  && c == HeldFrom(inp.bars, inp.rules, sig, c.f, n))
  {
    hide EntryOf, BracketOf, FirstFill;
  }

  /** The bar closes at the stop or beyond it. */
  predicate StopPassed(sig: Signal, b: FlagBar) {
    match sig.side
    case Long => b.close <= sig.stop
    case Short => sig.stop <= b.close
  }

  /**
    The end of a filled order: a stop already passed at the entry close leaves at the next
    open; otherwise the first barrier met on the next maxHold rows closes it; otherwise it is
    queued at the close of row f + maxHold and leaves at the next open.
  */
  ghost predicate ExitLife(inp: Inputs, o: Order, n: nat)
    requires inp.Valid() && n <= |inp.bars| && o.fillIdx.Some? && o.fillIdx.value < n
  {
    var f, H := o.fillIdx.value, inp.rules.maxHold;
    && (o.exitIdx.Some? <==> o.status == Closed)
    && (o.status == Closed ==>
          && o.exit.Some? && o.reason.Some? && f < o.exitIdx.value < n
          && ClosedLife(inp, o, f, o.exitIdx.value, o.reason.value, o.exit.value))
    && (o.status == QueuedExit ==> n == (if StopPassed(o.sig, inp.bars[f]) then f + 1 else f + H + 1))
    && (o.status == Open ==> n <= f + H && forall j :: f < j < n ==> BracketOf(o.sig, inp.bars[j]).None?)
  }

  ghost predicate ClosedLife(inp: Inputs, o: Order, f: nat, x: nat, reason: Reason, price: real)
    requires f < x < |inp.bars|
  {
    var H := inp.rules.maxHold;
    && x <= f + H + 1
    && (reason == StopActivatedAtClose <==> StopPassed(o.sig, inp.bars[f]))
    && (reason != StopActivatedAtClose ==>
          forall j :: f < j < x && j <= f + H ==> BracketOf(o.sig, inp.bars[j]).None?)
    && match reason
       case StopActivatedAtClose => x == f + 1 && price == inp.bars[x].open
       case MaxHold => x == f + H + 1 && price == inp.bars[x].open
       case Barrier(hit) =>
         var met := BracketOf(o.sig, inp.bars[x]);
         x <= f + H && met.Some? && met.value.price == price && met.value.reason == hit
  }

  lemma ExitRules(inp: Inputs, n: nat, k: nat)
    requires inp.Valid() && n <= |inp.bars| && k < |Orders(inp, n)| && Orders(inp, n)[k].fillIdx.Some?
    ensures Orders(inp, n)[k].fillIdx.value < n
    ensures ExitLife(inp, Orders(inp, n)[k], n)
  {
    hide EntryOf, BracketOf, ClosesBeyondStop, MarksOf, ArmsFrom, OrdersOf, EventsOf, CourseOf, ExitLife;
    var arms := Arms(inp, n);
    OrderAt(inp, arms, n, k);
    CourseShape(inp, arms[k], n);
    CourseInRange(inp, arms[k], n);
    var c := CourseOf(inp.bars, inp.rules, arms[k], n);
    HeldLife(inp, arms[k], k, Span(|EventsOf(inp, arms[..k], n)|, |MarksOf(inp, arms[k], n)|), c.f, n);
  }

  lemma HeldLife(inp: Inputs, sig: Signal, id: nat, ids: seq<nat>, f: nat, n: nat)
    requires inp.Valid() && sig.signalIdx < f < n <= |inp.bars| && EntryOf(sig, inp.bars[f]).Some?
    ensures var o := RecordOf(sig, id, HeldFrom(inp.bars, inp.rules, sig, f, n), n, inp.rules, ids);
            o.fillIdx == Some(f) && ExitLife(inp, o, n)
  {
    hide EntryOf, BracketOf, ClosesBeyondStop, StopPassed, FirstHit;
    PassedIs(sig, inp.bars[f]);
  }

  lemma PassedIs(sig: Signal, b: FlagBar)
    ensures ClosesBeyondStop(sig, b) <==> StopPassed(sig, b)
  {
  }

  // ----- the event log

  function Kinds(marks: seq<Mark>): (r: seq<Kind>)
    ensures |r| == |marks| && forall j :: 0 <= j < |marks| ==> r[j] == marks[j].kind
  {
    seq(|marks|, j requires 0 <= j < |marks| => marks[j].kind)
  }

  function Repeated(kind: Kind, count: nat): (r: seq<Kind>)
    ensures |r| == count && forall j :: 0 <= j < count ==> r[j] == kind
  {
    seq(count, _ => kind)
  }

  /** The kinds of an order's events, read off the order and its entry bar. */
  function Story(bars: seq<FlagBar>, o: Order): seq<Kind>
    requires o.fillIdx.Some? ==> o.fillIdx.value < |bars|
  {
    [Armed] + Repeated(Opportunity, o.fillOpportunities) + Ending(bars, o)
  }

  function Ending(bars: seq<FlagBar>, o: Order): seq<Kind>
    requires o.fillIdx.Some? ==> o.fillIdx.value < |bars|
  {
    match o.status
    case Pending => []
    case Expired => [Lapse]
    case Open => [Filled, BracketCreated]
    case QueuedExit =>
      [Filled, BracketCreated]
      + if o.fillIdx.Some? && ClosesBeyondStop(o.sig, bars[o.fillIdx.value]) then [ExitQueued(StopActivatedAtClose)]
        else [ExitQueued(MaxHold)]
    case Closed =>
      match o.reason
      case Some(why) => [Filled, BracketCreated] + (if why.Barrier? then [] else [ExitQueued(why)]) + [ClosedBy(why)]
      case None => []
  }

  lemma MarksTellStory(inp: Inputs, sig: Signal, id: nat, first: nat, n: nat)
    requires inp.Valid() && sig.signalIdx < n <= |inp.bars|
    ensures var o := OrderOf(inp, sig, id, first, n);
            (o.fillIdx.Some? ==> o.fillIdx.value < |inp.bars|) && Kinds(MarksOf(inp, sig, n)) == Story(inp.bars, o)
  {
    hide EntryOf, BracketOf, CourseOf, ClosesBeyondStop, HeldFrom, FirstFill, Ending, TailMarks;
    CourseInRange(inp, sig, n);
    var c := CourseOf(inp.bars, inp.rules, sig, n);
    var count := Opportunities(sig, c, n, inp.rules);
    TailEnds(inp, sig, id, Span(first, |MarksOf(inp, sig, n)|), n);
    assert Kinds(OpportunityMarks(inp.bars, sig.signalIdx, count)) == Repeated(Opportunity, count);
    assert Kinds(MarksOf(inp, sig, n)) == [Armed] + Repeated(Opportunity, count) + Kinds(TailMarks(inp.bars, c));
  }

  lemma TailEnds(inp: Inputs, sig: Signal, id: nat, ids: seq<nat>, n: nat)
    requires inp.Valid() && sig.signalIdx < n <= |inp.bars|
    ensures var c := CourseOf(inp.bars, inp.rules, sig, n);
            var o := RecordOf(sig, id, c, n, inp.rules, ids);
            (CourseInRange(inp, sig, n);
             Kinds(TailMarks(inp.bars, c)) == Ending(inp.bars, o))
  {
    hide EntryOf, BracketOf, CourseOf, ClosesBeyondStop, FirstHit;
    CourseInRange(inp, sig, n);
    CourseShape(inp, sig, n);
    var c := CourseOf(inp.bars, inp.rules, sig, n);
    if c.Leaving? {
      LeavingWhy(inp, sig, c.f, n);
    }
  }

  lemma LeavingWhy(inp: Inputs, sig: Signal, f: nat, n: nat)
    requires inp.Valid() && f < n <= |inp.bars| && EntryOf(sig, inp.bars[f]).Some?
    requires HeldFrom(inp.bars, inp.rules, sig, f, n).Leaving?
    ensures HeldFrom(inp.bars, inp.rules, sig, f, n).q.reason
         == if ClosesBeyondStop(sig, inp.bars[f]) then StopActivatedAtClose else MaxHold
  {
  }

  /** Where the events of order k sit in the log, and that no other event is its own. */
  ghost predicate LaidOut(log: seq<Event>, k: nat, first: nat, marks: seq<Mark>) {
    && first + |marks| <= |log|
    && (forall j :: 0 <= j < |marks| ==> log[first + j] == Event(first + j, k, marks[j]))
    && (forall e :: 0 <= e < |log| && log[e].orderID == k ==> first <= e < first + |marks|)
  }

  ghost predicate Numbered(log: seq<Event>, orders: nat) {
    forall e :: 0 <= e < |log| ==> log[e].id == e && log[e].orderID < orders
  }

  lemma {:induction false} LogNumbered(inp: Inputs, arms: seq<Signal>, n: nat)
    requires inp.Valid() && n <= |inp.bars| && ArmsValid(arms, n)
    ensures Numbered(EventsOf(inp, arms, n), |arms|)
  {
    hide MarksOf;
    if arms != [] {
      LogNumbered(inp, arms[..|arms| - 1], n);
    }
  }

  lemma {:induction false} LogLayout(inp: Inputs, arms: seq<Signal>, n: nat, k: nat)
    requires inp.Valid() && n <= |inp.bars| && ArmsValid(arms, n) && k < |arms|
    ensures LaidOut(EventsOf(inp, arms, n), k, |EventsOf(inp, arms[..k], n)|, MarksOf(inp, arms[k], n))
  {
    hide MarksOf, EventsOf, LaidOut;
    var last := |arms| - 1;
    AdaptivePortfolio.LastRecord(inp, arms, n);
    var before, marks := EventsOf(inp, arms[..last], n), MarksOf(inp, arms[last], n);
    if k < last {
      LogLayout(inp, arms[..last], n, k);
      assert arms[..last][..k] == arms[..k];
      LaidOutLonger(before, k, |EventsOf(inp, arms[..k], n)|, MarksOf(inp, arms[k], n), last, marks);
    } else {
      LogNumbered(inp, arms[..last], n);
      LaidOutLast(before, k, marks);
    }
  }

  lemma LaidOutLonger(log: seq<Event>, k: nat, first: nat, marks: seq<Mark>, later: nat, more: seq<Mark>)
    requires LaidOut(log, k, first, marks) && later != k
    ensures LaidOut(log + Tagged(later, |log|, more), k, first, marks)
  {
  }

  lemma LaidOutLast(log: seq<Event>, k: nat, marks: seq<Mark>)
    requires Numbered(log, k)
    ensures LaidOut(log + Tagged(k, |log|, marks), k, |log|, marks)
  {
  }

  /** EventIDs lists exactly the order's events, in log order, and they tell its story. */
  ghost predicate Indexed(bars: seq<FlagBar>, log: seq<Event>, o: Order, k: nat)
    requires o.fillIdx.Some? ==> o.fillIdx.value < |bars|
  {
    && (forall e: nat :: e in o.eventIDs <==> e < |log| && log[e].orderID == k)
    && (forall i, j :: 0 <= i < j < |o.eventIDs| ==> o.eventIDs[i] < o.eventIDs[j])
    && |o.eventIDs| == |Story(bars, o)|
    && (forall j :: 0 <= j < |o.eventIDs| ==>
          o.eventIDs[j] < |log| && log[o.eventIDs[j]].mark.kind == Story(bars, o)[j])
  }

  lemma IndexedFromLayout(bars: seq<FlagBar>, log: seq<Event>, o: Order, k: nat, first: nat, marks: seq<Mark>)
    requires o.fillIdx.Some? ==> o.fillIdx.value < |bars|
    requires LaidOut(log, k, first, marks) && o.eventIDs == Span(first, |marks|) && Kinds(marks) == Story(bars, o)
    ensures Indexed(bars, log, o, k)
  {
    hide Story;
    var ids := o.eventIDs;
    forall e: nat
      ensures e in ids <==> e < |log| && log[e].orderID == k
    {
      if e < |log| && log[e].orderID == k {
        assert first <= e < first + |marks|;
        assert ids[e - first] == first + (e - first);
      }
      if e in ids {
        var j :| 0 <= j < |ids| && ids[j] == e;
        assert log[first + j] == Event(first + j, k, marks[j]);
      }
    }
    forall j | 0 <= j < |ids|
      ensures ids[j] < |log| && log[ids[j]].mark.kind == Story(bars, o)[j]
    {
      assert log[first + j] == Event(first + j, k, marks[j]);
    }
  }

  /**
    For every order of every run: its eventIDs list exactly its events in the log, and these are
    armed, its entry opportunities, then expiry, or fill, bracket, at most one queued exit, close.
  */
  lemma LogIsIndexed(inp: Inputs, n: nat, k: nat)
    requires inp.Valid() && n <= |inp.bars| && k < |Orders(inp, n)|
    ensures Numbered(Events(inp, n), |Orders(inp, n)|)
    ensures var o := Orders(inp, n)[k];
            (o.fillIdx.Some? ==> o.fillIdx.value < |inp.bars|) && Indexed(inp.bars, Events(inp, n), o, k)
  {
    hide CourseOf, ArmsFrom, OrdersOf, EventsOf, MarksOf, RecordOf, Story, Indexed, LaidOut;
    var arms := Arms(inp, n);
    OrderAt(inp, arms, n, k);
    LogNumbered(inp, arms, n);
    LogLayout(inp, arms, n, k);
    var first := |EventsOf(inp, arms[..k], n)|;
    MarksTellStory(inp, arms[k], k, first, n);
    OwnIds(inp, arms[k], k, first, n);
    IndexedFromLayout(inp.bars, Events(inp, n), Orders(inp, n)[k], k, first, MarksOf(inp, arms[k], n));
  }

  lemma OwnIds(inp: Inputs, sig: Signal, id: nat, first: nat, n: nat)
    requires inp.Valid() && sig.signalIdx < n <= |inp.bars|
    ensures OrderOf(inp, sig, id, first, n).eventIDs == Span(first, |MarksOf(inp, sig, n)|)
  {
    hide CourseOf, MarksOf;
  }

  // ----- which rows arm an order

  ghost predicate ArmedAt(arms: seq<Signal>, r: nat) {
    exists k :: 0 <= k < |arms| && arms[k].signalIdx == r
  }

  /** Every order armed before row r has ended by the close of row r. */
  ghost predicate FlatAt(inp: Inputs, arms: seq<Signal>, r: nat, n: nat)
    requires n <= |inp.bars| && ArmsValid(arms, n)
  {
    forall k :: 0 <= k < |arms| && arms[k].signalIdx < r ==> EndedBy(inp, arms[k], r, n)
  }

  ghost predicate EndedBy(inp: Inputs, sig: Signal, r: nat, n: nat)
    requires sig.signalIdx < n <= |inp.bars|
  {
    CourseOf(inp.bars, inp.rules, sig, n).Ended() && CourseOf(inp.bars, inp.rules, sig, n).EndRow() <= r
  }

  /** A row arms an order exactly when its candidate is eligible and nothing is live at its close. */
  lemma {:induction false} ArmsExactlyWhenFlat(inp: Inputs, lo: nat, n: nat, r: nat)
    requires inp.Valid() && lo <= r < n <= |inp.bars|
    ensures ArmedAt(ArmsFrom(inp, lo, n), r) <==> Eligible(inp, r) && FlatAt(inp, ArmsFrom(inp, lo, n), r, n)
    decreases n - lo
  {
    hide CourseOf, ArmsFrom, FirstEligible, Eligible;
    ArmsUnfold(inp, lo, n);
    var arms := ArmsFrom(inp, lo, n);
    var a := FirstEligible(inp, lo, n);
    if a.Some? {
      var sig := arms[0];
      var c := CourseOf(inp.bars, inp.rules, sig, n);
      CourseEnds(inp, sig, n);
      if r < a.value {
        assert !Eligible(inp, r);
      } else if r == a.value {
        assert arms[0].signalIdx == r;
      } else if c.Ended() && c.EndRow() <= r {
        var rest := ArmsFrom(inp, c.EndRow(), n);
        ArmsExactlyWhenFlat(inp, c.EndRow(), n, r);
        assert forall k :: 0 <= k < |rest| ==> rest[k] == arms[k + 1];
        assert FlatAt(inp, arms, r, n) <==> FlatAt(inp, rest, r, n);
        assert ArmedAt(arms, r) <==> ArmedAt(rest, r);
      } else {
        assert !EndedBy(inp, sig, r, n);
      }
    }
  }

  /** Orders never overlap: each ends no later than the row that arms the next. */
  lemma OrdersInTurn(inp: Inputs, n: nat, k: nat)
    requires inp.Valid() && n <= |inp.bars| && k + 1 < |Arms(inp, n)|
    ensures EndedBy(inp, Arms(inp, n)[k], Arms(inp, n)[k + 1].signalIdx, n)
  {
    hide CourseOf;
    OnlyLastLives(inp, 0, n);
    assert EndedBefore(inp, ArmsFrom(inp, 0, n), k, n);
  }

  // ----- no look-ahead

  function Prefix(inp: Inputs, m: nat): (p: Inputs)
    requires inp.Valid() && m <= |inp.bars|
    ensures p.Valid()
  {
    Inputs(inp.bars[..m], inp.cands[..m], inp.rules, inp.tradeFrom)
  }

  lemma {:induction false} SearchPrefix(inp: Inputs, sig: Signal, lo: nat, hi: nat, m: nat)
    requires inp.Valid() && hi <= m <= |inp.bars|
    ensures FirstFill(inp.bars[..m], sig, lo, hi) == FirstFill(inp.bars, sig, lo, hi)
    ensures FirstHit(inp.bars[..m], sig, lo, hi) == FirstHit(inp.bars, sig, lo, hi)
    ensures FirstEligible(Prefix(inp, m), lo, hi) == FirstEligible(inp, lo, hi)
  {
    hide EntryOf, BracketOf, Eligible;
    if lo < hi {
      assert inp.bars[..m][hi - 1] == inp.bars[hi - 1] && inp.cands[..m][hi - 1] == inp.cands[hi - 1];
      SearchPrefix(inp, sig, lo, hi - 1, m);
      EligiblePrefix(inp, hi - 1, m);
    }
  }

  lemma EligiblePrefix(inp: Inputs, i: nat, m: nat)
    requires inp.Valid() && i < m <= |inp.bars|
    ensures Eligible(Prefix(inp, m), i) == Eligible(inp, i)
  {
  }

  lemma CoursePrefix(inp: Inputs, sig: Signal, n: nat, m: nat)
    requires inp.Valid() && sig.signalIdx < n <= m <= |inp.bars|
    ensures CourseOf(inp.bars[..m], inp.rules, sig, n) == CourseOf(inp.bars, inp.rules, sig, n)
  {
    hide EntryOf, BracketOf, FirstFill, FirstHit, ClosesBeyondStop, HeldFrom;
    var s, last := sig.signalIdx, sig.signalIdx + inp.rules.validBars + 1;
    SearchPrefix(inp, sig, s + 1, Least(n, last + 1), m);
    var fill := FirstFill(inp.bars, sig, s + 1, Least(n, last + 1));
    if fill.Some? {
      HeldPrefix(inp, sig, fill.value, n, m);
    }
  }

  lemma HeldPrefix(inp: Inputs, sig: Signal, f: nat, n: nat, m: nat)
    requires inp.Valid() && f < n <= m <= |inp.bars| && EntryOf(sig, inp.bars[f]).Some?
    ensures HeldFrom(inp.bars[..m], inp.rules, sig, f, n) == HeldFrom(inp.bars, inp.rules, sig, f, n)
  {
    hide EntryOf, BracketOf, FirstHit, ClosesBeyondStop;
    SearchPrefix(inp, sig, f + 1, Least(n, f + inp.rules.maxHold + 1), m);
  }

  lemma {:induction false} ArmsPrefix(inp: Inputs, lo: nat, n: nat, m: nat)
    requires inp.Valid() && n <= m <= |inp.bars|
    ensures ArmsFrom(Prefix(inp, m), lo, n) == ArmsFrom(inp, lo, n)
    decreases n - lo
  {
    hide CourseOf, ArmsFrom, FirstEligible;
    ArmsUnfold(inp, lo, n);
    ArmsUnfold(Prefix(inp, m), lo, n);
    var a := FirstEligible(inp, lo, n);
    SearchPrefix(inp, Signal(0, Long, 0.0, 0.0, 0.0), lo, n, m);
    if a.Some? {
      var sig := inp.cands[a.value].value;
      CoursePrefix(inp, sig, n, m);
      CourseEnds(inp, sig, n);
      if CourseOf(inp.bars, inp.rules, sig, n).Ended() {
        ArmsPrefix(inp, CourseOf(inp.bars, inp.rules, sig, n).EndRow(), n, m);
      }
    }
  }

  lemma {:induction false} OpportunityPrefix(bars: seq<FlagBar>, s: nat, count: nat, m: nat)
    requires s + count < m <= |bars|
    ensures OpportunityMarks(bars[..m], s, count) == OpportunityMarks(bars, s, count)
  {
    if count > 0 {
      OpportunityPrefix(bars, s, count - 1, m);
    }
  }

  lemma MarksPrefix(inp: Inputs, sig: Signal, n: nat, m: nat)
    requires inp.Valid() && sig.signalIdx < n <= m <= |inp.bars|
    ensures MarksOf(Prefix(inp, m), sig, n) == MarksOf(inp, sig, n)
  {
    hide CourseOf;
    CoursePrefix(inp, sig, n, m);
    CourseInRange(inp, sig, n);
    OpportunityPrefix(inp.bars, sig.signalIdx, Opportunities(sig, CourseOf(inp.bars, inp.rules, sig, n), n, inp.rules),
                      m);
  }

  lemma {:induction false} LedgerPrefix(inp: Inputs, arms: seq<Signal>, n: nat, m: nat)
    requires inp.Valid() && n <= m <= |inp.bars| && ArmsValid(arms, n)
    ensures EventsOf(Prefix(inp, m), arms, n) == EventsOf(inp, arms, n)
    ensures OrdersOf(Prefix(inp, m), arms, n) == OrdersOf(inp, arms, n)
  {
    hide CourseOf, MarksOf, RecordOf;
    if arms != [] {
      var k := |arms| - 1;
      LedgerPrefix(inp, arms[..k], n, m);
      MarksPrefix(inp, arms[k], n, m);
      CoursePrefix(inp, arms[k], n, m);
    }
  }

  /** A later row only appends to the event log. */
  lemma RowAppends(inp: Inputs, n: nat)
    requires inp.Valid() && n < |inp.bars|
    ensures Events(inp, n) <= Events(inp, n + 1)
  {
    hide CourseOf, MarksOf, ArmsFrom, OrdersOf, EventsOf, Advance, NewMarks, RecordOf;
    var arms := ArmsFrom(inp, 0, n);
    ArmsAdvance(inp, 0, n);
    AdaptivePortfolio.EarlierEnded(inp, n);
    var grown := EventsOf(inp, arms, n + 1);
    if arms == [] || CourseOf(inp.bars, inp.rules, arms[|arms| - 1], n).Ended() {
      EndedKeep(inp, arms, n);
    } else {
      AdaptivePortfolio.LastRecord(inp, arms, n);
      AdaptivePortfolio.LiveRecord(inp, arms, n);
    }
    assert EventsOf(inp, arms, n) <= grown;
    if ArmsFrom(inp, 0, n + 1) != arms {
      AdaptivePortfolio.NewRecord(inp, arms, n);
    } else {
      assert arms + [] == arms;
    }
  }

  lemma {:induction false} LogGrows(inp: Inputs, m: nat, n: nat)
    requires inp.Valid() && m <= n <= |inp.bars|
    ensures Events(inp, m) <= Events(inp, n)
  {
    hide Events;
    if m < n {
      LogGrows(inp, m, n - 1);
      RowAppends(inp, n - 1);
    }
  }

  /**
    Running the first m rows alone gives the orders, events and row states that the whole run
    has after m rows, and its log is a prefix of the log of the whole run.
  */
  lemma NoLookAhead(inp: Inputs, m: nat)
    requires inp.Valid() && m <= |inp.bars|
    ensures Orders(Prefix(inp, m), m) == Orders(inp, m)
    ensures Events(Prefix(inp, m), m) == Events(inp, m) <= Events(inp, |inp.bars|)
    ensures forall i: nat :: i < m ==> StateOf(Prefix(inp, m), i) == StateOf(inp, i)
  {
    hide CourseOf, ArmsFrom, OrdersOf, EventsOf;
    ArmsPrefix(inp, 0, m, m);
    LedgerPrefix(inp, ArmsFrom(inp, 0, m), m, m);
    LogGrows(inp, m, |inp.bars|);
    forall i: nat | i < m
      ensures StateOf(Prefix(inp, m), i) == StateOf(inp, i)
    {
      ArmsPrefix(inp, 0, i + 1, m);
      var arms := ArmsFrom(inp, 0, i + 1);
      if arms != [] {
        CoursePrefix(inp, arms[|arms| - 1], i + 1, m);
      }
    }
  }
}
