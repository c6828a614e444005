/**
  What the adaptive-flag portfolio (engine/adaptive_flag_reference.go) should produce, stated
  without its state machine: every order's course is found by searching the rows after its
  signal, and the next order is armed at the first eligible row once that course has ended.
*/
module AdaptiveFlag {
  import opened Common
  import opened AdaptiveBracket

  /** validBars and maxHold of the configuration; both are at least one. */
  datatype Rules = Rules(validBars: nat, maxHold: nat)

  /** Bars, the candidate signal of each bar, and the first bar open that may arm an order. */
  datatype Inputs = Inputs(bars: seq<FlagBar>, cands: seq<Option<Signal>>, rules: Rules, tradeFrom: int) {
    ghost predicate Valid() {
      && |cands| == |bars|
      && rules.validBars >= 1 && rules.maxHold >= 1
      && forall i :: 0 <= i < |cands| && cands[i].Some? ==> cands[i].value.signalIdx == i
    }
  }

  datatype Reason = StopActivatedAtClose | MaxHold | Barrier(hit: HitReason)

  /** A market exit decided at the close of row `row` for the next open. */
  datatype Queued = Queued(reason: Reason, row: nat, closeMs: int, nextOpen: nat)

  datatype Status = Pending | Open | QueuedExit | Closed | Expired

  datatype When = Point(ms: int) | Crossing(lower: int, upper: int) | DuringBar(lower: int, upper: int)

  datatype Kind = Armed | Opportunity | Filled | BracketCreated | ExitQueued(why: Reason)
    | ClosedBy(cause: Reason) | Lapse

  datatype Mark = Mark(kind: Kind, row: nat, when: When, price: Option<real>)

  datatype Event = Event(id: nat, orderID: nat, mark: Mark)

  datatype Exit = Exit(row: nat, price: real, reason: Reason, atOpen: bool)

  datatype Order = Order(
    sig: Signal, id: nat, status: Status, pendingAge: nat, fillOpportunities: nat,
    fillIdx: Option<nat>, entry: Option<real>, entryAtOpen: bool, bracketIdx: Option<nat>,
    exitIdx: Option<nat>, exit: Option<real>, reason: Option<Reason>, eventIDs: seq<nat>)

  /** Where an order stands after some rows. */
  datatype Course =
    | Waiting
    | Lapsed(end: nat)
    | Held(f: nat, fill: Fill)
    | Leaving(f: nat, fill: Fill, q: Queued)
    | Done(f: nat, fill: Fill, x: Exit)
  {
    predicate Ended() {
      Lapsed? || Done?
    }

    /** The row an ended course ended on. */
    function EndRow(): nat {
      if Lapsed? then end else if Done? then x.row else 0
    }
  }

  // ----- searches

  function FirstFill(bars: seq<FlagBar>, sig: Signal, lo: nat, hi: nat): (r: Option<nat>)
    requires hi <= |bars|
    ensures r.Some? ==> lo <= r.value < hi && EntryOf(sig, bars[r.value]).Some?
    ensures r.Some? ==> forall j :: lo <= j < r.value ==> EntryOf(sig, bars[j]).None?
    ensures r.None? ==> forall j :: lo <= j < hi ==> EntryOf(sig, bars[j]).None?
  {
    if lo >= hi then None
    else if FirstFill(bars, sig, lo, hi - 1).Some? then FirstFill(bars, sig, lo, hi - 1)
    else if EntryOf(sig, bars[hi - 1]).Some? then Some(hi - 1)
    else None
  }

  function FirstHit(bars: seq<FlagBar>, sig: Signal, lo: nat, hi: nat): (r: Option<nat>)
    requires hi <= |bars|
    ensures r.Some? ==> lo <= r.value < hi && BracketOf(sig, bars[r.value]).Some?
    ensures r.Some? ==> forall j :: lo <= j < r.value ==> BracketOf(sig, bars[j]).None?
    ensures r.None? ==> forall j :: lo <= j < hi ==> BracketOf(sig, bars[j]).None?
  {
    if lo >= hi then None
    else if FirstHit(bars, sig, lo, hi - 1).Some? then FirstHit(bars, sig, lo, hi - 1)
    else if BracketOf(sig, bars[hi - 1]).Some? then Some(hi - 1)
    else None
  }

  predicate Eligible(inp: Inputs, i: nat)
    requires i < |inp.bars| && |inp.cands| == |inp.bars|
  {
    inp.bars[i].openT >= inp.tradeFrom && inp.cands[i].Some?
  }

  function FirstEligible(inp: Inputs, lo: nat, hi: nat): (r: Option<nat>)
    requires hi <= |inp.bars| && |inp.cands| == |inp.bars|
    ensures r.Some? ==> lo <= r.value < hi && Eligible(inp, r.value)
    ensures r.Some? ==> forall j :: lo <= j < r.value ==> !Eligible(inp, j)
    ensures r.None? ==> forall j :: lo <= j < hi ==> !Eligible(inp, j)
  {
    if lo >= hi then None
    else if FirstEligible(inp, lo, hi - 1).Some? then FirstEligible(inp, lo, hi - 1)
    else if Eligible(inp, hi - 1) then Some(hi - 1)
    else None
  }

  function Least(a: nat, b: nat): nat {
    if a < b then a else b
  }

  /** The entry bar closed at or beyond its own stop. */
  predicate ClosesBeyondStop(sig: Signal, b: FlagBar) {
    if sig.side == Long then b.close <= sig.stop else b.close >= sig.stop
  }

  function QueueAt(bars: seq<FlagBar>, reason: Reason, row: nat): Queued
    requires row < |bars|
  {
    Queued(reason, row, bars[row].closeT, row + 1)
  }

  function OpenExit(bars: seq<FlagBar>, reason: Reason, row: nat): Exit
    requires row < |bars|
  {
    Exit(row, bars[row].open, reason, true)
  }

  function BarrierExit(bars: seq<FlagBar>, sig: Signal, row: nat): Exit
    requires row < |bars| && BracketOf(sig, bars[row]).Some?
  {
    var hit := BracketOf(sig, bars[row]).value;
    Exit(row, hit.price, Barrier(hit.reason), hit.atOpen)
  }

  /**
    The course of an order after rows 0..n-1. It may fill on rows s+1 .. s+validBars+1; a
    filled order leaves at the first barrier met on rows f+1 .. f+maxHold, or at the open
    after the row that queued its exit.
  */
  function CourseOf(bars: seq<FlagBar>, rules: Rules, sig: Signal, n: nat): Course
    requires sig.signalIdx < n <= |bars|
  {
    var s, last := sig.signalIdx, sig.signalIdx + rules.validBars + 1;
    match FirstFill(bars, sig, s + 1, Least(n, last + 1))
    case None => if n > last then Lapsed(last) else Waiting
    case Some(f) => HeldFrom(bars, rules, sig, f, n)
  }

  function HeldFrom(bars: seq<FlagBar>, rules: Rules, sig: Signal, f: nat, n: nat): Course
    requires f < n <= |bars| && EntryOf(sig, bars[f]).Some?
  {
    var fill, out := EntryOf(sig, bars[f]).value, f + rules.maxHold;
    if ClosesBeyondStop(sig, bars[f]) then
      if n == f + 1 then Leaving(f, fill, QueueAt(bars, StopActivatedAtClose, f))
      else Done(f, fill, OpenExit(bars, StopActivatedAtClose, f + 1))
    else match FirstHit(bars, sig, f + 1, Least(n, out + 1))
      case Some(h) => Done(f, fill, BarrierExit(bars, sig, h))
      case None =>
        if n <= out then Held(f, fill)
        else if n == out + 1 then Leaving(f, fill, QueueAt(bars, MaxHold, out))
        else Done(f, fill, OpenExit(bars, MaxHold, out + 1))
  }

  /** The signals that became orders within rows lo..n-1, the portfolio being flat before lo's close. */
  function ArmsFrom(inp: Inputs, lo: nat, n: nat): (arms: seq<Signal>)
    requires inp.Valid() && n <= |inp.bars|
    ensures forall k :: 0 <= k < |arms| ==> lo <= arms[k].signalIdx < n
    decreases n - lo
  {
    match FirstEligible(inp, lo, n)
    case None => []
    case Some(a) =>
      var sig := inp.cands[a].value;
      var c := CourseOf(inp.bars, inp.rules, sig, n);
      CourseEnds(inp, sig, n);
      [sig] + if c.Ended() then ArmsFrom(inp, c.EndRow(), n) else []
  }

  lemma CourseEnds(inp: Inputs, sig: Signal, n: nat)
    requires inp.Valid() && sig.signalIdx < n <= |inp.bars|
    ensures var c := CourseOf(inp.bars, inp.rules, sig, n);
            c.Ended() ==> sig.signalIdx < c.EndRow() < n
  {
  }

  // ----- one row further

  /** The row n decides how a course goes on; ended courses stay as they are. */
  function Advance(bars: seq<FlagBar>, rules: Rules, sig: Signal, c: Course, n: nat): Course
    requires sig.signalIdx < n < |bars|
  {
    match c
    case Waiting =>
      if EntryOf(sig, bars[n]).Some? then
        var fill := EntryOf(sig, bars[n]).value;
        if ClosesBeyondStop(sig, bars[n]) then Leaving(n, fill, QueueAt(bars, StopActivatedAtClose, n))
        else Held(n, fill)
      else if n - sig.signalIdx > rules.validBars then Lapsed(n)
      else Waiting
    case Held(f, fill) =>
      if BracketOf(sig, bars[n]).Some? then Done(f, fill, BarrierExit(bars, sig, n))
      else if n - f >= rules.maxHold then Leaving(f, fill, QueueAt(bars, MaxHold, n))
      else c
    case Leaving(f, fill, q) => Done(f, fill, OpenExit(bars, q.reason, n))
    case _ => c
  }

  lemma FirstFillGrows(bars: seq<FlagBar>, sig: Signal, lo: nat, hi: nat)
    requires lo <= hi < |bars|
    ensures FirstFill(bars, sig, lo, hi + 1)
         == if FirstFill(bars, sig, lo, hi).Some? then FirstFill(bars, sig, lo, hi)
            else if EntryOf(sig, bars[hi]).Some? then Some(hi) else None
  {
  }

  lemma FirstHitGrows(bars: seq<FlagBar>, sig: Signal, lo: nat, hi: nat)
    requires lo <= hi < |bars|
    ensures FirstHit(bars, sig, lo, hi + 1)
         == if FirstHit(bars, sig, lo, hi).Some? then FirstHit(bars, sig, lo, hi)
            else if BracketOf(sig, bars[hi]).Some? then Some(hi) else None
  {
  }

  lemma HeldAdvances(inp: Inputs, sig: Signal, f: nat, n: nat)
    requires inp.Valid() && sig.signalIdx < f < n < |inp.bars| && EntryOf(sig, inp.bars[f]).Some?
    ensures HeldFrom(inp.bars, inp.rules, sig, f, n + 1)
         == Advance(inp.bars, inp.rules, sig, HeldFrom(inp.bars, inp.rules, sig, f, n), n)
  {
    hide EntryOf, BracketOf, ClosesBeyondStop, FirstHit;
    var out := f + inp.rules.maxHold;
    if n <= out {
      FirstHitGrows(inp.bars, sig, f + 1, n);
    }
  }

  lemma CourseAdvances(inp: Inputs, sig: Signal, n: nat)
    requires inp.Valid() && sig.signalIdx < n < |inp.bars|
    ensures CourseOf(inp.bars, inp.rules, sig, n + 1)
         == Advance(inp.bars, inp.rules, sig, CourseOf(inp.bars, inp.rules, sig, n), n)
  {
    hide EntryOf, BracketOf, ClosesBeyondStop, FirstHit, FirstFill, HeldFrom;
    var bars, rules := inp.bars, inp.rules;
    var s, last := sig.signalIdx, sig.signalIdx + rules.validBars + 1;
    var fill := FirstFill(bars, sig, s + 1, Least(n, last + 1));
    if n <= last {
      FirstFillGrows(bars, sig, s + 1, n);
    }
    if fill.Some? {
      HeldAdvances(inp, sig, fill.value, n);
    } else if n <= last && EntryOf(sig, bars[n]).Some? {
      NewlyHeld(inp, sig, n);
    }
  }

  lemma NewlyHeld(inp: Inputs, sig: Signal, n: nat)
    requires inp.Valid() && sig.signalIdx < n < |inp.bars| && EntryOf(sig, inp.bars[n]).Some?
    ensures HeldFrom(inp.bars, inp.rules, sig, n, n + 1) == Advance(inp.bars, inp.rules, sig, Waiting, n)
  {
    hide EntryOf, BracketOf, ClosesBeyondStop;
  }

  /** Bounds that tie a live course to the row counter. */
  lemma CourseNow(inp: Inputs, sig: Signal, n: nat)
    requires inp.Valid() && sig.signalIdx < n <= |inp.bars|
    ensures var c := CourseOf(inp.bars, inp.rules, sig, n);
            match c
            case Waiting => n - sig.signalIdx <= inp.rules.validBars + 1
            case Held(f, fill) => sig.signalIdx < f < n <= f + inp.rules.maxHold
            case Leaving(f, fill, q) =>
              sig.signalIdx < f <= q.row && q.nextOpen == n && q.row + 1 == n && !q.reason.Barrier?
            case _ => true
  {
  }

  lemma NewCourse(inp: Inputs, sig: Signal, n: nat)
    requires inp.Valid() && sig.signalIdx < |inp.bars| && n == sig.signalIdx + 1
    ensures CourseOf(inp.bars, inp.rules, sig, n) == Waiting
  {
  }

  ghost predicate Flat(inp: Inputs, arms: seq<Signal>, n: nat)
    requires n <= |inp.bars|
    requires arms != [] ==> arms[|arms| - 1].signalIdx < n
  {
    arms == [] || CourseOf(inp.bars, inp.rules, arms[|arms| - 1], n).Ended()
  }

  /** An ended course stays; one that ends with row n ends at row n. */
  lemma EndingRow(inp: Inputs, sig: Signal, n: nat)
    requires inp.Valid() && sig.signalIdx < n < |inp.bars|
    ensures var c, d := CourseOf(inp.bars, inp.rules, sig, n), CourseOf(inp.bars, inp.rules, sig, n + 1);
            && (c.Ended() ==> d == c && sig.signalIdx < c.EndRow() < n)
            && (!c.Ended() && d.Ended() ==> d.EndRow() == n)
  {
    hide CourseOf, EntryOf, BracketOf;
    CourseAdvances(inp, sig, n);
    CourseEnds(inp, sig, n);
  }

  lemma ArmsUnfold(inp: Inputs, lo: nat, n: nat)
    requires inp.Valid() && n <= |inp.bars|
    ensures var a := FirstEligible(inp, lo, n);
            && (a.None? ==> ArmsFrom(inp, lo, n) == [])
            && (a.Some? ==>
                  var sig := inp.cands[a.value].value;
                  var c := CourseOf(inp.bars, inp.rules, sig, n);
                  sig.signalIdx == a.value
                  && ArmsFrom(inp, lo, n) == [sig] + if c.Ended() then ArmsFrom(inp, c.EndRow(), n) else [])
  {
  }

  lemma ArmsFromRow(inp: Inputs, n: nat)
    requires inp.Valid() && n < |inp.bars|
    ensures ArmsFrom(inp, n, n + 1) == if Eligible(inp, n) then [inp.cands[n].value] else []
  {
    hide CourseOf;
    if Eligible(inp, n) {
      assert FirstEligible(inp, n, n).None?;
      NewCourse(inp, inp.cands[n].value, n + 1);
    }
  }

  lemma FirstEligibleGrows(inp: Inputs, lo: nat, n: nat)
    requires inp.Valid() && lo <= n < |inp.bars|
    ensures FirstEligible(inp, lo, n + 1)
         == if FirstEligible(inp, lo, n).Some? then FirstEligible(inp, lo, n)
            else if Eligible(inp, n) then Some(n) else None
  {
  }

  /** The list of arms grows by row n's candidate exactly when the portfolio is flat and the row eligible. */
  lemma {:induction false} ArmsAdvance(inp: Inputs, lo: nat, n: nat)
    requires inp.Valid() && lo <= n < |inp.bars|
    ensures ArmsFrom(inp, lo, n + 1)
         == ArmsFrom(inp, lo, n)
            + if Flat(inp, ArmsFrom(inp, lo, n), n + 1) && Eligible(inp, n) then [inp.cands[n].value] else []
    decreases n - lo
  {
    hide CourseOf, ArmsFrom, FirstEligible;
    ArmsUnfold(inp, lo, n);
    ArmsUnfold(inp, lo, n + 1);
    FirstEligibleGrows(inp, lo, n);
    match FirstEligible(inp, lo, n)
    case None =>
      if Eligible(inp, n) {
        NewCourse(inp, inp.cands[n].value, n + 1);
      }
    case Some(a) =>
      var sig := inp.cands[a].value;
      EndingRow(inp, sig, n);
      var c, d := CourseOf(inp.bars, inp.rules, sig, n), CourseOf(inp.bars, inp.rules, sig, n + 1);
      if c.Ended() {
        ArmsAdvance(inp, c.EndRow(), n);
        LastOf(sig, ArmsFrom(inp, c.EndRow(), n));
      } else if d.Ended() {
        ArmsFromRow(inp, n);
      }
  }

  lemma LastOf(sig: Signal, rest: seq<Signal>)
    ensures var arms := [sig] + rest;
            arms[|arms| - 1] == if rest == [] then sig else rest[|rest| - 1]
    ensures forall more: seq<Signal> :: [sig] + (rest + more) == [sig] + rest + more
  {
    forall more: seq<Signal>
      ensures [sig] + (rest + more) == [sig] + rest + more
    {
    }
  }

  /** Every order but the last has ended. */
  lemma {:induction false} OnlyLastLives(inp: Inputs, lo: nat, n: nat)
    requires inp.Valid() && n <= |inp.bars|
    ensures forall k :: 0 <= k < |ArmsFrom(inp, lo, n)| - 1 ==> EndedBefore(inp, ArmsFrom(inp, lo, n), k, n)
    decreases n - lo
  {
    hide CourseOf, ArmsFrom, FirstEligible;
    ArmsUnfold(inp, lo, n);
    match FirstEligible(inp, lo, n)
    case None =>
    case Some(a) =>
      var sig := inp.cands[a].value;
      var c := CourseOf(inp.bars, inp.rules, sig, n);
      CourseEnds(inp, sig, n);
      if c.Ended() {
        OnlyLastLives(inp, c.EndRow(), n);
        var rest := ArmsFrom(inp, c.EndRow(), n);
        var arms := [sig] + rest;
        forall k | 0 <= k < |arms| - 1
          ensures EndedBefore(inp, arms, k, n)
        {
          assert k > 0 ==> EndedBefore(inp, rest, k - 1, n);
        }
      }
  }

  /** Order k ended no later than the row that armed order k + 1. */
  ghost predicate EndedBefore(inp: Inputs, arms: seq<Signal>, k: nat, n: nat)
    requires n <= |inp.bars| && k + 1 < |arms| && arms[k].signalIdx < n
  {
    var c := CourseOf(inp.bars, inp.rules, arms[k], n);
    c.Ended() && c.EndRow() <= arms[k + 1].signalIdx
  }

  // ----- the records an order and the event log should show

  function Opportunities(sig: Signal, c: Course, n: nat, rules: Rules): nat
    requires sig.signalIdx < n
  {
    match c
    case Waiting => n - 1 - sig.signalIdx
    case Lapsed(_) => rules.validBars + 1
    case _ => if c.f > sig.signalIdx then c.f - sig.signalIdx else 0
  }

  function OpportunityMark(bars: seq<FlagBar>, row: nat): Mark
    requires row < |bars|
  {
    Mark(Opportunity, row, DuringBar(bars[row].openT, bars[row].closeT), None)
  }

  function OpportunityMarks(bars: seq<FlagBar>, s: nat, count: nat): (m: seq<Mark>)
    requires s + count < |bars|
    ensures |m| == count
    ensures forall j :: 0 <= j < count ==> m[j] == OpportunityMark(bars, s + 1 + j)
  {
    if count == 0 then [] else OpportunityMarks(bars, s, count - 1) + [OpportunityMark(bars, s + count)]
  }

  function AtClose(bars: seq<FlagBar>, kind: Kind, row: nat): Mark
    requires row < |bars|
  {
    Mark(kind, row, Point(bars[row].closeT), None)
  }

  /** A price taken at the open is a point in time; one inside the bar is only bracketed by it. */
  function PriceMark(bars: seq<FlagBar>, kind: Kind, row: nat, atOpen: bool, price: real): Mark
    requires row < |bars|
  {
    Mark(kind, row, if atOpen then Point(bars[row].openT) else Crossing(bars[row].openT, bars[row].closeT), Some(price))
  }

  function FillMarks(bars: seq<FlagBar>, f: nat, fill: Fill): seq<Mark>
    requires f < |bars|
  {
    [PriceMark(bars, Filled, f, fill.atOpen, fill.price), AtClose(bars, BracketCreated, f)]
  }

  function TailMarks(bars: seq<FlagBar>, c: Course): seq<Mark>
    requires c.Lapsed? ==> c.end < |bars|
    requires c.Held? || c.Leaving? || c.Done? ==> c.f < |bars|
    requires c.Leaving? ==> c.q.row < |bars|
    requires c.Done? ==> 0 < c.x.row < |bars|
  {
    match c
    case Waiting => []
    case Lapsed(end) => [AtClose(bars, Lapse, end)]
    case Held(f, fill) => FillMarks(bars, f, fill)
    case Leaving(f, fill, q) => FillMarks(bars, f, fill) + [AtClose(bars, ExitQueued(q.reason), q.row)]
    case Done(f, fill, x) =>
      FillMarks(bars, f, fill)
      + (if x.reason.Barrier? then [] else [AtClose(bars, ExitQueued(x.reason), x.row - 1)])
      + [PriceMark(bars, ClosedBy(x.reason), x.row, x.atOpen, x.price)]
  }

  lemma CourseInRange(inp: Inputs, sig: Signal, n: nat)
    requires inp.Valid() && sig.signalIdx < n <= |inp.bars|
    ensures var c := CourseOf(inp.bars, inp.rules, sig, n);
            && (c.Lapsed? ==> c.end == sig.signalIdx + inp.rules.validBars + 1 < n)
            && (c.Held? || c.Leaving? || c.Done? ==>
                sig.signalIdx < c.f < n && c.f - sig.signalIdx <= inp.rules.validBars + 1)
            && (c.Leaving? ==> c.q.row < n)
            && (c.Done? ==> 0 < c.x.row < n)
            && sig.signalIdx + Opportunities(sig, c, n, inp.rules) < n
  {
  }

  /** The order's own part of the event log: armed, its entry opportunities, then what became of it. */
  function MarksOf(inp: Inputs, sig: Signal, n: nat): seq<Mark>
    requires inp.Valid() && sig.signalIdx < n <= |inp.bars|
  {
    var c := CourseOf(inp.bars, inp.rules, sig, n);
    CourseInRange(inp, sig, n);
    [AtClose(inp.bars, Armed, sig.signalIdx)]
    + OpportunityMarks(inp.bars, sig.signalIdx, Opportunities(sig, c, n, inp.rules))
    + TailMarks(inp.bars, c)
  }

  function Span(first: nat, count: nat): (ids: seq<nat>)
    ensures |ids| == count
    ensures forall j :: 0 <= j < count ==> ids[j] == first + j
  {
    seq(count, j requires 0 <= j => first + j)
  }

  function StatusOf(c: Course): Status {
    match c
    case Waiting => Pending
    case Lapsed(_) => Expired
    case Held(_, _) => Open
    case Leaving(_, _, _) => QueuedExit
    case Done(_, _, _) => Closed
  }

  /** Rows the order aged while unfilled: every row after its signal, but not the row that filled it. */
  function AgeOf(sig: Signal, c: Course, n: nat, rules: Rules): nat
    requires sig.signalIdx < n
  {
    match c
    case Waiting => n - 1 - sig.signalIdx
    case Lapsed(_) => rules.validBars + 1
    case _ => if c.f > sig.signalIdx then c.f - sig.signalIdx - 1 else 0
  }

  function RecordOf(sig: Signal, id: nat, c: Course, n: nat, rules: Rules, ids: seq<nat>): Order
    requires sig.signalIdx < n
  {
    var filled := c.Held? || c.Leaving? || c.Done?;
    Order(sig, id, StatusOf(c), AgeOf(sig, c, n, rules), Opportunities(sig, c, n, rules),
          if filled then Some(c.f) else None,
          if filled then Some(c.fill.price) else None,
          filled && c.fill.atOpen,
          if filled then Some(c.f) else None,
          if c.Done? then Some(c.x.row) else None,
          if c.Done? then Some(c.x.price) else None,
          if c.Done? then Some(c.x.reason) else None,
          ids)
  }

  function Tagged(id: nat, first: nat, marks: seq<Mark>): (e: seq<Event>)
    ensures |e| == |marks|
    ensures forall j :: 0 <= j < |marks| ==> e[j] == Event(first + j, id, marks[j])
  {
    seq(|marks|, j requires 0 <= j < |marks| => Event(first + j, id, marks[j]))
  }

  ghost predicate ArmsValid(arms: seq<Signal>, n: nat) {
    forall k :: 0 <= k < |arms| ==> arms[k].signalIdx < n
  }

  function EventsOf(inp: Inputs, arms: seq<Signal>, n: nat): seq<Event>
    requires inp.Valid() && n <= |inp.bars| && ArmsValid(arms, n)
  {
    if arms == [] then []
    else
      var k := |arms| - 1;
      var before := EventsOf(inp, arms[..k], n);
      before + Tagged(k, |before|, MarksOf(inp, arms[k], n))
  }

  function OrderOf(inp: Inputs, sig: Signal, id: nat, first: nat, n: nat): Order
    requires inp.Valid() && sig.signalIdx < n <= |inp.bars|
  {
    RecordOf(sig, id, CourseOf(inp.bars, inp.rules, sig, n), n, inp.rules, Span(first, |MarksOf(inp, sig, n)|))
  }

  function OrdersOf(inp: Inputs, arms: seq<Signal>, n: nat): (orders: seq<Order>)
    requires inp.Valid() && n <= |inp.bars| && ArmsValid(arms, n)
    ensures |orders| == |arms|
  {
    if arms == [] then []
    else
      var k := |arms| - 1;
      OrdersOf(inp, arms[..k], n) + [OrderOf(inp, arms[k], k, |EventsOf(inp, arms[..k], n)|, n)]
  }

  /** What is visible after the close of a row. */
  datatype RowState = RowState(row: int, closeMs: int, status: RowStatus, pendingID: Option<nat>,
                               positionID: Option<nat>, pendingAge: nat, queued: Option<Queued>)

  datatype RowStatus = IsFlat | IsPending | IsOpen | IsQueuedExit

  /** The live order, if any, is the last one armed. */
  function StateOf(inp: Inputs, i: nat): RowState
    requires inp.Valid() && i < |inp.bars|
  {
    var arms := ArmsFrom(inp, 0, i + 1);
    var flat := RowState(i, inp.bars[i].closeT, IsFlat, None, None, 0, None);
    if arms == [] then flat
    else
      var id, sig := |arms| - 1, arms[|arms| - 1];
      match CourseOf(inp.bars, inp.rules, sig, i + 1)
      case Waiting => flat.(status := IsPending, pendingID := Some(id), pendingAge := i - sig.signalIdx)
      case Held(_, _) => flat.(status := IsOpen, positionID := Some(id))
      case Leaving(_, _, q) => flat.(status := IsQueuedExit, positionID := Some(id), queued := Some(q))
      case _ => flat
  }

  // ----- what one row adds

  function NewMarks(bars: seq<FlagBar>, rules: Rules, sig: Signal, c: Course, n: nat): seq<Mark>
    requires sig.signalIdx < n < |bars|
  {
    match c
    case Waiting =>
      [OpportunityMark(bars, n)]
      + (match Advance(bars, rules, sig, c, n)
         case Lapsed(_) => [AtClose(bars, Lapse, n)]
         case Held(_, fill) => FillMarks(bars, n, fill)
         case Leaving(_, fill, q) => FillMarks(bars, n, fill) + [AtClose(bars, ExitQueued(q.reason), n)]
         case _ => [])
    case Held(_, _) =>
      (match Advance(bars, rules, sig, c, n)
       case Done(_, _, x) => [PriceMark(bars, ClosedBy(x.reason), n, x.atOpen, x.price)]
       case Leaving(_, _, q) => [AtClose(bars, ExitQueued(q.reason), n)]
       case _ => [])
    case Leaving(_, _, q) => [PriceMark(bars, ClosedBy(q.reason), n, true, bars[n].open)]
    case _ => []
  }

  lemma MarksAdvance(inp: Inputs, sig: Signal, n: nat)
    requires inp.Valid() && sig.signalIdx < n < |inp.bars|
    ensures MarksOf(inp, sig, n + 1)
         == MarksOf(inp, sig, n) + NewMarks(inp.bars, inp.rules, sig, CourseOf(inp.bars, inp.rules, sig, n), n)
  {
    hide CourseOf, EntryOf, BracketOf, ClosesBeyondStop, AtClose, PriceMark, OpportunityMark;
    var c, d := CourseOf(inp.bars, inp.rules, sig, n), CourseOf(inp.bars, inp.rules, sig, n + 1);
    CourseAdvances(inp, sig, n);
    CourseNow(inp, sig, n);
    CourseInRange(inp, sig, n);
    CourseInRange(inp, sig, n + 1);
    var start := [AtClose(inp.bars, Armed, sig.signalIdx)];
    var count := Opportunities(sig, c, n, inp.rules);
    if c.Waiting? {
      assert OpportunityMarks(inp.bars, sig.signalIdx, count + 1)
          == OpportunityMarks(inp.bars, sig.signalIdx, count) + [OpportunityMark(inp.bars, n)];
      WaitingTail(inp, sig, n);
      assert Opportunities(sig, d, n + 1, inp.rules) == count + 1;
      hide TailMarks, NewMarks, Advance, FillMarks;
    } else {
      TailAdvance(inp, sig, c, n);
      assert Opportunities(sig, d, n + 1, inp.rules) == count;
      hide TailMarks, NewMarks, Advance;
    }
  }

  /** A waiting order's row: one more opportunity, then the start of its tail if it fills or lapses. */
  lemma WaitingTail(inp: Inputs, sig: Signal, n: nat)
    requires inp.Valid() && sig.signalIdx < n < |inp.bars|
    ensures var d := Advance(inp.bars, inp.rules, sig, Waiting, n);
            NewMarks(inp.bars, inp.rules, sig, Waiting, n)
            == [OpportunityMark(inp.bars, n)] + TailMarks(inp.bars, d)
    ensures TailMarks(inp.bars, Waiting) == []
  {
    hide EntryOf, BracketOf, ClosesBeyondStop, AtClose, PriceMark, OpportunityMark, FillMarks;
  }

  /** A filled order's tail grows by what the row adds. */
  lemma TailAdvance(inp: Inputs, sig: Signal, c: Course, n: nat)
    requires inp.Valid() && sig.signalIdx < n < |inp.bars| && !c.Waiting?
    requires c.Lapsed? ==> c.end < n
    requires c.Held? || c.Leaving? || c.Done? ==> c.f < n
    requires c.Leaving? ==> c.q.row + 1 == n && !c.q.reason.Barrier?
    requires c.Done? ==> 0 < c.x.row < n
    ensures TailMarks(inp.bars, Advance(inp.bars, inp.rules, sig, c, n))
         == TailMarks(inp.bars, c) + NewMarks(inp.bars, inp.rules, sig, c, n)
  {
    hide EntryOf, BracketOf, ClosesBeyondStop, AtClose, PriceMark, OpportunityMark, FillMarks;
  }

  /** Orders that have ended keep their records and events from then on. */
  lemma {:induction false} EndedKeep(inp: Inputs, arms: seq<Signal>, n: nat)
    requires inp.Valid() && n < |inp.bars| && ArmsValid(arms, n)
    requires forall k :: 0 <= k < |arms| ==> CourseOf(inp.bars, inp.rules, arms[k], n).Ended()
    ensures OrdersOf(inp, arms, n + 1) == OrdersOf(inp, arms, n)
    ensures EventsOf(inp, arms, n + 1) == EventsOf(inp, arms, n)
  {
    hide CourseOf, MarksOf, RecordOf;
    if arms != [] {
      var k := |arms| - 1;
      EndedKeep(inp, arms[..k], n);
      EndedOrderKeeps(inp, arms[k], n);
    }
  }

  lemma EndedOrderKeeps(inp: Inputs, sig: Signal, n: nat)
    requires inp.Valid() && sig.signalIdx < n < |inp.bars|
    requires CourseOf(inp.bars, inp.rules, sig, n).Ended()
    ensures MarksOf(inp, sig, n + 1) == MarksOf(inp, sig, n)
    ensures forall id, first :: OrderOf(inp, sig, id, first, n + 1) == OrderOf(inp, sig, id, first, n)
  {
    hide CourseOf, MarksOf;
    EndingRow(inp, sig, n);
    MarksAdvance(inp, sig, n);
  }
}
