/**
  A whole adaptive-flag evaluation: cut the series at the end of the window, admit the rows,
  compute the snapshots, run the portfolio (engine/adaptive_flag_signals.go and
  engine/adaptive_flag_reference.go).
*/
module AdaptiveRun {
  import opened Common
  import opened AdaptiveBracket
  import Flag = AdaptiveFlag
  import Theorems = AdaptiveTheorems
  import Signals = AdaptiveSignals
  import AdaptivePortfolio

  const SAFE := 9007199254740991

  datatype Row = Row(t: int, o: real, h: real, l: real, c: real, v: real)

  datatype Window = Window(start: int, end: int)

  datatype Refusal = BadWindow | NoRows | BadRow(i: nat)

  datatype Result<+T> = Ok(value: T) | Refused(why: Refusal)

  datatype Outcome = Outcome(snapshots: seq<Signals.Snapshot>, orders: seq<Flag.Order>, events: seq<Flag.Event>,
                             states: seq<Flag.RowState>)

  predicate ValidWindow(w: Window, step: int)
    requires step > 0
  {
    w.start >= 0 && w.end <= SAFE && w.start < w.end && TruncMod(w.start, step) == 0 && TruncMod(w.end, step) == 0
  }

  /** How many leading rows open before the exclusive end. */
  function Cut(rows: seq<Row>, end: int): (n: nat)
    ensures n <= |rows|
    ensures forall i :: 0 <= i < n ==> rows[i].t < end
    ensures n < |rows| ==> rows[n].t >= end
  {
    if rows == [] || rows[0].t >= end then 0 else 1 + Cut(rows[1..], end)
  }

  method WindowPrefix(rows: seq<Row>, step: int, w: Window) returns (r: Result<seq<Row>>)
    requires step > 0
    ensures r == if ValidWindow(w, step) then Ok(rows[..Cut(rows, w.end)]) else Refused(BadWindow)
  {
    if w.start < 0 || w.end > SAFE || w.start >= w.end || TruncMod(w.start, step) != 0 || TruncMod(w.end, step) != 0 {
      return Refused(BadWindow);
    }
    var end := |rows|;
    for i := 0 to |rows|
      invariant end == |rows|
      invariant forall k :: 0 <= k < i ==> rows[k].t < w.end
    {
      if rows[i].t >= w.end {
        end := i;
        break;
      }
    }
    CutIs(rows, w.end, end);
    return Ok(rows[..end]);
  }

  lemma {:induction false} CutIs(rows: seq<Row>, end: int, n: nat)
    requires n <= |rows|
    requires forall i :: 0 <= i < n ==> rows[i].t < end
    requires n < |rows| ==> rows[n].t >= end
    ensures Cut(rows, end) == n
  {
    if n > 0 {
      CutIs(rows[1..], end, n - 1);
    }
  }

  predicate Admissible(rows: seq<Row>, i: nat, step: int)
    requires i < |rows| && step > 0
  {
    var b := rows[i];
    && 0 <= b.t <= SAFE - step && TruncMod(b.t, step) == 0 && b.t > (if i == 0 then -1 else rows[i - 1].t)
    && b.l > 0.0 && b.l <= b.o <= b.h && b.l <= b.c <= b.h && b.v >= 0.0
  }

  function BarOf(b: Row, step: int): FlagBar {
    FlagBar(b.t, b.t + step, b.o, b.h, b.l, b.c, b.v)
  }

  function BarsOf(rows: seq<Row>, step: int): (bars: seq<FlagBar>)
    ensures |bars| == |rows| && forall i :: 0 <= i < |rows| ==> bars[i] == BarOf(rows[i], step)
  {
    seq(|rows|, i requires 0 <= i < |rows| => BarOf(rows[i], step))
  }

  /** Admission in full: on the grid of the step, after the row before, positive, in order; the bar lasts one step. */
  lemma AdmittedExactlyWhen(rows: seq<Row>, i: nat, step: int)
    requires i < |rows| && step > 0
    ensures var b := rows[i];
            Admissible(rows, i, step) <==>
              && 0 <= b.t && b.t + step <= 9_007_199_254_740_991 && b.t % step == 0
              && (i > 0 ==> rows[i - 1].t < b.t)
              && 0.0 < b.l && b.l <= Min(b.o, b.c) && Max(b.o, b.c) <= b.h && 0.0 <= b.v
    ensures var bar, b := BarOf(rows[i], step), rows[i];
            && bar.openT == b.t && bar.closeT - bar.openT == step && bar.volume == b.v
            && bar.open == b.o && bar.high == b.h && bar.low == b.l && bar.close == b.c
  {
    if rows[i].t >= 0 {
      OnStep(rows[i].t, step);
    }
  }

  lemma OnStep(t: nat, step: int)
    requires step > 0
    ensures TruncMod(t, step) == t % step
  {
    assert t == (t / step) * step + t % step;
  }

  method Source(rows: seq<Row>, step: int) returns (r: Result<seq<FlagBar>>)
    requires step > 0
    ensures r.Ok? <==> rows != [] && forall i :: 0 <= i < |rows| ==> Admissible(rows, i, step)
    ensures r.Ok? ==> r.value == BarsOf(rows, step)
    ensures r == Refused(NoRows) <==> rows == []
    ensures r.Refused? ==> r.why.NoRows? || r.why.BadRow?
    ensures r.Refused? && r.why.BadRow? ==> r.why.i < |rows| && !Admissible(rows, r.why.i, step)
    ensures r.Refused? && r.why.BadRow? ==> forall k :: 0 <= k < r.why.i ==> Admissible(rows, k, step)
  {
    if rows == [] {
      return Refused(NoRows);
    }
    var bars: seq<FlagBar> := [];
    var previous := -1;
    for i := 0 to |rows|
      invariant |bars| == i && bars == BarsOf(rows[..i], step)
      invariant previous == if i == 0 then -1 else rows[i - 1].t
      invariant forall k :: 0 <= k < i ==> Admissible(rows, k, step)
    {
      var b := rows[i];
      if b.t < 0 || b.t > SAFE - step || TruncMod(b.t, step) != 0 || b.t <= previous {
        assert !Admissible(rows, i, step);
        return Refused(BadRow(i));
      }
      previous := b.t;
      if b.l <= 0.0 || b.o < b.l || b.o > b.h || b.c < b.l || b.c > b.h || b.v < 0.0 {
        assert !Admissible(rows, i, step);
        return Refused(BadRow(i));
      }
      bars := bars + [BarOf(b, step)];
      assert rows[..i + 1] == rows[..i] + [b];
    }
    assert rows[..|rows|] == rows;
    return Ok(bars);
  }

  // ----- the evaluation

  function SnapshotsOf(bars: seq<FlagBar>, sr: Signals.SignalRules): (s: seq<Signals.Snapshot>)
    requires sr.Valid()
    ensures |s| == |bars| && forall i :: 0 <= i < |bars| ==> s[i] == Signals.SnapshotAt(bars, sr, i)
  {
    seq(|bars|, i requires 0 <= i < |bars| => Signals.SnapshotAt(bars, sr, i))
  }

  function Candidates(rows: seq<Signals.Snapshot>): (c: seq<Option<Signal>>)
    ensures |c| == |rows| && forall i :: 0 <= i < |rows| ==> c[i] == rows[i].candidate
  {
    seq(|rows|, i requires 0 <= i < |rows| => rows[i].candidate)
  }

  function InputsOf(bars: seq<FlagBar>, sr: Signals.SignalRules, rules: Flag.Rules, tradeFrom: int): (inp: Flag.Inputs)
    requires sr.Valid() && rules.validBars >= 1 && rules.maxHold >= 1
    ensures inp.Valid() && inp.bars == bars
  {
    Flag.Inputs(bars, Candidates(SnapshotsOf(bars, sr)), rules, tradeFrom)
  }

  function StatesOf(inp: Flag.Inputs, n: nat): (s: seq<Flag.RowState>)
    requires inp.Valid() && n <= |inp.bars|
    ensures |s| == n && forall i :: 0 <= i < n ==> s[i] == Flag.StateOf(inp, i)
  {
    seq(n, i requires 0 <= i < n => Flag.StateOf(inp, i))
  }

  /** What the first n of the bars lead to. */
  function OutcomeAfter(bars: seq<FlagBar>, sr: Signals.SignalRules, rules: Flag.Rules, tradeFrom: int, n: nat): Outcome
    requires sr.Valid() && rules.validBars >= 1 && rules.maxHold >= 1 && n <= |bars|
  {
    var inp := InputsOf(bars, sr, rules, tradeFrom);
    Outcome(SnapshotsOf(bars, sr)[..n], Theorems.Orders(inp, n), Theorems.Events(inp, n), StatesOf(inp, n))
  }

  /** runAdaptiveVolumeFlag without its identity hashes and assumption texts. */
  method Evaluate(rows: seq<Row>, step: int, w: Option<Window>, sr: Signals.SignalRules, rules: Flag.Rules)
    returns (r: Result<Outcome>)
    requires step > 0 && sr.Valid() && rules.validBars >= 1 && rules.maxHold >= 1
    ensures var used := if w.Some? then rows[..Cut(rows, w.value.end)] else rows;
            && (r.Ok? <==> (w.Some? ==> ValidWindow(w.value, step)) && used != []
                           && forall i :: 0 <= i < |used| ==> Admissible(used, i, step))
            && (r == Refused(BadWindow) <==> w.Some? && !ValidWindow(w.value, step))
            && (r.Refused? && r.why.BadRow? ==>
                  && r.why.i < |used| && !Admissible(used, r.why.i, step)
                  && forall k :: 0 <= k < r.why.i ==> Admissible(used, k, step))
            && (r.Ok? ==> r.value == OutcomeAfter(BarsOf(used, step), sr, rules,
                                                  if w.Some? then w.value.start else 0, |used|))
  {
    hide Flag.StateOf, Flag.OrdersOf, Flag.EventsOf, Flag.ArmsFrom, Signals.SnapshotAt;
    var used, from := rows, 0;
    if w.Some? {
      var prefix := WindowPrefix(rows, step, w.value);
      if prefix.Refused? {
        return Refused(prefix.why);
      }
      used, from := prefix.value, w.value.start;
    }
    var source := Source(used, step);
    if source.Refused? {
      return Refused(source.why);
    }
    var bars := source.value;
    var snapshots := Signals.Snapshots(bars, sr);
    assert snapshots == SnapshotsOf(bars, sr) == SnapshotsOf(bars, sr)[..|bars|];
    var inp := InputsOf(bars, sr, rules, from);
    var portfolio := new AdaptivePortfolio.Portfolio(inp);
    var _ := portfolio.Run();
    assert portfolio.states == StatesOf(inp, |bars|);
    return Ok(Outcome(snapshots, portfolio.orders, portfolio.events, portfolio.states));
  }

  /**
    Cutting the series at any row gives exactly what the uncut series leads to by that row,
    and the cut log is a prefix of the uncut one: later bars change nothing before them.
  */
  lemma CutIsHarmless(bars: seq<FlagBar>, sr: Signals.SignalRules, rules: Flag.Rules, tradeFrom: int, m: nat)
    requires sr.Valid() && rules.validBars >= 1 && rules.maxHold >= 1 && m <= |bars|
    ensures OutcomeAfter(bars[..m], sr, rules, tradeFrom, m) == OutcomeAfter(bars, sr, rules, tradeFrom, m)
    ensures OutcomeAfter(bars[..m], sr, rules, tradeFrom, m).events
            <= OutcomeAfter(bars, sr, rules, tradeFrom, |bars|).events
  {
    hide Flag.StateOf, Theorems.Orders, Theorems.Events, Signals.SnapshotAt;
    var whole, cut := InputsOf(bars, sr, rules, tradeFrom), InputsOf(bars[..m], sr, rules, tradeFrom);
    forall i | 0 <= i < m
      ensures Signals.SnapshotAt(bars[..m], sr, i) == Signals.SnapshotAt(bars, sr, i)
    {
      Signals.SnapshotPrefix(bars, sr, i, m);
    }
    assert SnapshotsOf(bars[..m], sr) == SnapshotsOf(bars, sr)[..m];
    assert cut == Theorems.Prefix(whole, m);
    Theorems.NoLookAhead(whole, m);
    assert StatesOf(cut, m) == StatesOf(whole, m);
  }

  /** Two series that agree up to the end of the window evaluate alike, whatever follows it. */
  lemma SuffixIsIgnored(a: seq<Row>, b: seq<Row>, end: int, m: nat)
    requires m <= |a| && m <= |b| && a[..m] == b[..m]
    requires m < |a| ==> a[m].t >= end
    requires m < |b| ==> b[m].t >= end
    ensures a[..Cut(a, end)] == b[..Cut(b, end)]
  {
    var p := Cut(a, end);
    assert forall i :: 0 <= i < m ==> a[i] == a[..m][i] == b[i];
    if p < m {
      CutIs(b, end, p);
    } else {
      CutIs(a, end, m);
      CutIs(b, end, m);
    }
    assert a[..p] == a[..m][..p] && b[..p] == b[..m][..p];
  }
}
