/**
  The close-seeded parabolic stop-and-reverse (contextcols/parabolic_sar.go): one loop over the
  bars, proved equal to a fold, and the geometry that the published values always have.
*/
module ParabolicSar {
  import opened Common

  datatype Candle = Candle(h: real, l: real, c: real) {
    predicate Valid() {
      l <= c <= h
    }
  }

  datatype Options = Options(start: real, step: real, cap: real) {
    predicate Valid() {
      start > 0.0 && step > 0.0 && start <= cap && step <= cap && cap <= 1.0
    }
  }

  datatype State = State(trend: int, sar: real, ep: real, af: real)

  function Seed(bars: seq<Candle>, o: Options): State
    requires |bars| >= 2
  {
    if bars[1].c > bars[0].c then State(1, bars[0].l, bars[1].h, o.start)
    else State(-1, bars[0].h, bars[1].l, o.start)
  }

  function Moved(s: State): real {
    s.sar + s.af * (s.ep - s.sar)
  }

  predicate Penetrated(bars: seq<Candle>, s: State, i: nat)
    requires i < |bars|
  {
    (s.trend == 1 && Moved(s) > bars[i].l) || (s.trend == -1 && Moved(s) < bars[i].h)
  }

  function Turned(bars: seq<Candle>, o: Options, s: State, i: nat): State
    requires i < |bars|
  {
    if s.trend == 1 then State(-1, Max(bars[i].h, s.ep), bars[i].l, o.start)
    else State(1, Min(bars[i].l, s.ep), bars[i].h, o.start)
  }

  predicate Extends(bars: seq<Candle>, s: State, i: nat)
    requires i < |bars|
  {
    (s.trend == 1 && bars[i].h > s.ep) || (s.trend == -1 && bars[i].l < s.ep)
  }

  function Carried(bars: seq<Candle>, o: Options, s: State, i: nat): State
    requires i < |bars|
  {
    if Extends(bars, s, i) && i != 1 then
      State(s.trend, Moved(s), if s.trend == 1 then bars[i].h else bars[i].l, Min(s.af + o.step, o.cap))
    else s.(sar := Moved(s))
  }

  /** The stop is kept out of the two bars before the current one. */
  function Clamped(bars: seq<Candle>, s: State, i: nat): State
    requires 1 <= i < |bars|
  {
    if s.trend == 1 then
      var near := Min(s.sar, bars[i - 1].l);
      s.(sar := if i > 1 then Min(near, bars[i - 2].l) else near)
    else
      var near := Max(s.sar, bars[i - 1].h);
      s.(sar := if i > 1 then Max(near, bars[i - 2].h) else near)
  }

  function Advance(bars: seq<Candle>, o: Options, s: State, i: nat): State
    requires 1 <= i < |bars|
  {
    Clamped(bars, if Penetrated(bars, s, i) then Turned(bars, o, s, i) else Carried(bars, o, s, i), i)
  }

  /** The state after bar i, all bars up to i being valid. */
  function StateAt(bars: seq<Candle>, o: Options, i: nat): State
    requires 1 <= i < |bars|
  {
    Advance(bars, o, if i == 1 then Seed(bars, o) else StateAt(bars, o, i - 1), i)
  }

  ghost predicate ValidTo(bars: seq<Candle>, i: int) {
    forall j :: 0 <= j <= i && j < |bars| ==> bars[j].Valid()
  }

  /** Bar i has a published value. */
  ghost predicate Available(bars: seq<Candle>, o: Options, i: nat) {
    o.Valid() && 1 <= i < |bars| && ValidTo(bars, i)
  }

  lemma Unfold(bars: seq<Candle>, o: Options, i: nat)
    requires 1 <= i < |bars|
    ensures StateAt(bars, o, i) == Advance(bars, o, if i == 1 then Seed(bars, o) else StateAt(bars, o, i - 1), i)
  {
  }

  /** The published row i, and nothing where no value is available. */
  ghost predicate Shows(bars: seq<Candle>, o: Options, i: nat, live: bool, sar: Option<real>, trend: int)
    requires live ==> 1 <= i < |bars|
  {
    if live then sar == Some(StateAt(bars, o, i).sar) && trend == StateAt(bars, o, i).trend
    else sar == None && trend == 0
  }

  /** A flip marks a published trend that differs from the published one before it. */
  function FlipAt(trend: seq<int>, i: nat): int
    requires i < |trend|
  {
    if i > 1 && trend[i - 1] != trend[i] then trend[i] else 0
  }

  /** ComputeParabolicSAR: the first invalid bar ends the output; what was written stays. */
  method Compute(bars: seq<Candle>, o: Options) returns (sar: seq<Option<real>>, trend: seq<int>, flip: seq<int>)
    ensures |sar| == |trend| == |flip| == |bars|
    ensures forall i :: 0 <= i < |bars| ==> Shows(bars, o, i, Available(bars, o, i), sar[i], trend[i])
    ensures forall i :: 0 <= i < |bars| ==> flip[i] == if Available(bars, o, i) then FlipAt(trend, i) else 0
  {
    hide Seed, Advance, StateAt, ValidTo, Shows, Available;
    var n := |bars|;
    sar, trend, flip := seq(n, _ => None), seq(n, _ => 0), seq(n, _ => 0);
    NothingShown(bars, o);
    if !o.Valid() || n < 2 || !bars[0].Valid() || !bars[1].Valid() {
      NoneAvailable(bars, o);
      return;
    }
    var s := Seed(bars, o);
    for i := 1 to n
      invariant |sar| == |trend| == |flip| == n
      invariant forall k :: 0 <= k < i ==> bars[k].Valid()
      invariant s == if i == 1 then Seed(bars, o) else StateAt(bars, o, i - 1)
      invariant forall j :: 0 <= j < n ==> Shows(bars, o, j, 1 <= j < i, sar[j], trend[j])
      invariant forall j :: 0 <= j < n ==> flip[j] == if 1 <= j < i then FlipAt(trend, j) else 0
    {
      if !bars[i].Valid() {
        AvailableBefore(bars, o, i);
        return;
      }
      Unfold(bars, o, i);
      s := Row(bars, o, s, i);
      sar, trend := sar[i := Some(s.sar)], trend[i := s.trend];
      assert Shows(bars, o, i, true, sar[i], trend[i]) by {
        ShowsRow(bars, o, i);
      }
      if i > 1 && trend[i - 1] != s.trend {
        flip := flip[i := s.trend];
      }
    }
    AvailableBefore(bars, o, n);
  }

  lemma ShowsRow(bars: seq<Candle>, o: Options, i: nat)
    requires 1 <= i < |bars|
    ensures Shows(bars, o, i, true, Some(StateAt(bars, o, i).sar), StateAt(bars, o, i).trend)
  {
  }

  lemma NothingShown(bars: seq<Candle>, o: Options)
    ensures forall i: nat :: Shows(bars, o, i, false, None, 0)
  {
  }

  lemma NoneAvailable(bars: seq<Candle>, o: Options)
    requires !o.Valid() || |bars| < 2 || !bars[0].Valid() || !bars[1].Valid()
    ensures forall i: nat :: !Available(bars, o, i)
  {
  }

  lemma AvailableBefore(bars: seq<Candle>, o: Options, i: nat)
    requires o.Valid() && 1 <= i <= |bars|
    requires forall k :: 0 <= k < i ==> bars[k].Valid()
    requires i < |bars| ==> !bars[i].Valid()
    ensures forall j: nat :: j < |bars| ==> (Available(bars, o, j) <==> 1 <= j < i)
  {
  }

  /** The body of the loop: move, turn or extend, keep out of the last two bars. */
  method Row(bars: seq<Candle>, o: Options, s: State, i: nat) returns (r: State)
    requires 1 <= i < |bars|
    ensures r == Advance(bars, o, s, i)
  {
    var trend, ep, af := s.trend, s.ep, s.af;
    var sar := Moved(s);
    var first := i == 1;
    if trend == 1 && sar > bars[i].l {
      trend, sar, ep, af := -1, Max(bars[i].h, ep), bars[i].l, o.start;
      first := true;
    } else if trend == -1 && sar < bars[i].h {
      trend, sar, ep, af := 1, Min(bars[i].l, ep), bars[i].h, o.start;
      first := true;
    }
    if !first && ((trend == 1 && bars[i].h > ep) || (trend == -1 && bars[i].l < ep)) {
      ep := if trend == 1 then bars[i].h else bars[i].l;
      af := Min(af + o.step, o.cap);
    }
    if trend == 1 {
      sar := Min(sar, bars[i - 1].l);
      if i > 1 {
        sar := Min(sar, bars[i - 2].l);
      }
    } else {
      sar := Max(sar, bars[i - 1].h);
      if i > 1 {
        sar := Max(sar, bars[i - 2].h);
      }
    }
    r := State(trend, sar, ep, af);
  }

  // ----- what the published values satisfy

  function HighSince(bars: seq<Candle>, lo: nat, i: nat): real
    requires lo <= i < |bars|
  {
    if lo == i then bars[i].h else Max(HighSince(bars, lo, i - 1), bars[i].h)
  }

  function LowSince(bars: seq<Candle>, lo: nat, i: nat): real
    requires lo <= i < |bars|
  {
    if lo == i then bars[i].l else Min(LowSince(bars, lo, i - 1), bars[i].l)
  }

  /** The bar on which the trend of bar i began. */
  function TrendSince(bars: seq<Candle>, o: Options, i: nat): (r: nat)
    requires 1 <= i < |bars|
    ensures 1 <= r <= i
  {
    if i == 1 || StateAt(bars, o, i - 1).trend != StateAt(bars, o, i).trend then i
    else TrendSince(bars, o, i - 1)
  }

  /** How many bars since then set a new extreme. */
  function NewExtremes(bars: seq<Candle>, o: Options, i: nat): nat
    requires 1 <= i < |bars|
  {
    var since := TrendSince(bars, o, i);
    if since == i then 0
    else
      NewExtremes(bars, o, i - 1)
      + if StateAt(bars, o, i).trend == 1
        then (if bars[i].h > HighSince(bars, since, i - 1) then 1 else 0)
        else (if bars[i].l < LowSince(bars, since, i - 1) then 1 else 0)
  }

  /** The acceleration factor after k new extremes. */
  function Factor(o: Options, k: nat): real {
    Min(o.start + k as real * o.step, o.cap)
  }

  /** A rising stop lies at or below the current and the last two lows, a falling one at or above the highs. */
  ghost predicate KeptOut(bars: seq<Candle>, s: State, i: nat)
    requires 1 <= i < |bars|
  {
    forall j :: i - 2 <= j <= i && 0 <= j ==> if s.trend == 1 then s.sar <= bars[j].l else s.sar >= bars[j].h
  }

  ghost predicate Sound(bars: seq<Candle>, o: Options, s: State, i: nat)
    requires 1 <= i < |bars|
  {
    && (s.trend == 1 || s.trend == -1)
    && KeptOut(bars, s, i)
    && s.ep == (if s.trend == 1 then HighSince(bars, TrendSince(bars, o, i), i)
                else LowSince(bars, TrendSince(bars, o, i), i))
    && s.af == Factor(o, NewExtremes(bars, o, i))
    && o.start <= s.af <= o.cap
  }

  /** The stop never lies beyond the extreme it moves toward. */
  ghost predicate Inside(s: State) {
    && (s.trend == 1 ==> s.sar <= s.ep)
    && (s.trend == -1 ==> s.ep <= s.sar)
  }

  lemma MovesToward(s: State)
    requires 0.0 <= s.af <= 1.0 && Inside(s)
    ensures s.trend == 1 ==> s.sar <= Moved(s) <= s.ep
    ensures s.trend == -1 ==> s.ep <= Moved(s) <= s.sar
  {
    var d := s.ep - s.sar;
    if s.trend == 1 {
      Product(s.af, d, s.af * d);
      Product(1.0 - s.af, d, (1.0 - s.af) * d);
    } else if s.trend == -1 {
      Product(s.af, -d, s.af * -d);
      Product(1.0 - s.af, -d, (1.0 - s.af) * -d);
    }
  }

  lemma Product(a: real, b: real, product: real)
    requires a >= 0.0 && b >= 0.0 && product == a * b
    ensures product >= 0.0
  {
  }

  lemma FactorSteps(o: Options, k: nat)
    requires o.Valid()
    ensures Min(Factor(o, k) + o.step, o.cap) == Factor(o, k + 1)
    ensures o.start <= Factor(o, k + 1) <= o.cap && Factor(o, 0) == o.start
  {
    Product(k as real, o.step, k as real * o.step);
    assert (k + 1) as real * o.step == k as real * o.step + o.step;
  }

  /** One bar further, for the trend that went on or turned. */
  lemma AdvanceShape(bars: seq<Candle>, o: Options, s: State, i: nat)
    requires 1 <= i < |bars| && o.Valid() && ValidTo(bars, i) && (s.trend == 1 || s.trend == -1)
    requires 0.0 <= s.af <= 1.0 && Inside(s)
    ensures var r := Advance(bars, o, s, i);
            && (r.trend == 1 || r.trend == -1) && KeptOut(bars, r, i)
            && (r.trend != s.trend ==> r.ep == (if r.trend == 1 then bars[i].h else bars[i].l) && r.af == o.start)
            && (r.trend == s.trend && i > 1 ==>
                  && r.ep == (if r.trend == 1 then Max(s.ep, bars[i].h) else Min(s.ep, bars[i].l))
                  && r.af == (if Extends(bars, s, i) then Min(s.af + o.step, o.cap) else s.af))
            && (r.trend == s.trend && i == 1 ==> r.ep == s.ep && r.af == s.af)
  {
    MovesToward(s);
    hide Moved;
    assert bars[i].Valid() && bars[i - 1].Valid();
    assert i > 1 ==> bars[i - 2].Valid();
  }

  lemma SeedIsInside(bars: seq<Candle>, o: Options)
    requires |bars| >= 2 && o.Valid() && ValidTo(bars, 1)
    ensures var s := Seed(bars, o);
            (s.trend == 1 || s.trend == -1) && Inside(s) && s.af == o.start
            && s.ep == (if s.trend == 1 then bars[1].h else bars[1].l)
  {
    assert bars[0].Valid() && bars[1].Valid();
  }

  /** Every published value is sound: kept out of the bars, on the exact extreme, with its exact factor. */
  lemma {:induction false} PublishedIsSound(bars: seq<Candle>, o: Options, i: nat)
    requires Available(bars, o, i)
    ensures Sound(bars, o, StateAt(bars, o, i), i) && Inside(StateAt(bars, o, i))
  {
    hide Advance, Seed, StateAt, KeptOut, Moved;
    Unfold(bars, o, i);
    assert bars[i].Valid();
    if i == 1 {
      var s := Seed(bars, o);
      SeedIsInside(bars, o);
      AdvanceShape(bars, o, s, 1);
      FirstRow(bars, o, StateAt(bars, o, 1));
    } else {
      var s := StateAt(bars, o, i - 1);
      PublishedIsSound(bars, o, i - 1);
      AdvanceShape(bars, o, s, i);
      LaterRow(bars, o, s, StateAt(bars, o, i), i);
    }
  }

  lemma FirstRow(bars: seq<Candle>, o: Options, r: State)
    requires |bars| >= 2 && o.Valid() && bars[1].Valid() && r == StateAt(bars, o, 1)
    requires (r.trend == 1 || r.trend == -1) && KeptOut(bars, r, 1) && r.af == o.start
    requires r.ep == (if r.trend == 1 then bars[1].h else bars[1].l)
    ensures Sound(bars, o, r, 1) && Inside(r)
  {
    hide StateAt, Factor;
    FactorSteps(o, 0);
    assert if r.trend == 1 then r.sar <= bars[1].l else r.sar >= bars[1].h;
    assert NewExtremes(bars, o, 1) == 0;
  }

  lemma LaterRow(bars: seq<Candle>, o: Options, s: State, r: State, i: nat)
    requires 2 <= i < |bars| && o.Valid() && bars[i].Valid()
    requires s == StateAt(bars, o, i - 1) && r == StateAt(bars, o, i) && Sound(bars, o, s, i - 1)
    requires (r.trend == 1 || r.trend == -1) && KeptOut(bars, r, i)
    requires r.trend != s.trend ==> r.ep == (if r.trend == 1 then bars[i].h else bars[i].l) && r.af == o.start
    requires r.trend == s.trend ==>
               && r.ep == (if r.trend == 1 then Max(s.ep, bars[i].h) else Min(s.ep, bars[i].l))
               && r.af == (if Extends(bars, s, i) then Min(s.af + o.step, o.cap) else s.af)
    ensures Sound(bars, o, r, i) && Inside(r)
  {
    hide StateAt, Factor;
    FactorSteps(o, 0);
    assert if r.trend == 1 then r.sar <= bars[i].l else r.sar >= bars[i].h;
    if r.trend == s.trend {
      assert TrendSince(bars, o, i) == TrendSince(bars, o, i - 1);
      FactorSteps(o, NewExtremes(bars, o, i - 1));
    } else {
      assert TrendSince(bars, o, i) == i;
    }
  }

  lemma TurnsExactlyOnPenetration(bars: seq<Candle>, o: Options, i: nat)
    requires Available(bars, o, i) && i > 1
    ensures StateAt(bars, o, i).trend != StateAt(bars, o, i - 1).trend <==> Penetrated(bars, StateAt(bars, o, i - 1), i)
  {
    hide Moved, StateAt, Sound;
    Unfold(bars, o, i);
  }

  /**
    A trend holds through a bar unless the moved stop strictly penetrates it, and while it holds
    its stop never moves back.
  */
  lemma StopNeverRetreats(bars: seq<Candle>, o: Options, i: nat)
    requires Available(bars, o, i) && i > 1
    ensures var before, now := StateAt(bars, o, i - 1), StateAt(bars, o, i);
            && (now.trend == before.trend <==> !Penetrated(bars, before, i))
            && (now.trend == before.trend ==> if now.trend == 1 then before.sar <= now.sar else before.sar >= now.sar)
  {
    hide Advance, Seed, StateAt, Moved, TrendSince, NewExtremes, HighSince, LowSince, Penetrated;
    TurnsExactlyOnPenetration(bars, o, i);
    var s := StateAt(bars, o, i - 1);
    if StateAt(bars, o, i).trend == s.trend {
      PublishedIsSound(bars, o, i - 1);
      Unfold(bars, o, i);
      MovesToward(s);
      Retreats(bars, o, s, i);
    }
  }

  lemma Retreats(bars: seq<Candle>, o: Options, s: State, i: nat)
    requires 2 <= i < |bars| && KeptOut(bars, s, i - 1) && Advance(bars, o, s, i).trend == s.trend
    requires s.trend == 1 || s.trend == -1
    requires if s.trend == 1 then s.sar <= Moved(s) else s.sar >= Moved(s)
    ensures var r := Advance(bars, o, s, i);
            if s.trend == 1 then s.sar <= r.sar else s.sar >= r.sar
  {
    hide Moved;
    assert if s.trend == 1 then s.sar <= bars[i - 1].l && s.sar <= bars[i - 2].l
           else s.sar >= bars[i - 1].h && s.sar >= bars[i - 2].h;
  }

  // ----- the published values in full

  /** The extreme that the trend of bar i has reached by bar i. */
  function ExtremeBy(bars: seq<Candle>, o: Options, i: nat): real
    requires 1 <= i < |bars|
  {
    if StateAt(bars, o, i).trend == 1 then HighSince(bars, TrendSince(bars, o, i), i)
    else LowSince(bars, TrendSince(bars, o, i), i)
  }

  /** Where the stop of bar i would go: toward the extreme, by one step of the factor for each new extreme so far. */
  function Aim(bars: seq<Candle>, o: Options, i: nat): real
    requires 1 <= i < |bars|
  {
    Toward(StateAt(bars, o, i).sar, ExtremeBy(bars, o, i), Factor(o, NewExtremes(bars, o, i)))
  }

  /** The part k of the way from a to b. */
  function Toward(a: real, b: real, k: real): real {
    a + k * (b - a)
  }

  lemma MovedIs(s: State)
    ensures Moved(s) == Toward(s.sar, s.ep, s.af)
  {
  }

  function Least3(a: real, b: real, c: real): real {
    Min(a, Min(b, c))
  }

  function Greatest3(a: real, b: real, c: real): real {
    Max(a, Max(b, c))
  }

  lemma AimIs(bars: seq<Candle>, o: Options, i: nat)
    requires Available(bars, o, i)
    ensures Moved(StateAt(bars, o, i)) == Aim(bars, o, i) && StateAt(bars, o, i).ep == ExtremeBy(bars, o, i)
    ensures StateAt(bars, o, i).trend == 1 || StateAt(bars, o, i).trend == -1
  {
    PublishedIsSound(bars, o, i);
    MovedIs(StateAt(bars, o, i));
    hide StateAt, TrendSince, NewExtremes, HighSince, LowSince, KeptOut, Inside, Factor, Moved, Toward;
  }

  /**
    Every published value from the one before it. A rising stop goes to its aim, but never above the
    last two lows; when the aim lies above the bar's low the trend turns, and the stop jumps to the
    highest of the extreme, this bar and the last two. Falling trends are the mirror image.
  */
  lemma SarIs(bars: seq<Candle>, o: Options, i: nat)
    requires Available(bars, o, i) && i >= 2
    ensures var before, now, aim := StateAt(bars, o, i - 1), StateAt(bars, o, i), Aim(bars, o, i - 1);
            var a, b, d := bars[i - 2], bars[i - 1], bars[i];
            var extreme := ExtremeBy(bars, o, i - 1);
            if before.trend == 1 then
              if aim > d.l then now.trend == -1 && now.sar == Max(extreme, Greatest3(d.h, b.h, a.h))
              else now.trend == 1 && now.sar == Least3(aim, b.l, a.l)
            else
              if aim < d.h then now.trend == 1 && now.sar == Min(extreme, Least3(d.l, b.l, a.l))
              else now.trend == -1 && now.sar == Greatest3(aim, b.h, a.h)
  {
    AimIs(bars, o, i - 1);
    Unfold(bars, o, i);
    hide StateAt, Moved, Aim, ExtremeBy;
  }

  /**
    The first published value: the trend points up exactly when the second close is above the first,
    unless its stop, started at the first bar's other end and moved once, is already penetrated.
  */
  lemma FirstSarIs(bars: seq<Candle>, o: Options)
    requires Available(bars, o, 1)
    ensures var now, a, b := StateAt(bars, o, 1), bars[0], bars[1];
            if b.c > a.c then
              if a.l + o.start * (b.h - a.l) > b.l then now.trend == -1 && now.sar == Max(a.h, b.h)
              else now.trend == 1 && now.sar == a.l
            else
              if a.h + o.start * (b.l - a.h) < b.h then now.trend == 1 && now.sar == Min(a.l, b.l)
              else now.trend == -1 && now.sar == a.h
  {
    Unfold(bars, o, 1);
    var s := Seed(bars, o);
    SeedIsInside(bars, o);
    MovesToward(s);
    assert Moved(s) == s.sar + o.start * (s.ep - s.sar);
    hide Moved;
  }

  /** A value is published for every bar but the first, up to the first bar out of order, under sound options. */
  lemma PublishedExactlyWhen(bars: seq<Candle>, o: Options, i: nat)
    ensures Available(bars, o, i) <==>
              && 0.0 < o.start <= o.cap <= 1.0 && 0.0 < o.step <= o.cap && 0 < i < |bars|
              && forall j :: 0 <= j <= i ==> bars[j].l <= bars[j].c && bars[j].c <= bars[j].h
  {
    if Available(bars, o, i) {
      assert forall j :: 0 <= j <= i ==> bars[j].Valid();
    }
  }

  /** A flip is 1 where a falling trend turned up, -1 where a rising one turned down, and 0 elsewhere. */
  lemma FlipShown(bars: seq<Candle>, o: Options, trend: seq<int>, i: nat)
    requires Available(bars, o, i) && i < |trend|
    requires forall j :: 1 <= j <= i ==> trend[j] == StateAt(bars, o, j).trend
    ensures FlipAt(trend, i)
            == if i == 1 || StateAt(bars, o, i - 1).trend == StateAt(bars, o, i).trend then 0
               else if StateAt(bars, o, i - 1).trend == -1 then 1 else -1
  {
    hide StateAt;
    AimIs(bars, o, i);
    if i > 1 {
      AimIs(bars, o, i - 1);
    }
  }

  /** Bars after i do not matter to what is published at i. */
  lemma {:induction false} SarPrefix(bars: seq<Candle>, o: Options, i: nat, m: nat)
    requires 1 <= i < m <= |bars|
    ensures StateAt(bars[..m], o, i) == StateAt(bars, o, i)
    ensures Available(bars[..m], o, i) <==> Available(bars, o, i)
  {
    hide Advance, StateAt, Seed;
    Unfold(bars, o, i);
    Unfold(bars[..m], o, i);
    var s := if i == 1 then Seed(bars, o) else StateAt(bars, o, i - 1);
    if i > 1 {
      SarPrefix(bars, o, i - 1, m);
    } else {
      SeedPrefix(bars, o, m);
    }
    AdvancePrefix(bars, o, s, i, m);
    assert forall j :: 0 <= j <= i ==> bars[..m][j] == bars[j];
  }

  lemma SeedPrefix(bars: seq<Candle>, o: Options, m: nat)
    requires 2 <= m <= |bars|
    ensures Seed(bars[..m], o) == Seed(bars, o)
  {
  }

  lemma AdvancePrefix(bars: seq<Candle>, o: Options, s: State, i: nat, m: nat)
    requires 1 <= i < m <= |bars|
    ensures Advance(bars[..m], o, s, i) == Advance(bars, o, s, i)
  {
    hide Moved;
  }
}
