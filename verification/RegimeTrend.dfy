/**
  Trend regime with hysteresis (contextcols/ranges.go, contextcols/options.go): two variables
  carried from bar to bar, proved to have a meaning that needs no history variables.
*/
module RegimeTrend {
  /** The trend fields of the options before normalisation. */
  datatype Settings = Settings(trendER: real, enterER: real, exitER: real, persistence: int) {
    function Normalized(): (o: Settings)
      ensures o.enterER > 0.0 && 0.0 < o.exitER <= o.enterER && o.persistence >= 1
      ensures enterER > 0.0 ==> o.enterER == enterER
      ensures 0.0 < exitER <= o.enterER ==> o.exitER == exitER
      ensures persistence >= 1 ==> o.persistence == persistence
      ensures enterER <= 0.0 && trendER > 0.0 ==> o.enterER == trendER
      ensures enterER <= 0.0 && trendER <= 0.0 ==> o.enterER == 0.4
      ensures exitER <= 0.0 || exitER > o.enterER ==> o.exitER == o.enterER
      ensures persistence < 1 ==> o.persistence == 1
    {
      var plain := if trendER <= 0.0 then 0.4 else trendER;
      var enter := if enterER <= 0.0 then plain else enterER;
      Settings(plain, enter, if exitER <= 0.0 || exitER > enter then enter else exitER,
               if persistence <= 0 then 1 else persistence)
    }
  }

  datatype Bar = Bar(close: real, er: real, ranging: bool)

  datatype Regime = Ranging | Choppy | Up | Down

  /** Closing at or above the close erLen bars ago points up. */
  function Direction(bars: seq<Bar>, i: nat, erLen: nat): Regime
    requires i < |bars|
  {
    var ref := if i >= erLen then i - erLen else 0;
    if bars[i].close >= bars[ref].close then Up else Down
  }

  /** classifyRegimeTrend: the rule without memory. */
  function Stateless(bars: seq<Bar>, i: nat, erLen: nat, trendER: real): Regime
    requires i < |bars|
  {
    if bars[i].ranging then Ranging
    else if bars[i].er >= trendER then Direction(bars, i, erLen)
    else Choppy
  }

  // ----- the meaning

  predicate Strong(b: Bar, o: Settings) {
    !b.ranging && b.er >= o.enterER
  }

  predicate Holds(b: Bar, o: Settings) {
    !b.ranging && b.er >= o.exitER
  }

  /** Bar k ends persistence consecutive strong bars. */
  ghost predicate Launches(bars: seq<Bar>, o: Settings, k: nat)
    requires k < |bars|
  {
    k + 1 >= o.persistence && forall j :: k - o.persistence < j <= k && 0 <= j ==> Strong(bars[j], o)
  }

  /** Bar i is trending: some launch at or before it, and no bar since then let go. */
  ghost predicate Trending(bars: seq<Bar>, o: Settings, i: nat)
    requires i < |bars|
  {
    exists k: nat :: k <= i && Launches(bars, o, k) && HeldFrom(bars, o, k, i)
  }

  ghost predicate HeldFrom(bars: seq<Bar>, o: Settings, k: nat, i: nat)
    requires i < |bars|
  {
    forall j :: k <= j <= i ==> Holds(bars[j], o)
  }

  function Meaning(bars: seq<Bar>, o: Settings, erLen: nat, i: nat, trending: bool): Regime
    requires i < |bars|
  {
    if bars[i].ranging then Ranging else if trending then Direction(bars, i, erLen) else Choppy
  }

  /** The number of strong bars in a row that end at bar i. */
  function Streak(bars: seq<Bar>, o: Settings, i: nat): nat
    requires i < |bars|
  {
    if !Strong(bars[i], o) then 0 else if i == 0 then 1 else Streak(bars, o, i - 1) + 1
  }

  lemma {:induction false} StreakCounts(bars: seq<Bar>, o: Settings, i: nat, p: nat)
    requires i < |bars| && p >= 1
    ensures Streak(bars, o, i) <= i + 1
    ensures Streak(bars, o, i) >= p <==> i + 1 >= p && forall j :: i - p < j <= i && 0 <= j ==> Strong(bars[j], o)
  {
    hide Strong;
    if Strong(bars[i], o) && i > 0 {
      StreakCounts(bars, o, i - 1, p);
      if p > 1 {
        StreakCounts(bars, o, i - 1, p - 1);
      }
    }
  }

  lemma TrendingStep(bars: seq<Bar>, o: Settings, i: nat)
    requires i < |bars| && o.persistence >= 1 && o.exitER <= o.enterER
    ensures Trending(bars, o, i) <==>
              Streak(bars, o, i) >= o.persistence || (i > 0 && Trending(bars, o, i - 1) && Holds(bars[i], o))
  {
    StreakCounts(bars, o, i, o.persistence);
    if Streak(bars, o, i) >= o.persistence {
      assert Strong(bars[i], o);
      assert Launches(bars, o, i) && HeldFrom(bars, o, i, i);
    } else if i > 0 && Trending(bars, o, i - 1) && Holds(bars[i], o) {
      var k: nat :| k <= i - 1 && Launches(bars, o, k) && HeldFrom(bars, o, k, i - 1);
      assert HeldFrom(bars, o, k, i);
    }
    if Trending(bars, o, i) {
      var k: nat :| k <= i && Launches(bars, o, k) && HeldFrom(bars, o, k, i);
      assert k < i ==> HeldFrom(bars, o, k, i - 1);
    }
  }

  // ----- the machine

  class TrendState {
    var active: bool
    var candidates: int

    constructor ()
      ensures !active && candidates == 0
    {
      active, candidates := false, 0;
    }

    /** The two variables after bar i, or before the first bar. */
    ghost predicate Follows(bars: seq<Bar>, o: Settings, i: int)
      requires -1 <= i < |bars|
      reads this
    {
      if i < 0 then !active && candidates == 0
      else (active <==> Trending(bars, o, i)) && (!active ==> candidates == Streak(bars, o, i))
    }

    /** classifyRegimeTrendState. */
    method Classify(bars: seq<Bar>, o: Settings, erLen: nat, i: nat) returns (regime: Regime)
      requires i < |bars| && o.persistence >= 1 && o.exitER <= o.enterER && Follows(bars, o, i - 1)
      modifies this
      ensures Follows(bars, o, i)
      ensures regime == Meaning(bars, o, erLen, i, active)
    {
      hide Trending;
      TrendingStep(bars, o, i);
      if bars[i].ranging {
        active := false;
        candidates := 0;
        return Ranging;
      }
      if active {
        if bars[i].er < o.exitER {
          active := false;
          candidates := 0;
        }
      } else if bars[i].er >= o.enterER {
        candidates := candidates + 1;
        if candidates >= o.persistence {
          active := true;
        }
      } else {
        candidates := 0;
      }
      if !active {
        return Choppy;
      }
      return Direction(bars, i, erLen);
    }
  }

  /** The regime column of the build loop, for any settings. */
  method Regimes(bars: seq<Bar>, settings: Settings, erLen: nat) returns (out: seq<Regime>)
    ensures |out| == |bars|
    ensures forall i :: 0 <= i < |bars| ==>
              out[i] == Meaning(bars, settings.Normalized(), erLen, i, Trending(bars, settings.Normalized(), i))
  {
    hide Trending, Meaning;
    var o := settings.Normalized();
    out := [];
    var state := new TrendState();
    for i := 0 to |bars|
      invariant |out| == i && state.Follows(bars, o, i - 1)
      invariant forall j :: 0 <= j < i ==> out[j] == Meaning(bars, o, erLen, j, Trending(bars, o, j))
    {
      var regime := state.Classify(bars, o, erLen, i);
      out := out + [regime];
    }
  }

  /** With one bar of persistence and a single threshold the machine is the rule without memory. */
  lemma MemorylessCase(bars: seq<Bar>, o: Settings, erLen: nat, i: nat)
    requires i < |bars| && o.persistence == 1 && o.exitER == o.enterER
    ensures Meaning(bars, o, erLen, i, Trending(bars, o, i)) == Stateless(bars, i, erLen, o.enterER)
  {
    TrendingStep(bars, o, i);
  }

  /**
    Each regime of the column, said of the bars: up is trending with a close at or above the one
    erLen bars back, or the first when there are fewer; down is trending below it.
  */
  lemma RegimesShown(bars: seq<Bar>, o: Settings, erLen: nat, i: nat)
    requires i < |bars|
    ensures var regime, trending := Meaning(bars, o, erLen, i, Trending(bars, o, i)), Trending(bars, o, i);
            var base := bars[if i < erLen then 0 else i - erLen].close;
            && (regime == Ranging <==> bars[i].ranging)
            && (regime == Choppy <==> !bars[i].ranging && !trending)
            && (regime == Up <==> !bars[i].ranging && trending && base <= bars[i].close)
            && (regime == Down <==> !bars[i].ranging && trending && bars[i].close < base)
  {
    hide Trending;
  }

  /** A trending bar has an efficiency at or above the exit threshold, and a launch at or above the entry one. */
  lemma TrendingIsStrong(bars: seq<Bar>, o: Settings, i: nat) returns (k: nat)
    requires i < |bars| && Trending(bars, o, i)
    ensures !bars[i].ranging && bars[i].er >= o.exitER
    ensures k <= i && k + 1 >= o.persistence
    ensures forall j :: k - o.persistence < j <= k && 0 <= j ==> !bars[j].ranging && bars[j].er >= o.enterER
    ensures forall j :: k <= j <= i ==> !bars[j].ranging && bars[j].er >= o.exitER
  {
    k :| k <= i && Launches(bars, o, k) && HeldFrom(bars, o, k, i);
  }

  /** Later bars do not change an earlier bar's regime. */
  lemma RegimePrefix(bars: seq<Bar>, o: Settings, i: nat, m: nat)
    requires i < m <= |bars| && o.persistence >= 1 && o.exitER <= o.enterER
    ensures Trending(bars[..m], o, i) <==> Trending(bars, o, i)
  {
    if Trending(bars, o, i) {
      var k: nat :| k <= i && Launches(bars, o, k) && HeldFrom(bars, o, k, i);
      assert Launches(bars[..m], o, k) && HeldFrom(bars[..m], o, k, i);
    }
    if Trending(bars[..m], o, i) {
      var k: nat :| k <= i && Launches(bars[..m], o, k) && HeldFrom(bars[..m], o, k, i);
      assert forall j :: 0 <= j < m ==> bars[..m][j] == bars[j];
      assert Launches(bars, o, k) && HeldFrom(bars, o, k, i);
    }
  }
}
