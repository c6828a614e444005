/**
  Causal seasonality (contextcols/seasonality.go): per-bucket counters with a queue that is
  pruned only when its bucket is read, proved to agree with recounting the earlier bars.
*/
module Seasonality {
  import opened Common

  const HOUR := 3600000
  const DAY := 86400000

  /** One bar with the bucket its time falls in and, for intraday buckets, the next one. */
  datatype Bar = Bar(t: int, o: real, c: real, bucket: string, next: Option<string>)

  datatype Spec = Spec(lookbackDays: int, minSamples: int) {
    function Normalized(): (s: Spec)
      ensures s.lookbackDays >= 0 && s.minSamples >= 1
      ensures lookbackDays > 0 ==> s.lookbackDays == lookbackDays
      ensures lookbackDays <= 0 ==> s.lookbackDays == 0
      ensures minSamples > 0 ==> s.minSamples == minSamples
      ensures minSamples <= 0 ==> s.minSamples == 5
    {
      Spec(if lookbackDays <= 0 then 0 else lookbackDays, if minSamples <= 0 then 5 else minSamples)
    }
  }

  datatype Move = Rise | Fall | Doji

  datatype Obs = Obs(time: int, dir: Move)

  datatype Tally = Tally(bullish: int, bearish: int, doji: int, queue: seq<Obs>)

  datatype Class = Insufficient | ExtremeBullish | Bullish | Neutral | Bearish | ExtremeBearish

  datatype Stat = Stat(bullish: int, bearish: int, doji: int, total: int, directional: int, percent: Option<real>,
                       class_: Class)

  datatype Entry = Entry(bucket: string, stat: Stat, next: Option<(string, Stat)>)

  function Dir(b: Bar): Move {
    if b.c > b.o then Rise else if b.c < b.o then Fall else Doji
  }

  function Classify(percent: Option<real>, count: int, minSamples: int): Class {
    if percent.None? || count < minSamples then Insufficient
    else if percent.value >= 76.0 then ExtremeBullish
    else if percent.value >= 56.0 then Bullish
    else if percent.value >= 45.0 then Neutral
    else if percent.value >= 26.0 then Bearish
    else ExtremeBearish
  }

  function StatOf(bullish: int, bearish: int, doji: int, minSamples: int): Stat {
    var directional := bullish + bearish;
    var percent := if directional > 0 then Some(bullish as real / directional as real * 100.0) else None;
    Stat(bullish, bearish, doji, bullish + bearish + doji, directional, percent,
         Classify(percent, directional, minSamples))
  }

  // ----- recounting

  /** All observations of a bucket among the first n bars. */
  function Seen(bars: seq<Bar>, n: nat, bucket: string): seq<Obs>
    requires n <= |bars|
  {
    if n == 0 then []
    else
      Seen(bars, n - 1, bucket)
      + if bars[n - 1].bucket == bucket then [Obs(bars[n - 1].t, Dir(bars[n - 1]))] else []
  }

  function Recent(q: seq<Obs>, cutoff: int): seq<Obs> {
    if q == [] then []
    else Recent(q[..|q| - 1], cutoff) + if q[|q| - 1].time >= cutoff then [q[|q| - 1]] else []
  }

  function Count(q: seq<Obs>, dir: Move): nat {
    if q == [] then 0 else Count(q[..|q| - 1], dir) + if q[|q| - 1].dir == dir then 1 else 0
  }

  /** What counts at row i for a bucket: every earlier bar, or those inside the lookback. */
  function Window(bars: seq<Bar>, i: nat, bucket: string, lookbackDays: int): seq<Obs>
    requires i < |bars|
  {
    if lookbackDays <= 0 then Seen(bars, i, bucket)
    else Recent(Seen(bars, i, bucket), bars[i].t - lookbackDays * DAY)
  }

  function StatAt(bars: seq<Bar>, i: nat, bucket: string, s: Spec): Stat
    requires i < |bars|
  {
    var q := Window(bars, i, bucket, s.lookbackDays);
    StatOf(Count(q, Rise), Count(q, Fall), Count(q, Doji), s.minSamples)
  }

  /** The bucket has an entry when row i reads it: an earlier bar fell in it, or row i itself does. */
  predicate Known(bars: seq<Bar>, i: nat, bucket: string)
    requires i < |bars|
  {
    bars[i].bucket == bucket || exists j :: 0 <= j < i && bars[j].bucket == bucket
  }

  function EntryAt(bars: seq<Bar>, i: nat, s: Spec): Entry
    requires i < |bars|
  {
    var b := bars[i];
    Entry(b.bucket, StatAt(bars, i, b.bucket, s),
          if b.next.Some? && Known(bars, i, b.next.value)
          then Some((b.next.value, StatAt(bars, i, b.next.value, s))) else None)
  }

  ghost predicate Nondecreasing(bars: seq<Bar>) {
    forall i, j :: 0 <= i <= j < |bars| ==> bars[i].t <= bars[j].t
  }

  ghost predicate Ascending(q: seq<Obs>) {
    forall i, j :: 0 <= i <= j < |q| ==> q[i].time <= q[j].time
  }

  lemma {:induction false} SeenAscends(bars: seq<Bar>, n: nat, bucket: string)
    requires n <= |bars| && Nondecreasing(bars)
    ensures Ascending(Seen(bars, n, bucket))
    ensures forall o :: o in Seen(bars, n, bucket) ==> n > 0 && o.time <= bars[n - 1].t
  {
    if n > 0 {
      SeenAscends(bars, n - 1, bucket);
      var before := Seen(bars, n - 1, bucket);
      assert forall i :: 0 <= i < |before| ==> before[i] in before;
    }
  }

  lemma AscendingParts(q: seq<Obs>, k: nat)
    requires Ascending(q) && k < |q|
    ensures Ascending(q[..|q| - 1]) && Ascending(q[k..]) && q[k].time <= q[|q| - 1].time
  {
  }

  /** Dropping the old front of an ascending queue keeps exactly the recent observations. */
  lemma {:induction false} DropFront(q: seq<Obs>, cutoff: int, k: nat)
    requires k <= |q| && Ascending(q)
    requires forall j :: 0 <= j < k ==> q[j].time < cutoff
    requires k < |q| ==> q[k].time >= cutoff
    ensures Recent(q, cutoff) == q[k..]
  {
    hide Ascending;
    if q == [] {
    } else if k == |q| {
      NoneRecent(q, cutoff);
    } else {
      var front := q[..|q| - 1];
      AscendingParts(q, k);
      if k < |front| {
        DropFront(front, cutoff, k);
        assert q[k..] == front[k..] + [q[|q| - 1]];
      } else {
        NoneRecent(front, cutoff);
        assert q[k..] == [q[|q| - 1]];
      }
    }
  }

  lemma {:induction false} NoneRecent(q: seq<Obs>, cutoff: int)
    requires forall j :: 0 <= j < |q| ==> q[j].time < cutoff
    ensures Recent(q, cutoff) == []
  {
    if q != [] {
      NoneRecent(q[..|q| - 1], cutoff);
    }
  }

  /** A later cutoff applied to an already pruned queue gives the same as on the whole list. */
  lemma {:induction false} RecentTwice(q: seq<Obs>, first: int, second: int)
    requires first <= second
    ensures Recent(Recent(q, first), second) == Recent(q, second)
  {
    if q != [] {
      var front, last := q[..|q| - 1], q[|q| - 1];
      RecentTwice(front, first, second);
      if last.time >= first {
        var kept := Recent(front, first) + [last];
        assert kept[..|kept| - 1] == Recent(front, first);
      } else {
        assert Recent(q, first) == Recent(front, first) + [] == Recent(front, first);
        assert Recent(q, second) == Recent(front, second) + [] == Recent(front, second);
      }
    }
  }

  lemma CountSnoc(q: seq<Obs>, o: Obs, dir: Move)
    ensures Count(q + [o], dir) == Count(q, dir) + if o.dir == dir then 1 else 0
  {
    assert (q + [o])[..|q|] == q;
  }

  lemma {:induction false} CountCons(q: seq<Obs>, dir: Move)
    requires q != []
    ensures Count(q, dir) == (if q[0].dir == dir then 1 else 0) + Count(q[1..], dir)
  {
    if |q| > 1 {
      var front := q[..|q| - 1];
      CountCons(front, dir);
      assert front[1..] == q[1..][..|q| - 2];
    }
  }

  lemma RecentSnoc(q: seq<Obs>, o: Obs, cutoff: int)
    requires o.time >= cutoff
    ensures Recent(q + [o], cutoff) == Recent(q, cutoff) + [o]
  {
    assert (q + [o])[..|q|] == q;
  }

  // ----- the counters

  /** A tally that agrees with its own queue. */
  predicate Agrees(t: Tally) {
    t.bullish == Count(t.queue, Rise) && t.bearish == Count(t.queue, Fall) && t.doji == Count(t.queue, Doji)
  }

  function DropOld(q: seq<Obs>, cutoff: int): (r: seq<Obs>) {
    if q != [] && q[0].time < cutoff then DropOld(q[1..], cutoff) else q
  }

  function TallyOf(q: seq<Obs>): (t: Tally)
    ensures Agrees(t)
  {
    Tally(Count(q, Rise), Count(q, Fall), Count(q, Doji), q)
  }

  /**
    With a lookback the queue holds the observations since some cutoff that is not too late;
    without one only the counters count.
  */
  ghost predicate Matches(t: Tally, seen: seq<Obs>, lookbackDays: int, now: int) {
    if lookbackDays <= 0 then t == TallyOf(seen).(queue := [])
    else Agrees(t) && exists cut :: cut <= now - lookbackDays * DAY && t.queue == Recent(seen, cut)
  }

  lemma DropOldIsRecent(q: seq<Obs>, cutoff: int)
    requires Ascending(q)
    ensures DropOld(q, cutoff) == Recent(q, cutoff)
    ensures Ascending(Recent(q, cutoff))
  {
    hide Ascending, Recent, DropOld;
    var k := OldFront(q, cutoff);
    DropFront(q, cutoff, k);
    if k < |q| {
      AscendingParts(q, k);
    } else {
      NothingAscends();
    }
  }

  lemma NothingAscends()
    ensures Ascending([])
  {
  }

  lemma {:induction false} OldFront(q: seq<Obs>, cutoff: int) returns (k: nat)
    ensures k <= |q| && DropOld(q, cutoff) == q[k..]
    ensures forall j :: 0 <= j < k ==> q[j].time < cutoff
    ensures k < |q| ==> q[k].time >= cutoff
  {
    if q != [] && q[0].time < cutoff {
      var m := OldFront(q[1..], cutoff);
      k := m + 1;
      assert q[1..][m..] == q[k..];
      assert forall j :: 0 < j < k ==> q[j] == q[1..][j - 1];
      assert k < |q| ==> q[k] == q[1..][m];
    } else {
      k := 0;
    }
  }

  /** Pruning at a time not before the last one leaves exactly the observations inside the lookback. */
  lemma PruneMatches(t: Tally, seen: seq<Obs>, days: int, before: int, now: int)
    requires days > 0 && Matches(t, seen, days, before) && before <= now && Ascending(seen)
    ensures DropOld(t.queue, now - days * DAY) == Recent(seen, now - days * DAY)
    ensures Matches(TallyOf(DropOld(t.queue, now - days * DAY)), seen, days, now)
  {
    hide Recent, DropOld, Count, Ascending;
    var cut :| cut <= before - days * DAY && t.queue == Recent(seen, cut);
    DropOldIsRecent(seen, cut);
    DropOldIsRecent(t.queue, now - days * DAY);
    RecentTwice(seen, cut, now - days * DAY);
  }

  lemma AddMatches(t: Tally, seen: seq<Obs>, days: int, now: int, o: Obs)
    requires Matches(t, seen, days, now) && o.time >= now
    ensures Matches(Added(t, o, days), seen + [o], days, o.time)
  {
    hide Count, Recent;
    CountSnoc(seen, o, Rise);
    CountSnoc(seen, o, Fall);
    CountSnoc(seen, o, Doji);
    CountSnoc(t.queue, o, Rise);
    CountSnoc(t.queue, o, Fall);
    CountSnoc(t.queue, o, Doji);
    if days > 0 {
      var cut :| cut <= now - days * DAY && t.queue == Recent(seen, cut);
      assert cut <= o.time - days * DAY && days * DAY > 0;
      RecentSnoc(seen, o, cut);
    }
  }

  function Added(t: Tally, o: Obs, days: int): Tally {
    Tally(t.bullish + (if o.dir == Rise then 1 else 0), t.bearish + (if o.dir == Fall then 1 else 0),
          t.doji + (if o.dir == Doji then 1 else 0), if days > 0 then t.queue + [o] else t.queue)
  }

  lemma NewMatches(seen: seq<Obs>, days: int, now: int)
    requires seen == []
    ensures Matches(Tally(0, 0, 0, []), seen, days, now)
  {
    assert Recent(seen, now - days * DAY) == [];
  }

  class SeasonState {
    const spec: Spec
    var buckets: map<string, Tally>

    constructor (spec: Spec)
      ensures this.spec == spec && buckets == map[]
    {
      this.spec := spec;
      buckets := map[];
    }

    /** Every bucket matches the first n bars, nothing having been pruned later than now. */
    ghost predicate Follows(bars: seq<Bar>, n: nat, now: int)
      requires n <= |bars|
      reads this
    {
      forall b :: b in buckets ==> Matches(buckets[b], Seen(bars, n, b), spec.lookbackDays, now)
    }

    /** Exactly the buckets of earlier bars, and perhaps the current one. */
    ghost predicate Covers(bars: seq<Bar>, n: nat, own: Option<string>)
      requires n <= |bars|
      reads this
    {
      forall b :: b in buckets <==> own == Some(b) || exists j :: 0 <= j < n && bars[j].bucket == b
    }

    method Bucket(name: string) returns (t: Tally)
      modifies this
      ensures buckets == (if name in old(buckets) then old(buckets) else old(buckets)[name := Tally(0, 0, 0, [])])
      ensures name in buckets && t == buckets[name]
    {
      if name !in buckets {
        buckets := buckets[name := Tally(0, 0, 0, [])];
      }
      t := buckets[name];
    }

    method Prune(name: string, now: int)
      requires name in buckets && (spec.lookbackDays > 0 ==> Agrees(buckets[name]))
      modifies this
      ensures buckets == if spec.lookbackDays <= 0 then old(buckets)
                         else
                           var kept := DropOld(old(buckets)[name].queue, now - spec.lookbackDays * DAY);
                           old(buckets)[name := TallyOf(kept)]
    {
      if spec.lookbackDays <= 0 {
        return;
      }
      var cutoff := now - spec.lookbackDays * DAY;
      var t := buckets[name];
      ghost var q := t.queue;
      var count := 0;
      while count < |t.queue| && t.queue[count].time < cutoff
        invariant count <= |t.queue| && t.queue == q && buckets == old(buckets)
        invariant DropOld(q[count..], cutoff) == DropOld(q, cutoff)
        invariant Agrees(t.(queue := t.queue[count..]))
        decreases |q| - count
      {
        var rest := t.queue[count..];
        CountCons(rest, Rise);
        CountCons(rest, Fall);
        CountCons(rest, Doji);
        assert rest[1..] == t.queue[count + 1..];
        match t.queue[count].dir {
          case Rise => t := t.(bullish := t.bullish - 1);
          case Fall => t := t.(bearish := t.bearish - 1);
          case Doji => t := t.(doji := t.doji - 1);
        }
        count := count + 1;
      }
      t := t.(queue := t.queue[count..]);
      assert t == TallyOf(DropOld(q, cutoff));
      buckets := buckets[name := t];
    }

    /** One bucket as row i reads it. */
    method ReadBucket(bars: seq<Bar>, i: nat, name: string) returns (stat: Stat)
      requires i < |bars| && Nondecreasing(bars) && name in buckets && Follows(bars, i, bars[i].t)
      modifies this
      ensures Follows(bars, i, bars[i].t) && buckets.Keys == old(buckets.Keys)
      ensures stat == StatAt(bars, i, name, spec)
    {
      hide Nondecreasing, StatOf, Seen, Count, Recent, Matches, DropOld, StatAt;
      PrunedStat(bars, i, name, spec, buckets[name]);
      Prune(name, bars[i].t);
      var t := buckets[name];
      stat := StatOf(t.bullish, t.bearish, t.doji, spec.minSamples);
    }

    /** The row is read before its bar is added; the next bucket only if it exists. */
    method Read(bars: seq<Bar>, i: nat) returns (e: Entry)
      requires i < |bars| && Nondecreasing(bars)
      requires Follows(bars, i, if i == 0 then bars[0].t else bars[i - 1].t) && Covers(bars, i, None)
      modifies this
      ensures Follows(bars, i, bars[i].t) && Covers(bars, i, Some(bars[i].bucket))
      ensures e == EntryAt(bars, i, spec)
    {
      hide StatOf, Seen, Count, Recent, Matches, DropOld, StatAt;
      var b := bars[i];
      ghost var before := if i == 0 then bars[0].t else bars[i - 1].t;
      assert before <= b.t;
      var _ := Bucket(b.bucket);
      forall name | name in buckets
        ensures Matches(buckets[name], Seen(bars, i, name), spec.lookbackDays, b.t)
      {
        if name in old(buckets) {
          LaterMatches(buckets[name], Seen(bars, i, name), spec.lookbackDays, before, b.t);
        } else {
          NothingSeen(bars, i, name);
          NewMatches(Seen(bars, i, name), spec.lookbackDays, b.t);
        }
      }
      var own := ReadBucket(bars, i, b.bucket);
      e := Entry(b.bucket, own, None);
      if b.next.Some? && b.next.value in buckets {
        var next := ReadBucket(bars, i, b.next.value);
        e := e.(next := Some((b.next.value, next)));
      }
    }

    /** The bar joins its bucket after the row was read. */
    method Add(bars: seq<Bar>, i: nat)
      requires i < |bars| && Nondecreasing(bars)
      requires Follows(bars, i, bars[i].t) && Covers(bars, i, Some(bars[i].bucket))
      modifies this
      ensures Follows(bars, i + 1, bars[i].t) && Covers(bars, i + 1, None)
    {
      hide Nondecreasing, Count, Recent, Matches, Seen, Dir;
      var b := bars[i];
      var t := Bucket(b.bucket);
      SeenStep(bars, i);
      AddMatches(t, Seen(bars, i, b.bucket), spec.lookbackDays, b.t, Obs(b.t, Dir(b)));
      match Dir(b) {
        case Rise => t := t.(bullish := t.bullish + 1);
        case Fall => t := t.(bearish := t.bearish + 1);
        case Doji => t := t.(doji := t.doji + 1);
      }
      if spec.lookbackDays > 0 {
        t := t.(queue := t.queue + [Obs(b.t, Dir(b))]);
      }
      buckets := buckets[b.bucket := t];
      forall name | name in buckets
        ensures Matches(buckets[name], Seen(bars, i + 1, name), spec.lookbackDays, b.t)
      {
        assert name != b.bucket ==> Seen(bars, i + 1, name) == Seen(bars, i, name);
      }
    }
  }

  lemma SeenStep(bars: seq<Bar>, i: nat)
    requires i < |bars|
    ensures Seen(bars, i + 1, bars[i].bucket) == Seen(bars, i, bars[i].bucket) + [Obs(bars[i].t, Dir(bars[i]))]
    ensures forall name :: name != bars[i].bucket ==> Seen(bars, i + 1, name) == Seen(bars, i, name)
  {
    forall name | name != bars[i].bucket
      ensures Seen(bars, i + 1, name) == Seen(bars, i, name)
    {
      assert Seen(bars, i, name) + [] == Seen(bars, i, name);
    }
  }

  /** ComputeCausalSeasonality for one requested series. */
  method Compute(bars: seq<Bar>, raw: Spec) returns (rows: seq<Entry>)
    requires Nondecreasing(bars)
    ensures |rows| == |bars| && forall i :: 0 <= i < |bars| ==> rows[i] == EntryAt(bars, i, raw.Normalized())
  {
    hide Nondecreasing, EntryAt, Matches, Seen;
    rows := [];
    var state := new SeasonState(raw.Normalized());
    for i := 0 to |bars|
      invariant |rows| == i && forall j :: 0 <= j < i ==> rows[j] == EntryAt(bars, j, raw.Normalized())
      invariant state.Covers(bars, i, None)
      invariant i < |bars| ==> state.Follows(bars, i, if i == 0 then bars[0].t else bars[i - 1].t)
    {
      var e := state.Read(bars, i);
      rows := rows + [e];
      state.Add(bars, i);
    }
  }

  lemma PrunedStat(bars: seq<Bar>, i: nat, name: string, s: Spec, t: Tally)
    requires i < |bars| && Nondecreasing(bars) && Matches(t, Seen(bars, i, name), s.lookbackDays, bars[i].t)
    ensures s.lookbackDays > 0 ==> Agrees(t)
    ensures var pruned := if s.lookbackDays <= 0 then t
                          else TallyOf(DropOld(t.queue, bars[i].t - s.lookbackDays * DAY));
            && Matches(pruned, Seen(bars, i, name), s.lookbackDays, bars[i].t)
            && StatOf(pruned.bullish, pruned.bearish, pruned.doji, s.minSamples) == StatAt(bars, i, name, s)
  {
    hide StatOf, Count, Recent, DropOld, Seen;
    SeenAscends(bars, i, name);
    if s.lookbackDays > 0 {
      PruneMatches(t, Seen(bars, i, name), s.lookbackDays, bars[i].t, bars[i].t);
    }
  }

  lemma LaterMatches(t: Tally, seen: seq<Obs>, days: int, before: int, now: int)
    requires Matches(t, seen, days, before) && before <= now
    ensures Matches(t, seen, days, now)
  {
  }

  lemma {:induction false} NothingSeen(bars: seq<Bar>, n: nat, bucket: string)
    requires n <= |bars| && forall j :: 0 <= j < n ==> bars[j].bucket != bucket
    ensures Seen(bars, n, bucket) == []
  {
    if n > 0 {
      NothingSeen(bars, n - 1, bucket);
    }
  }

  // ----- the recount as a cardinality

  predicate Fits(b: Bar, bucket: string, dir: Move, cutoff: Option<int>) {
    b.bucket == bucket && Dir(b) == dir && (cutoff.None? || b.t >= cutoff.value)
  }

  /** The earlier bars of a bucket that moved one way no earlier than the cutoff. */
  function Matching(bars: seq<Bar>, i: nat, bucket: string, dir: Move, cutoff: Option<int>): set<nat>
    requires i <= |bars|
  {
    set j: nat | j < i && Fits(bars[j], bucket, dir, cutoff)
  }

  function Chosen(bars: seq<Bar>, i: nat, bucket: string, cutoff: Option<int>): seq<Obs>
    requires i <= |bars|
  {
    if cutoff.None? then Seen(bars, i, bucket) else Recent(Seen(bars, i, bucket), cutoff.value)
  }

  lemma ChosenStep(bars: seq<Bar>, i: nat, bucket: string, cutoff: Option<int>)
    requires i < |bars|
    ensures Chosen(bars, i + 1, bucket, cutoff)
         == Chosen(bars, i, bucket, cutoff)
            + if bars[i].bucket == bucket && (cutoff.None? || bars[i].t >= cutoff.value)
              then [Obs(bars[i].t, Dir(bars[i]))] else []
  {
    var seen, o := Seen(bars, i, bucket), Obs(bars[i].t, Dir(bars[i]));
    assert (seen + [o])[..|seen|] == seen && seen + [] == seen;
    if cutoff.Some? {
      assert Recent(seen, cutoff.value) + [] == Recent(seen, cutoff.value);
    }
  }

  lemma MatchingStep(bars: seq<Bar>, i: nat, bucket: string, dir: Move, cutoff: Option<int>)
    requires i < |bars|
    ensures |Matching(bars, i + 1, bucket, dir, cutoff)|
         == |Matching(bars, i, bucket, dir, cutoff)|
            + if Fits(bars[i], bucket, dir, cutoff) then 1 else 0
  {
    hide Fits;
    var before, now := Matching(bars, i, bucket, dir, cutoff), Matching(bars, i + 1, bucket, dir, cutoff);
    if Fits(bars[i], bucket, dir, cutoff) {
      assert now == before + {i};
    } else {
      assert now == before;
    }
  }

  lemma {:induction false} CountIsCardinality(bars: seq<Bar>, i: nat, bucket: string, dir: Move, cutoff: Option<int>)
    requires i <= |bars|
    ensures Count(Chosen(bars, i, bucket, cutoff), dir) == |Matching(bars, i, bucket, dir, cutoff)|
  {
    hide Dir;
    if i == 0 {
      assert Matching(bars, 0, bucket, dir, cutoff) == {};
    } else {
      hide Chosen, Matching, Count;
      var j := i - 1;
      CountIsCardinality(bars, j, bucket, dir, cutoff);
      ChosenStep(bars, j, bucket, cutoff);
      MatchingStep(bars, j, bucket, dir, cutoff);
      var before := Chosen(bars, j, bucket, cutoff);
      CountSnoc(before, Obs(bars[j].t, Dir(bars[j])), dir);
      assert before + [] == before;
    }
  }

  /** The three counts of every row, as numbers of earlier bars. */
  lemma StatCounts(bars: seq<Bar>, i: nat, bucket: string, s: Spec)
    requires i < |bars|
    ensures var cutoff := if s.lookbackDays <= 0 then None else Some(bars[i].t - s.lookbackDays * DAY);
            var stat := StatAt(bars, i, bucket, s);
            && stat.bullish == |Matching(bars, i, bucket, Rise, cutoff)|
            && stat.bearish == |Matching(bars, i, bucket, Fall, cutoff)|
            && stat.doji == |Matching(bars, i, bucket, Doji, cutoff)|
            && (stat.class_ == Insufficient
                <==> stat.bullish + stat.bearish < s.minSamples || stat.bullish + stat.bearish == 0)
  {
    hide Seen, Count, Recent, Matching;
    var cutoff := if s.lookbackDays <= 0 then None else Some(bars[i].t - s.lookbackDays * DAY);
    CountIsCardinality(bars, i, bucket, Rise, cutoff);
    CountIsCardinality(bars, i, bucket, Fall, cutoff);
    CountIsCardinality(bars, i, bucket, Doji, cutoff);
  }

  /** The bar counts for a bucket: it fell in it, no earlier than the cutoff. */
  predicate Counts(b: Bar, bucket: string, cutoff: Option<int>) {
    b.bucket == bucket && match cutoff
                          case None => true
                          case Some(t) => t <= b.t
  }

  /**
    The three counts say which earlier bars closed above, below and at their open, and the class is
    the share of the first among the first two: from 76 percent, from 56, from 45, from 26, or less.
  */
  lemma StatsShown(bars: seq<Bar>, i: nat, bucket: string, s: Spec)
    requires i < |bars|
    ensures var cutoff := if s.lookbackDays <= 0 then None else Some(bars[i].t - s.lookbackDays * 86_400_000);
            var stat := StatAt(bars, i, bucket, s);
            && stat.bullish == |set j: nat | j < i && Counts(bars[j], bucket, cutoff) && bars[j].o < bars[j].c|
            && stat.bearish == |set j: nat | j < i && Counts(bars[j], bucket, cutoff) && bars[j].o > bars[j].c|
            && stat.doji == |set j: nat | j < i && Counts(bars[j], bucket, cutoff) && bars[j].o == bars[j].c|
            && stat.total == stat.bullish + stat.bearish + stat.doji
    ensures ClassShown(StatAt(bars, i, bucket, s), s.minSamples)
  {
    hide StatAt, ClassShown, Counts, Matching;
    var cutoff := if s.lookbackDays <= 0 then None else Some(bars[i].t - s.lookbackDays * DAY);
    StatCounts(bars, i, bucket, s);
    MovesMatch(bars, i, bucket, cutoff);
    StatIs(bars, i, bucket, s);
  }

  ghost predicate ClassShown(stat: Stat, minSamples: int) {
    var n, up := stat.bullish + stat.bearish, 100 * stat.bullish;
    && stat.directional == n && (stat.percent.None? <==> n <= 0)
    && (n > 0 ==> stat.percent.value * n as real == up as real)
    && match stat.class_
       case Insufficient => n < minSamples || n <= 0
       case ExtremeBullish => n >= minSamples && n > 0 && 76 * n <= up
       case Bullish => n >= minSamples && n > 0 && 56 * n <= up < 76 * n
       case Neutral => n >= minSamples && n > 0 && 45 * n <= up < 56 * n
       case Bearish => n >= minSamples && n > 0 && 26 * n <= up < 45 * n
       case ExtremeBearish => n >= minSamples && n > 0 && up < 26 * n
  }

  lemma StatIs(bars: seq<Bar>, i: nat, bucket: string, s: Spec)
    requires i < |bars|
    ensures ClassShown(StatAt(bars, i, bucket, s), s.minSamples)
    ensures var stat := StatAt(bars, i, bucket, s); stat.total == stat.bullish + stat.bearish + stat.doji
  {
    hide Window, Count, ClassShown, StatOf;
    var q := Window(bars, i, bucket, s.lookbackDays);
    ClassIs(Count(q, Rise), Count(q, Fall), Count(q, Doji), s.minSamples);
  }

  lemma ClassIs(bullish: int, bearish: int, doji: int, minSamples: int)
    ensures var stat := StatOf(bullish, bearish, doji, minSamples);
            ClassShown(stat, minSamples) && stat.total == stat.bullish + stat.bearish + stat.doji
  {
    var n := bullish + bearish;
    if n > 0 {
      var percent := bullish as real / n as real * 100.0;
      PercentIs(bullish as real, n as real, percent);
      Bands(percent, n, 100 * bullish);
    }
  }

  lemma PercentIs(part: real, whole: real, percent: real)
    requires whole > 0.0 && percent == part / whole * 100.0
    ensures percent * whole == 100.0 * part
  {
    var share := part / whole;
    assert share * whole == part;
    assert percent * whole == 100.0 * (share * whole);
  }

  /** A percentage of n lies at a band's edge or above exactly when that many hundredths of n do. */
  lemma Bands(percent: real, n: int, up: int)
    requires n > 0 && percent * n as real == up as real
    ensures percent >= 76.0 <==> 76 * n <= up
    ensures percent >= 56.0 <==> 56 * n <= up
    ensures percent >= 45.0 <==> 45 * n <= up
    ensures percent >= 26.0 <==> 26 * n <= up
  {
    Band(percent, n, up, 76);
    Band(percent, n, up, 56);
    Band(percent, n, up, 45);
    Band(percent, n, up, 26);
  }

  lemma Band(percent: real, n: int, up: int, edge: int)
    requires n > 0 && percent * n as real == up as real
    ensures percent >= edge as real <==> edge * n <= up
  {
    var gap, whole := percent - edge as real, n as real;
    assert gap * whole == up as real - edge as real * whole;
    assert (edge * n) as real == edge as real * whole;
    if gap >= 0.0 {
      assert gap * whole >= 0.0;
    } else {
      assert (-gap) * whole > 0.0;
    }
  }

  lemma MovesMatch(bars: seq<Bar>, i: nat, bucket: string, cutoff: Option<int>)
    requires i < |bars|
    ensures Matching(bars, i, bucket, Rise, cutoff)
         == set j: nat | j < i && Counts(bars[j], bucket, cutoff) && bars[j].o < bars[j].c
    ensures Matching(bars, i, bucket, Fall, cutoff)
         == set j: nat | j < i && Counts(bars[j], bucket, cutoff) && bars[j].o > bars[j].c
    ensures Matching(bars, i, bucket, Doji, cutoff)
         == set j: nat | j < i && Counts(bars[j], bucket, cutoff) && bars[j].o == bars[j].c
  {
  }

  /** The hour of the UTC day, which names an intraday bucket. */
  function HourBucket(t: int): (h: int)
    ensures 0 <= h < 24
    ensures exists day :: InHour(t, day, h)
  {
    var day := FloorDiv(t, DAY);
    FloorDivIsFloor(t, DAY);
    assert InHour(t, day, (t - day * DAY) / HOUR);
    (t - day * DAY) / HOUR
  }

  /** The instant lies in this hour of this day since the epoch. */
  predicate InHour(t: int, day: int, hour: int) {
    3_600_000 * (24 * day + hour) <= t < 3_600_000 * (24 * day + hour + 1)
  }

  /** An hour's next bucket is never its own, so its projection needs an earlier bar of that next hour. */
  lemma NextHourNeedsEarlierBar(bars: seq<Bar>, i: nat, s: Spec, name: int -> string)
    requires i < |bars| && forall h, k :: 0 <= h < 24 && 0 <= k < 24 && name(h) == name(k) ==> h == k
    requires bars[i].bucket == name(HourBucket(bars[i].t))
             && bars[i].next == Some(name((HourBucket(bars[i].t) + 1) % 24))
    ensures EntryAt(bars, i, s).next.Some? <==> exists j :: 0 <= j < i && bars[j].bucket == bars[i].next.value
  {
    hide HourBucket, StatAt;
    var h := HourBucket(bars[i].t);
    assert (h + 1) % 24 != h;
  }
}
