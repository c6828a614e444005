/**
  Entry and bracket rules of the adaptive-flag reference (engine/adaptive_flag_reference.go):
  where a stop entry fills, and which barrier an established bracket meets first along
  the assumed price path of a bar.
*/
module AdaptiveBracket {
  import opened Common

  datatype FlagBar = FlagBar(openT: int, closeT: int, open: real, high: real, low: real, close: real, volume: real) {
    predicate Valid() {
      low <= open <= high && low <= close <= high
    }
  }

  datatype Signal = Signal(signalIdx: nat, side: Side, trigger: real, stop: real, target: real)

  datatype Fill = Fill(price: real, atOpen: bool)

  /** A stop entry: at the open when the bar opens through the trigger, else at a touched trigger. */
  function EntryOf(sig: Signal, b: FlagBar): Option<Fill> {
    if sig.side == Long then
      if b.open >= sig.trigger then Some(Fill(b.open, true))
      else if b.high >= sig.trigger then Some(Fill(sig.trigger, false))
      else None
    else
      if b.open <= sig.trigger then Some(Fill(b.open, true))
      else if b.low <= sig.trigger then Some(Fill(sig.trigger, false))
      else None
  }

  /** On a valid bar the entry fills exactly when the bar trades at or beyond the trigger, never better than it. */
  lemma EntryMeaning(sig: Signal, b: FlagBar)
    requires b.Valid()
    ensures EntryOf(sig, b).Some? <==> if sig.side == Long then b.high >= sig.trigger else b.low <= sig.trigger
    ensures EntryOf(sig, b).Some? ==>
              var f := EntryOf(sig, b).value;
              && b.low <= f.price <= b.high
              && f.price == (if sig.side == Long then Max(sig.trigger, b.open) else Min(sig.trigger, b.open))
              && (f.atOpen <==> f.price == b.open)
  {
  }

  datatype HitReason = StopGap | TargetGap | StopHit | TargetHit

  datatype Hit = Hit(reason: HitReason, price: real, atOpen: bool)

  /** Open, nearer extreme, other extreme, close; equal distances take the high first. */
  function PathOf(b: FlagBar): (p: seq<real>)
    ensures |p| == 4
  {
    if Abs(b.open - b.high) > Abs(b.open - b.low)
    then [b.open, b.low, b.high, b.close]
    else [b.open, b.high, b.low, b.close]
  }

  predicate Between(x: real, a: real, z: real) {
    Min(a, z) <= x <= Max(a, z)
  }

  /** The barrier a move from a to z meets first; equal distances keep the stop. */
  function SegmentHit(sig: Signal, a: real, z: real): Option<(HitReason, real)> {
    var s, t := Between(sig.stop, a, z), Between(sig.target, a, z);
    if s && !(t && Abs(sig.target - a) < Abs(sig.stop - a)) then Some((StopHit, sig.stop))
    else if t then Some((TargetHit, sig.target))
    else None
  }

  function GapOf(sig: Signal, b: FlagBar): Option<Hit> {
    if sig.side == Long then
      if b.open < sig.stop then Some(Hit(StopGap, b.open, true))
      else if b.open > sig.target then Some(Hit(TargetGap, b.open, true))
      else None
    else
      if b.open > sig.stop then Some(Hit(StopGap, b.open, true))
      else if b.open < sig.target then Some(Hit(TargetGap, b.open, true))
      else None
  }

  function PathHit(sig: Signal, path: seq<real>, open: real, i: nat): Option<Hit>
    requires |path| == 4 && i <= 3
    decreases 3 - i
  {
    if i == 3 then None
    else match SegmentHit(sig, path[i], path[i + 1])
      case Some((reason, price)) => Some(Hit(reason, price, i == 0 && price == open))
      case None => PathHit(sig, path, open, i + 1)
  }

  function BracketOf(sig: Signal, b: FlagBar): Option<Hit> {
    if GapOf(sig, b).Some? then GapOf(sig, b) else PathHit(sig, PathOf(b), b.open, 0)
  }

  /** Both barriers tried on one leg, the stop first; a later one must be strictly nearer. */
  method ScanLeg(sig: Signal, a: real, z: real) returns (hit: Option<(HitReason, real)>)
    ensures hit == SegmentHit(sig, a, z)
  {
    var barriers := [(StopHit, sig.stop), (TargetHit, sig.target)];
    var distance := 0.0;
    hit := None;
    for k := 0 to 2
      invariant k == 0 ==> hit.None?
      invariant k == 1 ==> hit == (if Between(sig.stop, a, z) then Some((StopHit, sig.stop)) else None)
      invariant k == 1 && hit.Some? ==> distance == Abs(sig.stop - a)
      invariant k == 2 ==> hit == SegmentHit(sig, a, z)
    {
      var (name, level) := barriers[k];
      if Min(a, z) <= level && level <= Max(a, z) {
        var d := Abs(level - a);
        if hit.None? || d < distance {
          hit, distance := Some((name, level)), d;
        }
      }
    }
  }

  /** adaptiveFlagBracket: opening gaps, then the legs of the path in order. */
  method Bracket(sig: Signal, b: FlagBar) returns (hit: Option<Hit>)
    ensures hit == BracketOf(sig, b)
  {
    hide SegmentHit;
    if sig.side == Long {
      if b.open < sig.stop {
        return Some(Hit(StopGap, b.open, true));
      }
      if b.open > sig.target {
        return Some(Hit(TargetGap, b.open, true));
      }
    } else {
      if b.open > sig.stop {
        return Some(Hit(StopGap, b.open, true));
      }
      if b.open < sig.target {
        return Some(Hit(TargetGap, b.open, true));
      }
    }
    var path := [b.open, b.high, b.low, b.close];
    if Abs(b.open - b.high) > Abs(b.open - b.low) {
      path := [b.open, b.low, b.high, b.close];
    }
    for i := 0 to 3
      invariant PathHit(sig, path, b.open, i) == PathHit(sig, path, b.open, 0)
    {
      var met := ScanLeg(sig, path[i], path[i + 1]);
      if met.Some? {
        return Some(Hit(met.value.0, met.value.1, i == 0 && met.value.1 == b.open));
      }
    }
    return None;
  }

  // ----- the path as a journey

  /** A moment of the path: the leg and the distance travelled on it. */
  datatype Moment = Moment(leg: nat, d: real)

  ghost predicate OnPath(path: seq<real>, m: Moment)
    requires |path| == 4
  {
    m.leg < 3 && 0.0 <= m.d <= Abs(path[m.leg + 1] - path[m.leg])
  }

  function PriceAt(path: seq<real>, m: Moment): real
    requires |path| == 4 && m.leg < 3
  {
    if path[m.leg + 1] >= path[m.leg] then path[m.leg] + m.d else path[m.leg] - m.d
  }

  predicate Before(m: Moment, n: Moment) {
    m.leg < n.leg || (m.leg == n.leg && m.d < n.d)
  }

  /** At moment m the path stands on a barrier. */
  ghost predicate Touches(sig: Signal, path: seq<real>, m: Moment)
    requires |path| == 4
  {
    OnPath(path, m) && (PriceAt(path, m) == sig.stop || PriceAt(path, m) == sig.target)
  }

  /** The moment a leg passes through level x. */
  function Passing(path: seq<real>, i: nat, x: real): Moment
    requires |path| == 4 && i < 3
  {
    Moment(i, Abs(x - path[i]))
  }

  lemma LegTouches(sig: Signal, path: seq<real>, m: Moment)
    requires |path| == 4 && OnPath(path, m)
    ensures Between(PriceAt(path, m), path[m.leg], path[m.leg + 1])
    ensures m.d == Abs(PriceAt(path, m) - path[m.leg])
  {
  }

  lemma PassingTouches(path: seq<real>, i: nat, x: real)
    requires |path| == 4 && i < 3 && Between(x, path[i], path[i + 1])
    ensures OnPath(path, Passing(path, i, x)) && PriceAt(path, Passing(path, i, x)) == x
  {
  }

  /** A leg is passed without touch, or its first touch is the barrier reported for it. */
  lemma LegFirst(sig: Signal, path: seq<real>, i: nat)
    requires |path| == 4 && i < 3
    ensures match SegmentHit(sig, path[i], path[i + 1])
            case None => forall m :: Touches(sig, path, m) ==> m.leg != i
            case Some((reason, price)) =>
              var m := Passing(path, i, price);
              && Touches(sig, path, m) && PriceAt(path, m) == price
              && (reason == if price == sig.stop then StopHit else TargetHit)
              && forall n :: Touches(sig, path, n) && n.leg == i ==> !Before(n, m)
  {
    if SegmentHit(sig, path[i], path[i + 1]).Some? {
      PassingTouches(path, i, SegmentHit(sig, path[i], path[i + 1]).value.1);
    }
    forall n | Touches(sig, path, n) && n.leg == i
      ensures SegmentHit(sig, path[i], path[i + 1]).Some?
      ensures !Before(n, Passing(path, i, SegmentHit(sig, path[i], path[i + 1]).value.1))
    {
      LegTouches(sig, path, n);
    }
  }

  /** Where and when the scan from leg i stops, and that nothing was touched before. */
  lemma {:induction false} ScanIsFirst(sig: Signal, path: seq<real>, open: real, i: nat)
    requires |path| == 4 && i <= 3
    ensures var hit := PathHit(sig, path, open, i);
            && (hit.None? ==> forall m :: Touches(sig, path, m) ==> m.leg < i)
            && (hit.Some? ==>
                  exists m ::
                    && Touches(sig, path, m) && m.leg >= i && PriceAt(path, m) == hit.value.price
                    && (hit.value.reason == if hit.value.price == sig.stop then StopHit else TargetHit)
                    && forall n :: Touches(sig, path, n) && n.leg >= i ==> !Before(n, m))
    decreases 3 - i
  {
    if i < 3 {
      LegFirst(sig, path, i);
      hide SegmentHit, PriceAt;
      ScanIsFirst(sig, path, open, i + 1);
    }
  }

  /**
    Apart from opening gaps, the bracket is the first barrier the path stands on, and
    the stop when both stand at the same price.
  */
  lemma FirstBarrierWins(sig: Signal, b: FlagBar)
    requires GapOf(sig, b).None?
    ensures var hit, path := BracketOf(sig, b), PathOf(b);
            && (hit.None? <==> forall m :: !Touches(sig, path, m))
            && (hit.Some? ==>
                  exists m ::
                    && Touches(sig, path, m) && PriceAt(path, m) == hit.value.price
                    && (hit.value.reason == if hit.value.price == sig.stop then StopHit else TargetHit)
                    && forall n :: Touches(sig, path, n) ==> !Before(n, m))
  {
    ScanIsFirst(sig, PathOf(b), b.open, 0);
  }

  /** Whether the bar trades at or beyond a barrier, without asking which came first. */
  predicate Reaches(sig: Signal, b: FlagBar) {
    if sig.side == Long then b.low <= sig.stop || b.high >= sig.target
    else b.high >= sig.stop || b.low <= sig.target
  }

  /** On a valid bar the bracket is hit exactly when the bar's range reaches a barrier. */
  lemma HitIffReached(sig: Signal, b: FlagBar)
    requires b.Valid()
    ensures BracketOf(sig, b).Some? <==> Reaches(sig, b)
  {
  }

  /**
    The whole bracket of a long position, said of the bar: a gap at the open, a barrier the open
    stands on, else the barrier reached, and of two the one toward the nearer extreme; as far to
    either, the high goes first.
  */
  lemma LongBracketShown(sig: Signal, b: FlagBar)
    requires b.Valid() && sig.side == Long && sig.stop <= sig.target
    ensures var stopped, reached := b.low <= sig.stop, b.high >= sig.target;
            var highFirst := b.high - b.open <= b.open - b.low;
            BracketOf(sig, b)
            == if b.open < sig.stop then Some(Hit(StopGap, b.open, true))
               else if b.open > sig.target then Some(Hit(TargetGap, b.open, true))
               else if b.open == sig.stop then Some(Hit(StopHit, sig.stop, true))
               else if b.open == sig.target then Some(Hit(TargetHit, sig.target, true))
               else if stopped && !(reached && highFirst) then Some(Hit(StopHit, sig.stop, false))
               else if reached then Some(Hit(TargetHit, sig.target, false))
               else None
  {
  }

  lemma ShortBracketShown(sig: Signal, b: FlagBar)
    requires b.Valid() && sig.side == Short && sig.target <= sig.stop
    ensures var stopped, reached := b.high >= sig.stop, b.low <= sig.target;
            var highFirst := b.high - b.open <= b.open - b.low;
            BracketOf(sig, b)
            == if b.open > sig.stop then Some(Hit(StopGap, b.open, true))
               else if b.open < sig.target then Some(Hit(TargetGap, b.open, true))
               else if b.open == sig.stop then Some(Hit(StopHit, sig.stop, true))
               else if b.open == sig.target then Some(Hit(TargetHit, sig.target, true))
               else if stopped && (highFirst || !reached) then Some(Hit(StopHit, sig.stop, false))
               else if reached then Some(Hit(TargetHit, sig.target, false))
               else None
  {
  }
}
