/**
  fillPendingExits on any list of deferred exits (engine/broker_deferred_exits.go): it walks the
  list backward while closing a position removes further entries from it. Exactly when that
  walk would index past the shortened list.
*/
module DeferredExits {
  import opened Common
  import OrderBroker

  type PendingExit = OrderBroker.PendingExit

  predicate Due(x: PendingExit, i: int) {
    x.index <= i
  }

  /** The entries that do not belong to the position, in order. */
  function Others(s: seq<PendingExit>, entry: nat): seq<PendingExit> {
    if s == [] then [] else Others(s[..|s| - 1], entry) + if s[|s| - 1].entryIndex != entry then [s[|s| - 1]] else []
  }

  /** The entries that are not due yet, in order. */
  function Later(s: seq<PendingExit>, i: int): seq<PendingExit> {
    if s == [] then [] else (if Due(s[0], i) then [] else [s[0]]) + Later(s[1..], i)
  }

  /** How many entries belong to the position. */
  function Own(s: seq<PendingExit>, entry: nat): nat {
    if s == [] then 0 else Own(s[..|s| - 1], entry) + if s[|s| - 1].entryIndex == entry then 1 else 0
  }

  /** The last entry that closes the position at bar i, or -1. */
  function Closer(s: seq<PendingExit>, i: int, entry: nat): (k: int)
    ensures -1 <= k < |s|
    ensures k >= 0 ==> Due(s[k], i) && s[k].entryIndex == entry
    ensures forall j :: k < j < |s| ==> !(Due(s[j], i) && s[j].entryIndex == entry)
  {
    if s == [] then -1
    else if Due(s[|s| - 1], i) && s[|s| - 1].entryIndex == entry then |s| - 1
    else Closer(s[..|s| - 1], i, entry)
  }

  /**
    Closing the position drops more entries in front of the closing one than stay behind it:
    the next index is then past the end.
  */
  predicate Overruns(s: seq<PendingExit>, i: int, live: Option<nat>) {
    live.Some? &&
    var k := Closer(s, i, live.value);
    k >= 0 && Own(s[..k], live.value) > |Others(Later(s[k + 1..], i), live.value)|
  }

  lemma {:induction false} OthersCount(s: seq<PendingExit>, entry: nat)
    ensures |Others(s, entry)| == |s| - Own(s, entry)
  {
    if s != [] {
      OthersCount(s[..|s| - 1], entry);
    }
  }

  lemma {:induction false} OthersConcat(a: seq<PendingExit>, b: seq<PendingExit>, entry: nat)
    ensures Others(a + b, entry) == Others(a, entry) + Others(b, entry)
  {
    if b == [] {
      assert a + b == a;
    } else {
      assert (a + b)[..|a + b| - 1] == a + b[..|b| - 1];
      OthersConcat(a, b[..|b| - 1], entry);
    }
  }

  lemma {:induction false} LaterConcat(a: seq<PendingExit>, b: seq<PendingExit>, i: int)
    ensures Later(a + b, i) == Later(a, i) + Later(b, i)
  {
    if a == [] {
      assert a + b == b;
    } else {
      assert (a + b)[1..] == a[1..] + b;
      LaterConcat(a[1..], b, i);
    }
  }

  lemma LaterOthersOne(x: PendingExit, i: int, entry: nat)
    ensures Later(Others(Later([x], i), entry), i) == Later(Others([x], entry), i)
  {
    assert Later([x], i) == if Due(x, i) then [] else [x];
    assert Others([x], entry) == if x.entryIndex != entry then [x] else [];
  }

  /** Dropping the due entries first changes nothing about what stays. */
  lemma {:induction false} LaterOthers(s: seq<PendingExit>, i: int, entry: nat)
    ensures Later(Others(Later(s, i), entry), i) == Later(Others(s, entry), i)
  {
    if s == [] {
      assert Later([], i) == [];
    } else {
      hide Later, Others;
      var front, last := s[..|s| - 1], [s[|s| - 1]];
      LaterOthers(front, i, entry);
      LaterOthersOne(s[|s| - 1], i, entry);
      assert s == front + last;
      LaterConcat(front, last, i);
      OthersConcat(Later(front, i), Later(last, i), entry);
      OthersConcat(front, last, entry);
      LaterConcat(Others(Later(front, i), entry), Others(Later(last, i), entry), i);
      LaterConcat(Others(front, entry), Others(last, entry), i);
    }
  }

  lemma {:induction false} LaterKeeps(s: seq<PendingExit>, i: int)
    requires forall x :: x in s ==> !Due(x, i)
    ensures Later(s, i) == s
  {
    if s != [] {
      LaterKeeps(s[1..], i);
    }
  }

  lemma {:induction false} LaterNotDue(s: seq<PendingExit>, i: int)
    ensures forall x :: x in Later(s, i) ==> !Due(x, i)
  {
    if s != [] {
      LaterNotDue(s[1..], i);
    }
  }

  lemma {:induction false} OthersIn(s: seq<PendingExit>, entry: nat)
    ensures forall x :: x in Others(s, entry) ==> x in s
  {
    if s != [] {
      OthersIn(s[..|s| - 1], entry);
    }
  }

  /** The list as the walk sees it: entry k and those before it untouched, the due ones behind it gone. */
  ghost predicate Walked(base: seq<PendingExit>, left: seq<PendingExit>, i: int, k: int)
    requires -1 <= k < |base|
  {
    left == base[..k + 1] + Later(base[k + 1..], i)
  }

  /** One step of the walk: a due entry goes, another stays. */
  lemma WalkStep(base: seq<PendingExit>, left: seq<PendingExit>, i: int, k: nat)
    requires k < |base| && Walked(base, left, i, k)
    ensures |left| > k && left[k] == base[k]
    ensures Walked(base, if Due(base[k], i) then left[..k] + left[k + 1..] else left, i, k - 1)
  {
    assert base[k..][1..] == base[k + 1..];
    assert base[..k + 1] == base[..k] + [base[k]];
    assert left[k + 1..] == Later(base[k + 1..], i);
  }

  /** The list once the position has been closed by entry c. */
  function Shortened(s: seq<PendingExit>, i: int, entry: nat, c: nat): seq<PendingExit>
    requires c < |s|
  {
    Others(s[..c] + Later(s[c + 1..], i), entry)
  }

  /** The closing step: the walk goes on in bounds exactly when the shortened list still holds entry c - 1. */
  lemma ClosingStep(s: seq<PendingExit>, i: int, entry: nat, c: nat)
    requires c < |s| && Closer(s, i, entry) == c
    ensures var base := Shortened(s, i, entry, c);
            && (Overruns(s, i, Some(entry)) <==> |base| < c)
            && (c <= |base| ==> Walked(base, base, i, c - 1))
            && Later(base, i) == Later(Others(s, entry), i)
  {
    hide Closer, Later;
    var front, back := s[..c], s[c + 1..];
    var base := Shortened(s, i, entry, c);
    OthersConcat(front, Later(back, i), entry);
    OthersCount(front, entry);
    if c <= |base| {
      LaterNotDue(back, i);
      OthersIn(Later(back, i), entry);
      hide Others;
      assert forall x :: x in base[c..] ==> x in Others(Later(back, i), entry);
      LaterKeeps(base[c..], i);
    }
    ShortenedLater(s, i, entry, c);
  }

  lemma ShortenedLater(s: seq<PendingExit>, i: int, entry: nat, c: nat)
    requires c < |s| && s[c].entryIndex == entry
    ensures Later(Shortened(s, i, entry, c), i) == Later(Others(s, entry), i)
  {
    var front, back := s[..c], s[c + 1..];
    assert s == (front + [s[c]]) + back && (front + [s[c]])[..c] == front;
    assert Others(front + [s[c]], entry) == Others(front, entry);
    hide Later, Others;
    OthersConcat(front, Later(back, i), entry);
    OthersConcat(front + [s[c]], back, entry);
    LaterConcat(Others(front, entry), Others(Later(back, i), entry), i);
    LaterConcat(Others(front, entry), Others(back, entry), i);
    LaterOthers(back, i, entry);
  }

  /** Before entry k is looked at: nothing has closed the position yet, or entry c behind it has. */
  ghost predicate Stage(
    s: seq<PendingExit>, i: int, live: Option<nat>, k: int, base: seq<PendingExit>, left: seq<PendingExit>,
    rule: Option<string>)
  {
    && (k < |base| ==> k >= -1 && Walked(base, left, i, k))
    && match rule
       case None =>
         && base == s
         && forall j :: k < j < |s| ==> j >= 0 && !(live.Some? && Due(s[j], i) && s[j].entryIndex == live.value)
       case Some(r) =>
         && live.Some?
         && var c := Closer(s, i, live.value);
            && k < c && r == s[c].rule && base == Shortened(s, i, live.value, c)
            && (k >= |base| ==> k + 1 == c && left == base)
            && (k < |base| ==> c <= |base|)
  }

  /** The loop of closePosition: the closed position's entries go, from the back. */
  method DropOwn(exits: seq<PendingExit>, entry: nat) returns (left: seq<PendingExit>)
    ensures left == Others(exits, entry)
  {
    hide Others, Sifted;
    left := exits;
    var k := |exits| - 1;
    SiftBounds(exits, entry);
    while k >= 0
      invariant -1 <= k < |exits|
      invariant Sifted(exits, left, entry, k)
    {
      SiftStep(exits, left, entry, k);
      if left[k].entryIndex == entry {
        left := left[..k] + left[k + 1..];
      }
      k := k - 1;
    }
  }

  /** The closing loop's list before entry k is looked at. */
  ghost predicate Sifted(s: seq<PendingExit>, left: seq<PendingExit>, entry: nat, k: int)
    requires -1 <= k < |s|
  {
    left == s[..k + 1] + Others(s[k + 1..], entry)
  }

  lemma SiftBounds(s: seq<PendingExit>, entry: nat)
    ensures Sifted(s, s, entry, |s| - 1)
    ensures Sifted(s, Others(s, entry), entry, -1)
    ensures forall left :: Sifted(s, left, entry, -1) ==> left == Others(s, entry)
  {
    assert s[|s|..] == [] && s[0..] == s && s[..|s|] == s;
  }

  lemma SiftStep(s: seq<PendingExit>, left: seq<PendingExit>, entry: nat, k: nat)
    requires k < |s| && Sifted(s, left, entry, k)
    ensures |left| > k && left[k] == s[k]
    ensures Sifted(s, if s[k].entryIndex == entry then left[..k] + left[k + 1..] else left, entry, k - 1)
  {
    assert left[k + 1..] == Others(s[k + 1..], entry);
    assert s[..k + 1] == s[..k] + [s[k]];
    assert s[k..] == [s[k]] + s[k + 1..];
    OthersConcat([s[k]], s[k + 1..], entry);
    assert Others([s[k]], entry) == if s[k].entryIndex == entry then [] else [s[k]];
  }

  /** The walk with its indexing made visible: false when it would index past the end. */
  method Drain(exits: seq<PendingExit>, i: int, live: Option<nat>)
    returns (inBounds: bool, left: seq<PendingExit>, rule: Option<string>)
    ensures inBounds <==> !Overruns(exits, i, live)
    ensures rule.Some? <==> live.Some? && Closer(exits, i, live.value) >= 0
    ensures rule.Some? ==> rule.value == exits[Closer(exits, i, live.value)].rule
    ensures inBounds && rule.None? ==> left == Later(exits, i)
    ensures inBounds && rule.Some? ==> left == Later(Others(exits, live.value), i)
  {
    hide Closer, Others, Own, Later, Overruns, Walked, Stage, Shortened;
    left, rule, inBounds := exits, None, true;
    var k := |exits| - 1;
    ghost var base := exits;
    StageStarts(exits, i, live);
    while k >= 0
      invariant -1 <= k < |exits|
      invariant Stage(exits, i, live, k, base, left, rule)
      decreases k
    {
      StageBounds(exits, i, live, k, base, left, rule);
      if k >= |left| {
        return false, left, rule;
      }
      var pending := left[k];
      if pending.index > i {
        k := k - 1;
        continue;
      }
      left := left[..k] + left[k + 1..];
      if rule.None? && live == Some(pending.entryIndex) {
        left := DropOwn(left, live.value);
        rule := Some(pending.rule);
        base := left;
      }
      k := k - 1;
    }
    StageEnds(exits, i, live, base, left, rule);
  }

  lemma StageStarts(s: seq<PendingExit>, i: int, live: Option<nat>)
    ensures Stage(s, i, live, |s| - 1, s, s, None)
  {
    assert s[|s|..] == [];
  }

  /** One round of the walk: out of bounds only on an overrun, else one entry further. */
  lemma StageBounds(s: seq<PendingExit>, i: int, live: Option<nat>, k: nat, base: seq<PendingExit>,
                    left: seq<PendingExit>, rule: Option<string>)
    requires k < |s| && Stage(s, i, live, k, base, left, rule)
    ensures k >= |left| ==> Overruns(s, i, live) && rule.Some? && Known(s, i, live, rule)
    ensures k < |left| ==>
              var rest := left[..k] + left[k + 1..];
              if !Due(left[k], i) then Stage(s, i, live, k - 1, base, left, rule)
              else if rule.None? && live == Some(left[k].entryIndex)
              then Stage(s, i, live, k - 1, Others(rest, live.value), Others(rest, live.value), Some(left[k].rule))
              else Stage(s, i, live, k - 1, base, rest, rule)
  {
    hide Closer, Others, Own, Later, Overruns, Walked, Shortened;
    if rule.Some? {
      ClosingStep(s, i, live.value, Closer(s, i, live.value));
    }
    if k < |base| {
      WalkStep(base, left, i, k);
      if rule.None? && Due(left[k], i) && live == Some(left[k].entryIndex) {
        CloserIs(s, i, live.value, k);
        ClosingStep(s, i, live.value, k);
        RestIs(base, left, i, k, live.value);
      }
    }
  }

  /** The rule handed out is the closing entry's. */
  ghost predicate Known(s: seq<PendingExit>, i: int, live: Option<nat>, rule: Option<string>) {
    match rule
    case None => live.Some? ==> Closer(s, i, live.value) == -1
    case Some(r) => live.Some? && Closer(s, i, live.value) >= 0 && r == s[Closer(s, i, live.value)].rule
  }

  lemma RestIs(base: seq<PendingExit>, left: seq<PendingExit>, i: int, k: nat, entry: nat)
    requires k < |base| && Walked(base, left, i, k)
    ensures |left| > k && Others(left[..k] + left[k + 1..], entry) == Shortened(base, i, entry, k)
  {
    assert left[..k] == base[..k] && left[k + 1..] == Later(base[k + 1..], i);
  }

  lemma StageEnds(s: seq<PendingExit>, i: int, live: Option<nat>, base: seq<PendingExit>, left: seq<PendingExit>,
                  rule: Option<string>)
    requires Stage(s, i, live, -1, base, left, rule)
    ensures !Overruns(s, i, live) && Known(s, i, live, rule)
    ensures left == if rule.None? then Later(s, i) else Later(Others(s, live.value), i)
  {
    hide Closer, Others, Own, Later, Shortened;
    assert base[0..] == base;
    if rule.Some? {
      ClosingStep(s, i, live.value, Closer(s, i, live.value));
    } else if live.Some? {
      CloserNone(s, i, live.value);
    }
  }

  lemma CloserIs(s: seq<PendingExit>, i: int, entry: nat, k: nat)
    requires k < |s| && Due(s[k], i) && s[k].entryIndex == entry
    requires forall j :: k < j < |s| ==> !(Due(s[j], i) && s[j].entryIndex == entry)
    ensures Closer(s, i, entry) == k
  {
  }

  lemma CloserNone(s: seq<PendingExit>, i: int, entry: nat)
    requires forall j :: 0 <= j < |s| ==> !(Due(s[j], i) && s[j].entryIndex == entry)
    ensures Closer(s, i, entry) == -1
  {
  }

  /** At most one deferred exit per position keeps the walk in bounds. */
  lemma OneEachIsSafe(s: seq<PendingExit>, i: int, live: Option<nat>)
    requires forall j, k :: 0 <= j < k < |s| ==> s[j].entryIndex != s[k].entryIndex
    ensures !Overruns(s, i, live)
  {
    if live.Some? && Closer(s, i, live.value) >= 0 {
      var k := Closer(s, i, live.value);
      NoneOwn(s[..k], live.value);
    }
  }

  lemma {:induction false} NoneOwn(s: seq<PendingExit>, entry: nat)
    requires forall j :: 0 <= j < |s| ==> s[j].entryIndex != entry
    ensures Own(s, entry) == 0
  {
    if s != [] {
      NoneOwn(s[..|s| - 1], entry);
    }
  }

  /** Two due exits for the open position run past the end of the list. */
  lemma TwoExitsOverrun(entry: nat, i: int, a: string, b: string)
    ensures var s := [OrderBroker.PendingExit(entry, i, a), OrderBroker.PendingExit(entry, i, b)];
            Overruns(s, i, Some(entry))
  {
    var x, y := OrderBroker.PendingExit(entry, i, a), OrderBroker.PendingExit(entry, i, b);
    var s := [x, y];
    CloserIs(s, i, entry, 1);
    assert s[..1] == [x] && [x][..0] == [] && s[2..] == [];
    assert Own([x], entry) == 1;
    assert Others(Later([], i), entry) == [];
  }
}
