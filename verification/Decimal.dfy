/**
  Exact decimal numbers read from JSON number tokens (frozenNumberParts and
  frozenExactInteger in dsl/frozen_level_json.go). The grammar is that of section 6 of
  RFC 8259, written down here as shapes and their rendering, apart from the scanner.
*/
module Decimal {
  import opened Common
  import opened Digits

  const MAX_BYTES := 1024
  const MAX_EXPONENT := 10000
  const MAX_SAFE := 9_007_199_254_740_991

  const MINUS: Byte := 45
  const PLUS: Byte := 43
  const DOT: Byte := 46
  const LOWER_E: Byte := 101
  const UPPER_E: Byte := 69

  // ----- the grammar

  datatype Exponent = Exponent(mark: Byte, sign: seq<Byte>, digits: seq<Byte>)

  /** A number token taken apart; an absent fraction is the empty string. */
  datatype Shape = Shape(negative: bool, integer: seq<Byte>, frac: seq<Byte>, exp: Option<Exponent>) {
    predicate Valid() {
      && AllDigits(integer) && integer != [] && (integer[0] == ZERO ==> |integer| == 1)
      && AllDigits(frac)
      && (exp.Some? ==>
            && (exp.value.mark == LOWER_E || exp.value.mark == UPPER_E)
            && (exp.value.sign == [] || exp.value.sign == [PLUS] || exp.value.sign == [MINUS])
            && AllDigits(exp.value.digits) && exp.value.digits != [])
    }

    function SignText(): seq<Byte> {
      if negative then [MINUS] else []
    }

    function FracText(): seq<Byte> {
      if frac == [] then [] else [DOT] + frac
    }

    function ExpText(): seq<Byte> {
      if exp.None? then [] else [exp.value.mark] + exp.value.sign + exp.value.digits
    }

    function Render(): seq<Byte> {
      SignText() + integer + FracText() + ExpText()
    }

    function ExpValue(): int {
      if !Valid() || exp.None? then 0
      else if exp.value.sign == [MINUS] then -(Nat(exp.value.digits) as int)
      else Nat(exp.value.digits)
    }

    predicate IsZero() {
      Valid() && Nat(integer) == 0 && Nat(frac) == 0
    }

    /** The exact value the token denotes. */
    function Value(): real {
      if !Valid() then 0.0
      else
        var v := (Nat(integer) as real + Nat(frac) as real * Scale(-|frac|)) * Scale(ExpValue());
        if negative then -v else v
    }

    /** The resource limits and the ban on negative zero. */
    predicate Allowed() {
      && Valid()
      && |Render()| <= MAX_BYTES
      && (exp.Some? ==> Nat(exp.value.digits) <= MAX_EXPONENT)
      && !(negative && IsZero())
    }
  }

  ghost predicate Spells(s: Shape, token: seq<Byte>) {
    s.Valid() && s.Render() == token
  }

  /** What the reader must accept as a number. */
  ghost predicate Accepted(token: seq<Byte>) {
    exists s :: Spells(s, token) && s.Allowed()
  }

  // ----- the result of the scanner

  /** Signed digits * 10^scale, without leading zeros. */
  datatype Parts = Parts(negative: bool, digits: seq<Byte>, scale: int) {
    predicate Valid() {
      AllDigits(digits) && (digits != [] ==> digits[0] != ZERO)
    }

    function Abs(): real {
      if !Valid() then 0.0 else Nat(digits) as real * Scale(scale)
    }

    function Value(): real {
      if negative then -Abs() else Abs()
    }
  }

  function PartsOf(s: Shape): Parts
    requires s.Valid()
  {
    Parts(s.negative, TrimLeft(s.integer + s.frac), s.ExpValue() - |s.frac|)
  }

  lemma PartsValid(s: Shape)
    requires s.Valid()
    ensures PartsOf(s).Valid()
    ensures PartsOf(s).digits == [] <==> s.IsZero()
  {
    NatConcat(s.integer, s.frac);
    TrimLeftNat(s.integer + s.frac);
    if Nat(s.integer) > 0 {
      MulAtLeast(Nat(s.integer), Pow(|s.frac|));
    }
  }

  /** The parts have exactly the value of the token. */
  lemma PartsExact(s: Shape)
    requires s.Valid()
    ensures PartsOf(s).Valid() && PartsOf(s).Value() == s.Value()
  {
    hide Nat, Pow, Scale, TrimLeft;
    PartsValid(s);
    NatConcat(s.integer, s.frac);
    TrimLeftNat(s.integer + s.frac);
    var m, k := -|s.frac|, s.ExpValue();
    ScaleAdd(m, k);
    ScaleAdd(|s.frac|, m);
    ScaleZero();
    ScaleIsPow(|s.frac|);
    var i, f := Nat(s.integer), Nat(s.frac);
    CastSum(i, Pow(|s.frac|), f);
    Regroup(i as real, f as real, Scale(|s.frac|), Scale(m), Scale(k));
  }

  lemma CastSum(i: nat, p: nat, f: nat)
    ensures (i * p + f) as real == i as real * p as real + f as real
  {
    assert (i * p) as real == i as real * p as real;
  }

  lemma Regroup(i: real, f: real, up: real, down: real, e: real)
    requires up * down == 1.0
    ensures (i * up + f) * (down * e) == (i + f * down) * e
  {
    assert (i * up + f) * (down * e) == (i * (up * down) + f * down) * e;
  }

  // ----- recognising a shape

  /** End of the digits starting at i. */
  function RunEnd(t: seq<Byte>, i: nat): (e: nat)
    requires i <= |t|
    ensures i <= e <= |t| && AllDigits(t[i..e]) && (e < |t| ==> !IsDigit(t[e]))
    decreases |t| - i
  {
    if i < |t| && IsDigit(t[i]) then
      var e := RunEnd(t, i + 1);
      assert t[i..e] == [t[i]] + t[i + 1..e];
      e
    else i
  }

  function IntegerEnd(t: seq<Byte>, i: nat): (e: nat)
    requires i <= |t|
    ensures i <= e <= |t| && AllDigits(t[i..e])
    ensures e > i ==> (t[i] == ZERO ==> e == i + 1)
  {
    if i == |t| then i
    else if t[i] == ZERO then i + 1
    else RunEnd(t, i)
  }

  /** The fraction at i, as its end; None for a point without digits. */
  function FracEnd(t: seq<Byte>, i: nat): (e: Option<nat>)
    requires i <= |t|
    ensures e.Some? ==> i <= e.value <= |t|
  {
    if i < |t| && t[i] == DOT then
      var e := RunEnd(t, i + 1);
      if e == i + 1 then None else Some(e)
    else Some(i)
  }

  function SignEnd(t: seq<Byte>, i: nat): (e: nat)
    requires i <= |t|
    ensures i <= e <= |t|
  {
    if i < |t| && (t[i] == PLUS || t[i] == MINUS) then i + 1 else i
  }

  function ParseExponent(t: seq<Byte>, i: nat): (x: Option<(Option<Exponent>, nat)>)
    requires i <= |t|
    ensures x.Some? && x.value.0.Some? ==> AllDigits(x.value.0.value.digits)
  {
    if i < |t| && (t[i] == LOWER_E || t[i] == UPPER_E) then
      var d := SignEnd(t, i + 1);
      var e := RunEnd(t, d);
      if e == d then None else Some((Some(Exponent(t[i], t[i + 1..d], t[d..e])), e))
    else Some((None, i))
  }

  function FracDigits(t: seq<Byte>, a: nat, b: nat): seq<Byte>
    requires a <= b <= |t|
  {
    if b == a then [] else t[a + 1..b]
  }

  function ParseShape(t: seq<Byte>): Option<Shape> {
    var start := if t != [] && t[0] == MINUS then 1 else 0;
    var a := IntegerEnd(t, start);
    if a == start then None
    else
      var b := FracEnd(t, a);
      if b.None? then None
      else
        var x := ParseExponent(t, b.value);
        if x.None? || x.value.1 != |t| then None
        else Some(Shape(start == 1, t[start..a], FracDigits(t, a, b.value), x.value.0))
  }

  function SpelledExp(x: Option<Exponent>): seq<Byte> {
    Shape(false, [], [], x).ExpText()
  }

  lemma FracSound(t: seq<Byte>, a: nat)
    requires a <= |t| && FracEnd(t, a).Some?
    ensures var b := FracEnd(t, a).value;
            && AllDigits(FracDigits(t, a, b))
            && t[a..b] == if FracDigits(t, a, b) == [] then [] else [DOT] + FracDigits(t, a, b)
  {
  }

  lemma ExponentSound(t: seq<Byte>, i: nat)
    requires i <= |t| && ParseExponent(t, i).Some?
    ensures var (x, e) := ParseExponent(t, i).value;
            && i <= e <= |t| && t[i..e] == SpelledExp(x)
            && Shape(false, [ZERO], [], x).Valid()
  {
    var (x, e) := ParseExponent(t, i).value;
    if x.Some? {
      var d := SignEnd(t, i + 1);
      assert t[i..e] == [t[i]] + t[i + 1..d] + t[d..e];
    }
  }

  lemma Assemble(t: seq<Byte>, start: nat, a: nat, b: nat)
    requires start <= a <= b <= |t|
    ensures t == t[..start] + t[start..a] + t[a..b] + t[b..]
  {
  }

  lemma ParseSound(t: seq<Byte>)
    ensures ParseShape(t).Some? ==> Spells(ParseShape(t).value, t)
  {
    hide FracEnd, ParseExponent, RunEnd, Nat;
    if ParseShape(t).Some? {
      var s := ParseShape(t).value;
      var start := if t != [] && t[0] == MINUS then 1 else 0;
      var a := IntegerEnd(t, start);
      var b := FracEnd(t, a).value;
      FracSound(t, a);
      ExponentSound(t, b);
      Assemble(t, start, a, b);
      Rebuild(s, t, start, a, b);
    }
  }

  lemma Rebuild(s: Shape, t: seq<Byte>, start: nat, a: nat, b: nat)
    requires start <= a <= b <= |t| && t == t[..start] + t[start..a] + t[a..b] + t[b..]
    requires s.SignText() == t[..start] && s.integer == t[start..a]
    requires s.FracText() == t[a..b] && s.ExpText() == t[b..|t|]
    ensures s.Render() == t
  {
    assert t[b..|t|] == t[b..];
  }

  /** Digits followed by something else end where the something else begins. */
  lemma {:induction false} RunEndAt(t: seq<Byte>, i: nat, e: nat)
    requires i <= e <= |t| && AllDigits(t[i..e]) && (e < |t| ==> !IsDigit(t[e]))
    ensures RunEnd(t, i) == e
    decreases e - i
  {
    if i < e {
      assert t[i] == t[i..e][0] && t[i + 1..e] == t[i..e][1..];
      RunEndAt(t, i + 1, e);
    }
  }

  lemma ParseRender(s: Shape)
    requires s.Valid()
    ensures ParseShape(s.Render()) == Some(s)
  {
    var t := s.Render();
    var start := |s.SignText()|;
    var a := start + |s.integer|;
    var b := a + |s.FracText()|;
    RenderSlices(s);
    hide FracEnd, ParseExponent, RunEnd, IntegerEnd, Nat, ParseShape, AllDigits, Shape.Render, Shape.ExpText;
    RenderInteger(s, t, start, a, b);
    RenderFraction(s, t, a, b);
    RenderExponent(s, t, b);
    ParseFrom(t, start, a, b, s.exp);
    assert s.frac == FracDigits(t, a, b) by {
      assert s.frac != [] ==> t[a + 1..b] == t[a..b][1..];
    }
  }

  lemma ParseFrom(t: seq<Byte>, start: nat, a: nat, b: nat, exp: Option<Exponent>)
    requires start < a <= b <= |t| && (start == if t[0] == MINUS then 1 else 0)
    requires IntegerEnd(t, start) == a && FracEnd(t, a) == Some(b) && ParseExponent(t, b) == Some((exp, |t|))
    ensures ParseShape(t) == Some(Shape(start == 1, t[start..a], FracDigits(t, a, b), exp))
  {
    hide FracEnd, ParseExponent, IntegerEnd;
  }

  lemma FourSlices(p: seq<Byte>, q: seq<Byte>, r: seq<Byte>, x: seq<Byte>)
    ensures var t := p + q + r + x;
            var a, b := |p| + |q|, |p| + |q| + |r|;
            t[..|p|] == p && t[|p|..a] == q && t[a..b] == r && t[b..] == x && b <= |t|
  {
  }

  lemma RenderSlices(s: Shape)
    requires s.Valid()
    ensures var t := s.Render();
            var start := |s.SignText()|;
            var a := start + |s.integer|;
            var b := a + |s.FracText()|;
            && start < a <= b <= |t|
            && t[start..a] == s.integer && t[a..b] == s.FracText() && t[b..] == s.ExpText()
            && t[start] == s.integer[0]
            && (start == if t[0] == MINUS then 1 else 0)
  {
    hide Shape.ExpText, Shape.FracText, AllDigits;
    assert IsDigit(s.integer[0]) by {
      FirstDigit(s.integer);
    }
    FourSlices(s.SignText(), s.integer, s.FracText(), s.ExpText());
    var t, start := s.Render(), |s.SignText()|;
    assert t[start] == t[start..start + |s.integer|][0];
    assert start > 0 ==> t[0] == t[..start][0];
  }

  lemma FirstDigit(d: seq<Byte>)
    requires AllDigits(d) && d != []
    ensures IsDigit(d[0])
  {
  }

  lemma RenderInteger(s: Shape, t: seq<Byte>, start: nat, a: nat, b: nat)
    requires s.Valid() && start < a <= b <= |t|
    requires t[start..a] == s.integer && t[a..b] == s.FracText() && t[b..] == s.ExpText()
    ensures IntegerEnd(t, start) == a
  {
    RenderAfterInteger(s, t, a, b);
    assert t[start] == t[start..a][0];
    if s.integer[0] != ZERO {
      RunEndAt(t, start, a);
    }
  }

  lemma RenderAfterInteger(s: Shape, t: seq<Byte>, a: nat, b: nat)
    requires s.Valid() && a <= b <= |t| && t[a..b] == s.FracText() && t[b..] == s.ExpText()
    ensures a < |t| ==> !IsDigit(t[a])
    ensures b < |t| ==> !IsDigit(t[b]) && t[b] != DOT
    ensures a < |t| && t[a] == DOT ==> a < b
  {
    assert a < b ==> t[a] == t[a..b][0];
    assert b < |t| ==> t[b] == t[b..][0];
  }

  lemma RenderFraction(s: Shape, t: seq<Byte>, a: nat, b: nat)
    requires s.Valid() && a <= b <= |t| && t[a..b] == s.FracText() && t[b..] == s.ExpText()
    ensures FracEnd(t, a) == Some(b)
  {
    RenderAfterInteger(s, t, a, b);
    if s.frac != [] {
      assert t[a] == t[a..b][0] && t[a + 1..b] == t[a..b][1..] == s.frac;
      RunEndAt(t, a + 1, b);
    }
  }

  lemma RenderExponent(s: Shape, t: seq<Byte>, b: nat)
    requires s.Valid() && b <= |t| && t[b..] == s.ExpText()
    ensures ParseExponent(t, b) == Some((s.exp, |t|))
  {
    if s.exp.Some? {
      var x := s.exp.value;
      var d := b + 1 + |x.sign|;
      assert t[b] == t[b..][0];
      assert t[b + 1..d] == t[b..][1..1 + |x.sign|] == x.sign;
      assert t[d..] == t[b..][1 + |x.sign|..] == x.digits;
      assert t[d] == t[d..][0];
      assert |x.sign| > 0 ==> t[b + 1] == t[b + 1..d][0];
      assert t[d..|t|] == t[d..];
      RunEndAt(t, d, |t|);
    }
  }

  /** The parts of an accepted token, None for every other token. */
  function ReadParts(token: seq<Byte>): Option<Parts> {
    var s := ParseShape(token);
    if s.None? then None
    else
      ParseSound(token);
      if s.value.Allowed() then Some(PartsOf(s.value)) else None
  }

  /**
    The tokens read are exactly those RFC 8259 allows within the limits, and the parts
    read are exact, trimmed, and empty only for zero.
  */
  lemma ReadPartsExact(token: seq<Byte>)
    ensures ReadParts(token).Some? <==> Accepted(token)
    ensures forall s :: Spells(s, token) && s.Allowed() ==>
              ReadParts(token) == Some(PartsOf(s)) && PartsOf(s).Valid() && PartsOf(s).Value() == s.Value()
  {
    ParseSound(token);
    forall s | Spells(s, token) && s.Allowed()
      ensures ReadParts(token) == Some(PartsOf(s)) && PartsOf(s).Valid() && PartsOf(s).Value() == s.Value()
    {
      ParseRender(s);
      PartsExact(s);
    }
  }
}
