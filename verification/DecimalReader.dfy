/**
  The scanner of number tokens (frozenNumberParts of dsl/frozen_level_json.go), which splits
  them into sign, digits and scale without building a float or a large power of ten, proved
  against the exact values of module Decimal.
*/
module DecimalReader {
  import opened Common
  import opened Digits
  import opened Decimal

  method ScanDigits(token: seq<Byte>, start: nat) returns (i: nat)
    requires start <= |token|
    ensures i == RunEnd(token, start)
  {
    i := start;
    while i < |token| && IsDigit(token[i])
      invariant start <= i <= |token| && RunEnd(token, i) == RunEnd(token, start)
    {
      i := i + 1;
    }
  }

  lemma {:induction false} NatPrefix(d: seq<Byte>, k: nat)
    requires AllDigits(d) && k <= |d|
    ensures Nat(d[..k]) <= Nat(d)
  {
    if k < |d| {
      NatPrefix(d[..|d| - 1], k);
      assert d[..|d| - 1][..k] == d[..k];
    } else {
      assert d[..k] == d;
    }
  }

  /** The exponent loop: stop as soon as the accumulated value passes the limit. */
  method ScanExponent(token: seq<Byte>, start: nat) returns (exponent: Option<nat>, i: nat)
    requires start <= |token|
    ensures var d := token[start..RunEnd(token, start)];
            exponent == if Nat(d) <= MAX_EXPONENT then Some(Nat(d)) else None
    ensures exponent.Some? ==> i == RunEnd(token, start)
  {
    ghost var e := RunEnd(token, start);
    ghost var d := token[start..e];
    i := start;
    var value := 0;
    assert token[start..start] == [];
    while i < |token| && IsDigit(token[i])
      invariant start <= i <= e && RunEnd(token, i) == e
      invariant AllDigits(token[start..i]) && value == Nat(token[start..i]) <= MAX_EXPONENT
    {
      assert token[start..i + 1][..i - start] == token[start..i];
      value := value * 10 + (token[i] - ZERO);
      if value > MAX_EXPONENT {
        NatPrefix(d, i + 1 - start);
        assert d[..i + 1 - start] == token[start..i + 1];
        return None, i;
      }
      i := i + 1;
    }
    return Some(value), i;
  }

  lemma TooLong(token: seq<Byte>)
    requires token == [] || |token| > MAX_BYTES
    ensures ReadParts(token).None?
  {
    ParseSound(token);
  }

  /** The digits of a fraction and where it ends; None for a point without digits. */
  method ScanFraction(token: seq<Byte>, i: nat) returns (frac: Option<seq<Byte>>, e: nat)
    requires i <= |token|
    ensures frac.None? <==> FracEnd(token, i).None?
    ensures frac.Some? ==> FracEnd(token, i) == Some(e) && i <= e && frac.value == FracDigits(token, i, e)
  {
    if i < |token| && token[i] == DOT {
      e := ScanDigits(token, i + 1);
      if e == i + 1 {
        return None, e;
      }
      return Some(token[i + 1..e]), e;
    }
    return Some([]), i;
  }

  function SignedExponent(x: Exponent): int
    requires AllDigits(x.digits)
  {
    if x.sign == [MINUS] then -(Nat(x.digits) as int) else Nat(x.digits)
  }

  /** The exponent at i and its end; None when malformed or over the limit. */
  function ReadExponent(t: seq<Byte>, i: nat): Option<(int, nat)>
    requires i <= |t|
  {
    match ParseExponent(t, i)
    case None => None
    case Some((None, e)) => Some((0, e))
    case Some((Some(x), e)) => if Nat(x.digits) <= MAX_EXPONENT then Some((SignedExponent(x), e)) else None
  }

  method ScanSignedExponent(token: seq<Byte>, i: nat) returns (r: Option<(int, nat)>)
    requires i <= |token|
    ensures r == ReadExponent(token, i)
  {
    if i < |token| && (token[i] == LOWER_E || token[i] == UPPER_E) {
      var start := i + 1;
      var negative := false;
      if start < |token| && (token[start] == PLUS || token[start] == MINUS) {
        negative := token[start] == MINUS;
        start := start + 1;
      }
      assert start == SignEnd(token, i + 1);
      var magnitude, e := ScanExponent(token, start);
      if magnitude.None? || e == start {
        return None;
      }
      assert token[i + 1..start] == if start == i + 1 then [] else [token[i + 1]];
      var exponent: int := magnitude.value;
      if negative {
        exponent := -exponent;
      }
      return Some((exponent, e));
    }
    return Some((0, i));
  }

  /** The shape made of the pieces of a token. */
  lemma PiecesShape(token: seq<Byte>, start: nat, a: nat, b: nat, e: nat, exponent: int) returns (x: Option<Exponent>)
    requires 0 < |token| && start == (if token[0] == MINUS then 1 else 0)
    requires start < a <= b <= |token| && IntegerEnd(token, start) == a && FracEnd(token, a) == Some(b)
    requires ReadExponent(token, b) == Some((exponent, e))
    ensures x.Some? ==> AllDigits(x.value.digits) && Nat(x.value.digits) <= MAX_EXPONENT
    ensures exponent == if x.None? then 0 else SignedExponent(x.value)
    ensures ParseShape(token)
         == if e != |token| then None else Some(Shape(start == 1, token[start..a], FracDigits(token, a, b), x))
  {
    hide FracEnd, IntegerEnd, ParseExponent, RunEnd, Nat;
    x := ParseExponent(token, b).value.0;
  }

  lemma ShapeFacts(s: Shape, token: seq<Byte>)
    requires Spells(s, token) && |token| <= MAX_BYTES
    requires s.exp.Some? ==> Nat(s.exp.value.digits) <= MAX_EXPONENT
    ensures AllDigits(s.integer) && AllDigits(s.frac)
    ensures s.Allowed() <==> !(s.negative && s.IsZero())
    ensures s.ExpValue() == if s.exp.None? then 0 else SignedExponent(s.exp.value)
    ensures PartsOf(s) == Parts(s.negative, TrimLeft(s.integer + s.frac), s.ExpValue() - |s.frac|)
  {
    hide Nat, TrimLeft;
  }

  /** What remains to be decided once the pieces of a token are known. */
  lemma PiecesDecide(token: seq<Byte>, start: nat, a: nat, b: nat, e: nat, exponent: int)
    requires 0 < |token| <= MAX_BYTES && start == (if token[0] == MINUS then 1 else 0)
    requires start < a <= b <= |token| && IntegerEnd(token, start) == a && FracEnd(token, a) == Some(b)
    requires ReadExponent(token, b) == Some((exponent, e))
    ensures var frac := FracDigits(token, a, b);
            && AllDigits(token[start..a]) && AllDigits(frac)
            && var digits := TrimLeft(token[start..a] + frac);
               ReadParts(token) ==
                 if e != |token| || (start == 1 && digits == []) then None
                 else Some(Parts(start == 1, digits, exponent - |frac|))
  {
    hide FracEnd, ReadExponent, RunEnd, Nat, TrimLeft, ParseShape, Spells, FracDigits, SignedExponent;
    FracSound(token, a);
    ParseSound(token);
    var x := PiecesShape(token, start, a, b, e, exponent);
    if e == |token| {
      var s := Shape(start == 1, token[start..a], FracDigits(token, a, b), x);
      ShapeFacts(s, token);
      SpelledIsValid(s, token);
      PartsValid(s);
    }
  }

  lemma SpelledIsValid(s: Shape, token: seq<Byte>)
    requires Spells(s, token)
    ensures s.Valid()
  {
  }

  /**
    frozenNumberParts: one pass over the token, no float and no power of ten. It accepts
    and reads exactly what Decimal.ReadParts does, which Decimal.ReadPartsExact ties to
    the grammar of RFC 8259 and to the exact value.
  */
  method NumberParts(token: seq<Byte>) returns (r: Option<Parts>)
    ensures r == ReadParts(token)
  {
    hide ReadParts, ParseExponent, RunEnd, Nat, TrimLeft, ReadExponent, FracEnd;
    if |token| == 0 || |token| > MAX_BYTES {
      TooLong(token);
      return None;
    }
    var i := 0;
    var negative := false;
    if token[i] == MINUS {
      negative := true;
      i := i + 1;
    }
    if i == |token| {
      NoInteger(token, i);
      return None;
    }
    var start := i;
    if token[i] == ZERO {
      i := i + 1;
    } else if 49 <= token[i] <= 57 {
      i := ScanDigits(token, i);
      RunGrows(token, start);
    } else {
      NoInteger(token, i);
      return None;
    }
    assert i == IntegerEnd(token, start);
    var frac, f := ScanFraction(token, i);
    if frac.None? {
      NoFraction(token, start);
      return None;
    }
    var exp := ScanSignedExponent(token, f);
    if exp.None? {
      NoExponent(token, start, f);
      return None;
    }
    PiecesDecide(token, start, i, f, exp.value.1, exp.value.0);
    if exp.value.1 != |token| {
      return None;
    }
    var digits := TrimLeft(token[start..i] + frac.value);
    if negative && digits == [] {
      return None;
    }
    return Some(Parts(negative, digits, exp.value.0 - |frac.value|));
  }

  lemma RunGrows(token: seq<Byte>, i: nat)
    requires i < |token| && IsDigit(token[i])
    ensures RunEnd(token, i) > i
  {
  }

  lemma NoInteger(token: seq<Byte>, start: nat)
    requires token != [] && start == (if token[0] == MINUS then 1 else 0)
    requires start == |token| || !IsDigit(token[start])
    ensures ReadParts(token).None?
  {
  }

  lemma NoFraction(token: seq<Byte>, start: nat)
    requires token != [] && start == (if token[0] == MINUS then 1 else 0) && start <= |token|
    requires FracEnd(token, IntegerEnd(token, start)).None?
    ensures ReadParts(token).None?
  {
  }

  lemma NoExponent(token: seq<Byte>, start: nat, b: nat)
    requires token != [] && start == (if token[0] == MINUS then 1 else 0) && start <= |token|
    requires FracEnd(token, IntegerEnd(token, start)) == Some(b)
    requires b <= |token| && ReadExponent(token, b).None?
    ensures ReadParts(token).None?
  {
    hide Nat, RunEnd, FracEnd, IntegerEnd, ParseExponent;
    ParseSound(token);
  }
}
