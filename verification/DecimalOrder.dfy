/**
  Integer test, order and equality of exact decimals, decided on digit strings
  (frozenExactInteger, frozenInputDecimalAfter and regimeNumberParts).
*/
module DecimalOrder {
  import opened Common
  import opened Digits
  import opened Decimal
  import opened DecimalReader

  // ----- exact integers

  predicate IsSafeInteger(v: real) {
    v == v.Floor as real && -MAX_SAFE <= v.Floor <= MAX_SAFE
  }

  /** A safe integer is a whole number of magnitude at most 2^53 - 1. */
  lemma SafeIs(v: real)
    ensures IsSafeInteger(v) <==>
              exists n: int :: IsWhole(v, n) && -9_007_199_254_740_991 <= n <= 9_007_199_254_740_991
  {
    if IsSafeInteger(v) {
      assert IsWhole(v, v.Floor);
    }
  }

  predicate IsWhole(v: real, n: int) {
    v == n as real
  }

  function Signed(negative: bool, n: nat): int {
    if negative then -(n as int) else n
  }

  /** With a nonnegative scale the value is the padded digits. */
  lemma ValueUp(p: Parts)
    requires p.Valid() && p.scale >= 0
    ensures p.Value() == Signed(p.negative, Nat(p.digits) * Pow(p.scale)) as real
  {
    ScaleIsPow(p.scale);
    hide Nat, Pow, Scale;
    CastProduct(Nat(p.digits), Pow(p.scale));
  }

  lemma CastProduct(a: nat, b: nat)
    ensures (a * b) as real == a as real * b as real
  {
  }

  lemma SixteenDigits()
    ensures Pow(16) > MAX_SAFE
  {
    assert Pow(8) == 100_000_000;
    PowAdd(8, 8);
  }

  /** Seventeen or more digits exceed the safe range. */
  lemma TooManyDigits(d: seq<Byte>, k: nat)
    requires AllDigits(d) && d != [] && d[0] != ZERO && |d| + k > 16
    ensures Nat(d) * Pow(k) > MAX_SAFE
  {
    NatLower(d);
    SixteenDigits();
    PowMonotone(16, |d| - 1 + k);
    PowAdd(|d| - 1, k);
    MulLe(Pow(|d| - 1), Nat(d), Pow(k));
  }

  /** With a negative scale the value is a quotient by a power of ten. */
  lemma ValueDown(p: Parts, m: nat)
    requires p.Valid() && p.scale + m == 0
    ensures p.Value() * Pow(m) as real == Signed(p.negative, Nat(p.digits)) as real
  {
    hide Nat, Pow, Scale;
    ScaleAdd(p.scale, m);
    ScaleZero();
    ScaleIsPow(m);
    TimesInverse(Nat(p.digits) as real, Scale(p.scale), Scale(m));
  }

  lemma TimesInverse(n: real, s: real, t: real)
    requires s * t == 1.0
    ensures (n * s) * t == n && (-(n * s)) * t == -n
  {
    assert (n * s) * t == n * (s * t);
  }

  /** A whole quotient by w, times w, gives the dividend back. */
  lemma WholeQuotient(v: real, n: int, w: nat)
    requires v * w as real == n as real && v == v.Floor as real
    ensures v.Floor * w == n
  {
    assert (v.Floor * w) as real == v.Floor as real * w as real;
  }

  lemma QuotientOf(v: real, hi: int, w: nat)
    requires w > 0 && v * w as real == (hi * w) as real
    ensures v == hi as real
  {
    assert (hi * w) as real == hi as real * w as real;
    CancelFactor(v, hi as real, w as real);
  }

  lemma SignedSplit(negative: bool, hi: nat, lo: nat, w: nat)
    ensures Signed(negative, hi * w) == Signed(negative, hi) * w
    ensures Signed(negative, hi * w + lo) == Signed(negative, hi) * w + Signed(negative, lo)
  {
  }

  /** A number hi*w + lo, lo below w, is an integer multiple of w only when lo is zero. */
  lemma SplitInteger(v: real, hi: nat, lo: nat, w: nat, negative: bool)
    requires lo < w && v * w as real == Signed(negative, hi * w + lo) as real
    ensures lo == 0 ==> v == Signed(negative, hi) as real
    ensures v == v.Floor as real ==> lo == 0
  {
    SignedSplit(negative, hi, lo, w);
    if lo == 0 {
      QuotientOf(v, Signed(negative, hi), w);
    }
    if v == v.Floor as real {
      WholeQuotient(v, Signed(negative, hi * w + lo), w);
      QuotientUnique(v.Floor, Signed(negative, hi), Signed(negative, lo), w);
    }
  }

  lemma CancelFactor(a: real, b: real, w: real)
    requires w > 0.0 && a * w == b * w
    ensures a == b
  {
    assert (a - b) * w == 0.0;
  }

  lemma QuotientUnique(n: int, hi: int, lo: int, w: nat)
    requires 0 < lo + w && lo < w && n * w == hi * w + lo
    ensures lo == 0
  {
    assert (n - hi) * w == lo;
    MulAway(n - hi, w);
  }

  /** The digits dropped by the cut are all zero exactly when their number is. */
  lemma CutDigits(d: seq<Byte>, cut: nat)
    requires AllDigits(d) && cut <= |d|
    ensures AllDigits(d[..cut]) && AllDigits(d[cut..])
    ensures Nat(d) == Nat(d[..cut]) * Pow(|d| - cut) + Nat(d[cut..]) && Nat(d[cut..]) < Pow(|d| - cut)
    ensures Nat(d[cut..]) == 0 <==> TrimLeft(d[cut..]) == []
  {
    hide Nat, Pow, TrimLeft;
    assert d == d[..cut] + d[cut..];
    NatConcat(d[..cut], d[cut..]);
    NatBound(d[cut..]);
    TrimLeftNat(d[cut..]);
  }

  /** A scale that swallows all digits leaves a proper fraction. */
  lemma AllFraction(p: Parts, m: nat)
    requires p.Valid() && p.scale + m == 0 && p.digits != [] && |p.digits| <= m
    ensures p.Value() != p.Value().Floor as real
  {
    hide Nat, Pow, Scale;
    NatLower(p.digits);
    NatBound(p.digits);
    PowMonotone(|p.digits|, m);
    ValueDown(p, m);
    assert 0 * Pow(m) + Nat(p.digits) == Nat(p.digits);
    SplitInteger(p.Value(), 0, Nat(p.digits), Pow(m), p.negative);
  }

  /**
    frozenExactInteger: succeeds exactly on accepted tokens whose exact value is an
    integer of magnitude at most 2^53 - 1, and returns that value.
  */
  method ExactInteger(token: seq<Byte>) returns (r: Option<int>)
    ensures r.Some? <==> ReadParts(token).Some? && ReadParts(token).value.Valid()
                         && IsSafeInteger(ReadParts(token).value.Value())
    ensures r.Some? ==> r.value as real == ReadParts(token).value.Value()
  {
    var parts := NumberParts(token);
    PartsAreValid(token);
    if parts.None? {
      return None;
    }
    var p := parts.value;
    if p.digits == [] {
      ZeroValue(p);
      return Some(0);
    }
    var digits := p.digits;
    if p.scale < 0 {
      var cut := |digits| + p.scale;
      if cut <= 0 {
        AllFraction(p, -p.scale);
        return None;
      }
      CutDigits(digits, cut);
      CutValue(p, cut);
      if TrimLeft(digits[cut..]) != [] {
        return None;
      }
      digits := digits[..cut];
    } else {
      ValueUp(p);
      if |digits| + p.scale > 16 {
        TooManyDigits(digits, p.scale);
        FloorOfSigned(p.negative, Nat(digits) * Pow(p.scale));
        return None;
      }
      NatPad(digits, p.scale);
      digits := digits + Zeros(p.scale);
    }
    FloorOfSigned(p.negative, Nat(digits));
    if |digits| > 16 {
      assert Pow(0) == 1;
      TooManyDigits(digits, 0);
      return None;
    }
    var value := Nat(digits);
    if value > MAX_SAFE {
      return None;
    }
    return Some(Signed(p.negative, value));
  }

  lemma FloorOfSigned(negative: bool, n: nat)
    ensures var v := Signed(negative, n);
            (v as real).Floor == v && (n > MAX_SAFE ==> !IsSafeInteger(v as real))
            && (n <= MAX_SAFE ==> IsSafeInteger(v as real))
  {
  }

  lemma PartsAreValid(token: seq<Byte>)
    ensures ReadParts(token).Some? ==>
              ReadParts(token).value.Valid()
              && (ReadParts(token).value.digits == [] ==> !ReadParts(token).value.negative)
  {
    if ReadParts(token).Some? {
      ParseSound(token);
      PartsValid(ParseShape(token).value);
    }
  }

  lemma ZeroValue(p: Parts)
    requires p.Valid() && p.digits == []
    ensures p.Value() == 0.0 && IsSafeInteger(p.Value())
  {
    hide Scale;
    NonzeroValue(p);
  }

  lemma CutValue(p: Parts, cut: nat)
    requires p.Valid() && p.scale < 0 && cut == |p.digits| + p.scale
    ensures AllDigits(p.digits[..cut]) && AllDigits(p.digits[cut..])
    ensures Nat(p.digits[cut..]) == 0 ==>
              p.Value() == Signed(p.negative, Nat(p.digits[..cut])) as real
    ensures p.Value() == p.Value().Floor as real ==> Nat(p.digits[cut..]) == 0
  {
    hide Nat, Pow, Scale;
    CutDigits(p.digits, cut);
    ValueDown(p, -p.scale);
    SplitInteger(p.Value(), Nat(p.digits[..cut]), Nat(p.digits[cut..]), Pow(-p.scale), p.negative);
  }

  // ----- order

  /** Digit i of the coefficient, zeros beyond its end. */
  function DigitAt(p: Parts, i: nat): Byte {
    if i < |p.digits| then p.digits[i] else ZERO
  }

  ghost predicate Positive(p: Parts) {
    p.Valid() && !p.negative && p.digits != []
  }

  function Padded(p: Parts, n: nat): seq<Byte>
    requires |p.digits| <= n
  {
    p.digits + Zeros(n - |p.digits|)
  }

  /** A positive value lies between the powers of ten around its leading digit. */
  lemma Magnitude(p: Parts)
    requires Positive(p)
    ensures Scale(|p.digits| + p.scale - 1) <= p.Value() < Scale(|p.digits| + p.scale)
  {
    hide Nat, Pow, Scale;
    var n := |p.digits|;
    NatLower(p.digits);
    NatBound(p.digits);
    ScaleAdd(n - 1, p.scale);
    ScaleAdd(n, p.scale);
    ScaleIsPow(n - 1);
    ScaleIsPow(n);
    var s := Scale(p.scale);
    Stretch(Pow(n - 1), Nat(p.digits), Pow(n), s, Scale(n + p.scale - 1), p.Value(), Scale(n + p.scale));
  }

  lemma Stretch(a: nat, x: nat, b: nat, s: real, lo: real, v: real, hi: real)
    requires a <= x < b && s > 0.0 && lo == a as real * s && v == x as real * s && hi == b as real * s
    ensures lo <= v < hi
  {
    assert (x as real - a as real) * s >= 0.0;
    assert (b as real - x as real) * s > 0.0;
  }

  /** Padding to n digits and lowering the exponent keeps the value. */
  lemma PaddedValue(p: Parts, n: nat)
    requires Positive(p) && |p.digits| <= n
    ensures AllDigits(Padded(p, n))
    ensures p.Value() == Nat(Padded(p, n)) as real * Scale(|p.digits| + p.scale - n)
  {
    hide Nat, Pow, Scale;
    var k := n - |p.digits|;
    NatPad(p.digits, k);
    ScaleAdd(k, p.scale - k);
    ScaleIsPow(k);
    CastProduct(Nat(p.digits), Pow(k));
    Reassociate(Nat(p.digits) as real, Scale(k), Scale(p.scale - k));
  }

  lemma Reassociate(x: real, y: real, z: real)
    ensures x * (y * z) == (x * y) * z
  {
  }

  lemma PaddedDigit(p: Parts, n: nat, i: nat)
    requires |p.digits| <= n && i < n
    ensures Padded(p, n)[i] == DigitAt(p, i)
  {
  }

  /** Numbers with the same leading position compare as their padded digits. */
  lemma SamePosition(a: Parts, b: Parts, n: nat)
    requires Positive(a) && Positive(b) && |a.digits| <= n && |b.digits| <= n
    requires |a.digits| + a.scale == |b.digits| + b.scale
    ensures AllDigits(Padded(a, n)) && AllDigits(Padded(b, n))
    ensures a.Value() > b.Value() <==> Nat(Padded(a, n)) > Nat(Padded(b, n))
  {
    hide Nat, Scale, Padded;
    PaddedValue(a, n);
    PaddedValue(b, n);
    CompareScaled(Nat(Padded(a, n)), Nat(Padded(b, n)), Scale(|a.digits| + a.scale - n));
  }

  lemma CompareScaled(x: nat, y: nat, s: real)
    requires s > 0.0
    ensures x as real * s > y as real * s <==> x > y
  {
    assert (x as real - y as real) * s == x as real * s - y as real * s;
    if x > y {
      assert (x as real - y as real) * s > 0.0;
    } else {
      assert (y as real - x as real) * s >= 0.0;
    }
  }

  lemma FirstDifference(a: Parts, b: Parts, n: nat, i: nat)
    requires Positive(a) && Positive(b) && |a.digits| <= n && |b.digits| <= n && i < n
    requires |a.digits| + a.scale == |b.digits| + b.scale
    requires forall j :: 0 <= j < i ==> DigitAt(a, j) == DigitAt(b, j)
    requires DigitAt(a, i) > DigitAt(b, i)
    ensures a.Value() > b.Value()
  {
    var x, y := Padded(a, n), Padded(b, n);
    SamePosition(a, b, n);
    forall j | 0 <= j <= i ensures x[j] == DigitAt(a, j) && y[j] == DigitAt(b, j) {
      PaddedDigit(a, n, j);
      PaddedDigit(b, n, j);
    }
    assert x[..i] == y[..i];
    NatLess(x, y, i);
  }

  lemma PaddedEqual(a: Parts, b: Parts, n: nat)
    requires |a.digits| <= n && |b.digits| <= n
    requires forall j :: 0 <= j < n ==> DigitAt(a, j) == DigitAt(b, j)
    ensures Padded(a, n) == Padded(b, n)
  {
    forall j | 0 <= j < n ensures Padded(a, n)[j] == Padded(b, n)[j] {
      PaddedDigit(a, n, j);
      PaddedDigit(b, n, j);
    }
  }

  lemma HigherPosition(a: Parts, b: Parts)
    requires Positive(a) && Positive(b) && |a.digits| + a.scale > |b.digits| + b.scale
    ensures a.Value() > b.Value()
  {
    hide Scale;
    Magnitude(a);
    Magnitude(b);
    ScaleMonotone(|b.digits| + b.scale, |a.digits| + a.scale - 1);
  }

  lemma SameDigits(a: Parts, b: Parts, n: nat)
    requires Positive(a) && Positive(b) && |a.digits| <= n && |b.digits| <= n
    requires |a.digits| + a.scale == |b.digits| + b.scale
    requires forall j :: 0 <= j < n ==> DigitAt(a, j) == DigitAt(b, j)
    ensures a.Value() == b.Value()
  {
    hide Nat, Scale, Padded;
    PaddedValue(a, n);
    PaddedValue(b, n);
    PaddedEqual(a, b, n);
  }

  /**
    frozenInputDecimalAfter: for positive numbers the walk over leading positions and
    digits decides the order of the exact values.
  */
  method DecimalAfter(a: Parts, b: Parts) returns (after: bool)
    requires Positive(a) && Positive(b)
    ensures after <==> a.Value() > b.Value()
  {
    var ad, bd := |a.digits| + a.scale, |b.digits| + b.scale;
    if ad != bd {
      if ad > bd {
        HigherPosition(a, b);
      } else {
        HigherPosition(b, a);
      }
      return ad > bd;
    }
    var n := if |b.digits| > |a.digits| then |b.digits| else |a.digits|;
    for i := 0 to n
      invariant forall j :: 0 <= j < i ==> DigitAt(a, j) == DigitAt(b, j)
    {
      var x, y := ZERO, ZERO;
      if i < |a.digits| {
        x := a.digits[i];
      }
      if i < |b.digits| {
        y := b.digits[i];
      }
      if x != y {
        if x > y {
          FirstDifference(a, b, n, i);
        } else {
          FirstDifference(b, a, n, i);
        }
        return x > y;
      }
    }
    SameDigits(a, b, n);
    return false;
  }

  // ----- equality

  /** Parts without trailing zeros in the coefficient. */
  function Stripped(p: Parts): Parts
    decreases |p.digits|
  {
    if p.digits != [] && p.digits[|p.digits| - 1] == ZERO
    then Stripped(p.(digits := p.digits[..|p.digits| - 1], scale := p.scale + 1))
    else p
  }

  /** The normalising loop of regimeNumberParts. */
  method StripZeros(parts: Parts) returns (p: Parts)
    ensures p == Stripped(parts)
  {
    p := parts;
    while p.digits != [] && p.digits[|p.digits| - 1] == ZERO
      invariant Stripped(p) == Stripped(parts)
      decreases |p.digits|
    {
      p := p.(digits := p.digits[..|p.digits| - 1], scale := p.scale + 1);
    }
  }

  lemma {:induction false} StrippedKeeps(p: Parts)
    requires p.Valid()
    ensures var q := Stripped(p);
            && q.Valid() && q.negative == p.negative && q.Value() == p.Value()
            && (q.digits == [] <==> p.digits == [])
            && (q.digits != [] ==> q.digits[|q.digits| - 1] != ZERO)
            && (p.digits == [] ==> q == p)
    decreases |p.digits|
  {
    hide Nat, Scale;
    if p.digits != [] && p.digits[|p.digits| - 1] == ZERO {
      var q := p.(digits := p.digits[..|p.digits| - 1], scale := p.scale + 1);
      DropZero(p);
      StrippedKeeps(q);
    }
  }

  lemma DropZero(p: Parts)
    requires p.Valid() && p.digits != [] && p.digits[|p.digits| - 1] == ZERO
    ensures var q := p.(digits := p.digits[..|p.digits| - 1], scale := p.scale + 1);
            q.Valid() && q.digits != [] && q.Value() == p.Value()
  {
    var front := p.digits[..|p.digits| - 1];
    assert Nat(p.digits) == Nat(front) * 10;
    ScaleStep(p.scale);
    assert front != [];
    hide Nat, Scale;
    MoveTen(Nat(front), Scale(p.scale));
  }

  lemma MoveTen(x: nat, s: real)
    ensures (x * 10) as real * s == x as real * (10.0 * s)
  {
    assert (x * 10) as real == x as real * 10.0;
  }

  /** A trimmed coefficient ends in a nonzero digit, so ten does not divide it. */
  lemma NotTenfold(p: Parts, x: nat, k: nat)
    requires p.Valid() && p.digits != [] && p.digits[|p.digits| - 1] != ZERO && k > 0
    ensures Nat(p.digits) != x * Pow(k)
  {
    var front, last := p.digits[..|p.digits| - 1], p.digits[|p.digits| - 1] - ZERO;
    assert Nat(p.digits) == Nat(front) * 10 + last;
    assert Pow(k) == 10 * Pow(k - 1);
    hide Nat, Pow;
    TenDivides(x, Pow(k - 1));
    assert (x * Pow(k)) % 10 == 0;
    assert (Nat(front) * 10 + last) % 10 == last;
  }

  lemma TenDivides(x: nat, w: nat)
    ensures (x * (10 * w)) % 10 == 0
  {
    assert x * (10 * w) == (x * w) * 10;
  }

  lemma CommonScale(x: nat, y: nat, p: nat, up: real, s: real)
    requires s > 0.0 && up == p as real && x as real * s == y as real * (up * s)
    ensures x == y * p
  {
    Reassociate(y as real, up, s);
    CastProduct(y, p);
    CancelFactor(x as real, (y * p) as real, s);
  }

  /** Of two normalised nonzero numbers of equal magnitude, neither has the lower exponent. */
  lemma ScalesAgree(p: Parts, q: Parts)
    requires p.Valid() && q.Valid() && p.digits != [] && q.digits != []
    requires p.digits[|p.digits| - 1] != ZERO
    requires p.Abs() == q.Abs()
    ensures p.scale >= q.scale
  {
    hide Nat, Pow, Scale;
    if p.scale < q.scale {
      var k := q.scale - p.scale;
      ScaleAdd(k, p.scale);
      ScaleIsPow(k);
      CommonScale(Nat(p.digits), Nat(q.digits), Pow(k), Scale(k), Scale(p.scale));
      NotTenfold(p, Nat(q.digits), k);
      assert false;
    }
  }

  lemma NonzeroValue(p: Parts)
    requires p.Valid()
    ensures p.Abs() >= 0.0 && (p.Abs() == 0.0 <==> p.digits == [])
  {
    hide Scale;
    if p.digits != [] {
      NatLower(p.digits);
    }
    ProductSign(Nat(p.digits), Scale(p.scale));
  }

  lemma ProductSign(x: nat, s: real)
    requires s > 0.0
    ensures x as real * s >= 0.0 && (x as real * s == 0.0 <==> x == 0)
  {
    if x > 0 {
      assert x as real * s > 0.0;
    }
  }

  lemma SameScaleDigits(p: Parts, q: Parts)
    requires p.Valid() && q.Valid() && p.digits != [] && q.digits != []
    requires p.scale == q.scale && p.Abs() == q.Abs()
    ensures p.digits == q.digits
  {
    hide Nat, Scale;
    CancelFactor(Nat(p.digits) as real, Nat(q.digits) as real, Scale(p.scale));
    NatInjectiveTrimmed(p.digits, q.digits);
  }

  /**
    Comparing normalised parts compares exact values, except that zeros written with
    different scales (0 and 0.0) stay apart: parts agree if and only if the values agree
    and, for zero, the scales do as well.
  */
  lemma NormalisedEquality(p: Parts, q: Parts)
    requires p.Valid() && q.Valid()
    requires (p.digits == [] ==> !p.negative) && (q.digits == [] ==> !q.negative)
    ensures Stripped(p) == Stripped(q)
            <==> p.Value() == q.Value() && (p.digits == [] ==> p.scale == q.scale)
  {
    hide Nat, Scale, Stripped, Parts.Abs;
    StrippedKeeps(p);
    StrippedKeeps(q);
    NonzeroValue(p);
    NonzeroValue(q);
    var a, b := Stripped(p), Stripped(q);
    if p.Value() == q.Value() && p.digits != [] {
      ScalesAgree(a, b);
      ScalesAgree(b, a);
      SameScaleDigits(a, b);
    }
  }

  /** A zero written with fraction digits keeps their count as its scale. */
  lemma ZeroParts(frac: seq<Byte>)
    requires |frac| + 2 <= MAX_BYTES && forall i :: 0 <= i < |frac| ==> frac[i] == ZERO
    ensures var token := if frac == [] then [ZERO] else [ZERO, DOT] + frac;
            ReadParts(token) == Some(Parts(false, [], -|frac|))
  {
    hide ParseShape, TrimLeft, Nat;
    var s := Shape(false, [ZERO], frac, None);
    ParseRender(s);
    NatZero([ZERO]);
    NatZero(frac);
    PartsValid(s);
    ZeroRender(s);
  }

  lemma ZeroRender(s: Shape)
    requires !s.negative && s.exp.None? && s.integer == [ZERO]
    ensures s.Render() == if s.frac == [] then [ZERO] else [ZERO, DOT] + s.frac
  {
  }

  /** The tokens 0 and 0.0 have the same value, and the comparison tells them apart. */
  lemma ZeroSpellings()
    ensures var a, b := ReadParts([ZERO]), ReadParts([ZERO, DOT, ZERO]);
            && a.Some? && b.Some? && a.value.Valid() && b.value.Valid()
            && a.value.Value() == b.value.Value() && Stripped(a.value) != Stripped(b.value)
  {
    ZeroParts([]);
    ZeroParts([ZERO]);
    assert [ZERO, DOT] + [ZERO] == [ZERO, DOT, ZERO];
    NonzeroValue(Parts(false, [], 0));
    NonzeroValue(Parts(false, [], -1));
    hide ReadParts, Nat, Scale;
  }
}
