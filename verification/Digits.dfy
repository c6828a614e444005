/** Decimal digit strings, powers of ten and their order. */
module Digits {
  type Byte = x: int | 0 <= x < 256

  const ZERO: Byte := 48

  predicate IsDigit(b: Byte) {
    48 <= b <= 57
  }

  predicate AllDigits(d: seq<Byte>) {
    forall i :: 0 <= i < |d| ==> IsDigit(d[i])
  }

  /** The number a digit string spells in base ten. */
  function Nat(d: seq<Byte>): nat
    requires AllDigits(d)
  {
    if d == [] then 0 else Nat(d[..|d| - 1]) * 10 + (d[|d| - 1] - ZERO)
  }

  function Pow(k: nat): (p: nat)
    ensures p >= 1
  {
    if k == 0 then 1 else 10 * Pow(k - 1)
  }

  lemma {:induction false} PowAdd(a: nat, b: nat)
    ensures Pow(a + b) == Pow(a) * Pow(b)
  {
    if b > 0 {
      PowAdd(a, b - 1);
      ShiftDigit(Pow(a), Pow(b - 1));
    }
  }

  lemma {:induction false} PowMonotone(a: nat, b: nat)
    requires a <= b
    ensures Pow(a) <= Pow(b)
    decreases b - a
  {
    if a < b {
      PowMonotone(a, b - 1);
    }
  }

  lemma {:induction false} NatBound(d: seq<Byte>)
    requires AllDigits(d)
    ensures Nat(d) < Pow(|d|)
  {
    if d != [] {
      NatBound(d[..|d| - 1]);
    }
  }

  /** High digits weigh a power of ten each. */
  lemma {:induction false} NatConcat(a: seq<Byte>, b: seq<Byte>)
    requires AllDigits(a) && AllDigits(b)
    ensures AllDigits(a + b)
    ensures Nat(a + b) == Nat(a) * Pow(|b|) + Nat(b)
  {
    if b == [] {
      assert a + b == a;
    } else {
      var c := b[..|b| - 1];
      NatConcat(a, c);
      assert (a + b)[..|a + b| - 1] == a + c;
      LastDigit(a + b);
      LastDigit(b);
      hide Nat;
      ShiftDigit(Nat(a), Pow(|c|));
    }
  }

  lemma LastDigit(d: seq<Byte>)
    requires AllDigits(d) && d != []
    ensures AllDigits(d[..|d| - 1]) && Nat(d) == Nat(d[..|d| - 1]) * 10 + (d[|d| - 1] - ZERO)
  {
  }

  lemma ShiftDigit(x: nat, w: nat)
    ensures (x * w) * 10 == x * (10 * w)
  {
  }

  lemma {:induction false} NatZero(d: seq<Byte>)
    requires AllDigits(d)
    ensures Nat(d) == 0 <==> forall i :: 0 <= i < |d| ==> d[i] == ZERO
  {
    if d != [] {
      var c := d[..|d| - 1];
      NatZero(c);
      assert forall i :: 0 <= i < |c| ==> c[i] == d[i];
    }
  }

  /** A nonempty string without leading zero is at least a power of ten. */
  lemma NatLower(d: seq<Byte>)
    requires AllDigits(d) && d != [] && d[0] != ZERO
    ensures Nat(d) >= Pow(|d| - 1)
  {
    assert d == d[..1] + d[1..];
    NatConcat(d[..1], d[1..]);
    assert Nat(d[..1]) == Nat(d[..1][..0]) * 10 + (d[0] - ZERO);
    assert Nat(d[..1]) >= 1;
    MulAtLeast(Nat(d[..1]), Pow(|d| - 1));
  }

  lemma MulAtLeast(a: nat, b: nat)
    requires a >= 1
    ensures a * b >= b
  {
  }

  /** Two strings of one length compare as numbers at their first difference. */
  lemma NatLess(a: seq<Byte>, b: seq<Byte>, i: nat)
    requires AllDigits(a) && AllDigits(b) && |a| == |b| && i < |a|
    requires a[..i] == b[..i] && a[i] > b[i]
    ensures Nat(a) > Nat(b)
  {
    hide Nat, Pow;
    NatAt(a, i);
    NatAt(b, i);
    NatBound(b[i + 1..]);
    LeadWins(a[i] - ZERO, b[i] - ZERO, Pow(|a| - i - 1), Nat(a[i + 1..]), Nat(b[i + 1..]));
  }

  /** A number split around digit i. */
  lemma NatAt(d: seq<Byte>, i: nat)
    requires AllDigits(d) && i < |d|
    ensures Nat(d) == Nat(d[..i]) * Pow(|d| - i) + ((d[i] - ZERO) * Pow(|d| - i - 1) + Nat(d[i + 1..]))
  {
    hide Nat, Pow;
    var x, tail := [d[i]], d[i + 1..];
    OneDigit(d[i]);
    assert d == d[..i] + (x + tail);
    NatConcat(x, tail);
    NatConcat(d[..i], x + tail);
    assert |x + tail| == |d| - i && |tail| == |d| - i - 1;
  }

  lemma OneDigit(b: Byte)
    requires IsDigit(b)
    ensures Nat([b]) == b - ZERO
  {
    assert [b][..0] == [];
  }

  lemma LeadWins(x: nat, y: nat, w: nat, tailX: nat, tailY: nat)
    requires x >= y + 1 && tailY < w
    ensures x * w + tailX > y * w + tailY
  {
    MulLe(y + 1, x, w);
    OneMore(y, w);
  }

  lemma OneMore(y: nat, w: nat)
    ensures (y + 1) * w == y * w + w
  {
  }

  lemma MulLe(a: nat, b: nat, c: nat)
    requires a <= b
    ensures a * c <= b * c
  {
  }

  /** Equal length and equal number mean equal digits. */
  lemma {:induction false} NatInjective(a: seq<Byte>, b: seq<Byte>)
    requires AllDigits(a) && AllDigits(b) && |a| == |b| && Nat(a) == Nat(b)
    ensures a == b
  {
    if a != [] {
      var n := |a| - 1;
      NatInjective(a[..n], b[..n]);
      assert a == a[..n] + [a[n]] && b == b[..n] + [b[n]];
    }
  }

  /** Without leading zeros the number alone fixes the digits. */
  lemma NatInjectiveTrimmed(a: seq<Byte>, b: seq<Byte>)
    requires AllDigits(a) && AllDigits(b) && Nat(a) == Nat(b)
    requires a != [] && a[0] != ZERO && b != [] && b[0] != ZERO
    ensures a == b
  {
    LongerIsLarger(a, b);
    LongerIsLarger(b, a);
    NatInjective(a, b);
  }

  lemma LongerIsLarger(a: seq<Byte>, b: seq<Byte>)
    requires AllDigits(a) && AllDigits(b) && b != [] && b[0] != ZERO
    ensures |a| < |b| ==> Nat(a) < Nat(b)
  {
    if |a| < |b| {
      NatBound(a);
      PowMonotone(|a|, |b| - 1);
      NatLower(b);
    }
  }

  function Zeros(k: nat): (z: seq<Byte>)
    ensures |z| == k && forall i :: 0 <= i < k ==> z[i] == ZERO
  {
    seq(k, _ => ZERO)
  }

  lemma NatPad(d: seq<Byte>, k: nat)
    requires AllDigits(d)
    ensures AllDigits(d + Zeros(k)) && Nat(d + Zeros(k)) == Nat(d) * Pow(k)
  {
    NatConcat(d, Zeros(k));
    NatZero(Zeros(k));
  }

  /** Digits without their leading zeros. */
  function TrimLeft(d: seq<Byte>): (r: seq<Byte>)
    ensures AllDigits(d) ==> AllDigits(r)
    ensures r != [] ==> r[0] != ZERO
    ensures |r| <= |d|
  {
    if d != [] && d[0] == ZERO then TrimLeft(d[1..]) else d
  }

  lemma {:induction false} TrimLeftNat(d: seq<Byte>)
    requires AllDigits(d)
    ensures Nat(TrimLeft(d)) == Nat(d)
    ensures TrimLeft(d) == [] <==> Nat(d) == 0
  {
    if d != [] && d[0] == ZERO {
      TrimLeftNat(d[1..]);
      assert d == Zeros(1) + d[1..];
      NatConcat(Zeros(1), d[1..]);
      NatZero(Zeros(1));
    } else if d != [] {
      NatLower(d);
    }
  }

  // ----- real powers of ten, negative exponents included

  function Scale(k: int): (r: real)
    ensures r > 0.0
    decreases if k < 0 then -k else k
  {
    if k == 0 then 1.0 else if k > 0 then 10.0 * Scale(k - 1) else Scale(k + 1) / 10.0
  }

  lemma {:induction false} ScaleStep(k: int)
    ensures Scale(k + 1) == 10.0 * Scale(k)
  {
  }

  lemma {:induction false} ScaleAddNat(a: int, b: nat)
    ensures Scale(a + b) == Scale(a) * Scale(b)
  {
    hide Scale;
    ScaleZero();
    if b > 0 {
      ScaleAddNat(a, b - 1);
      ScaleStep(a + b - 1);
      ScaleStep(b - 1);
      TenTimes(Scale(a), Scale(b - 1));
    }
  }

  lemma TenTimes(x: real, y: real)
    ensures x * (10.0 * y) == 10.0 * (x * y)
  {
  }

  lemma ScaleAdd(a: int, b: int)
    ensures Scale(a + b) == Scale(a) * Scale(b)
  {
    hide Scale;
    ScaleZero();
    if b >= 0 {
      ScaleAddNat(a, b);
    } else {
      ScaleAddNat(a + b, -b);
      ScaleAddNat(b, -b);
      RealCancel(Scale(a), Scale(a + b), Scale(-b), Scale(b));
    }
  }

  lemma ScaleZero()
    ensures Scale(0) == 1.0
  {
  }

  lemma RealCancel(a: real, x: real, y: real, z: real)
    requires a == x * y && z * y == 1.0
    ensures a * z == x
  {
    assert a * z == x * (z * y);
  }

  lemma {:induction false} ScaleIsPow(k: nat)
    ensures Scale(k) == Pow(k) as real
  {
    if k > 0 {
      ScaleIsPow(k - 1);
    }
  }

  lemma {:induction false} ScaleMonotone(a: int, b: int)
    requires a <= b
    ensures Scale(a) <= Scale(b)
    decreases b - a
  {
    if a < b {
      ScaleMonotone(a, b - 1);
      ScaleStep(b - 1);
    }
  }
}
