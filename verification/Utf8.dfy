/**
  UTF-8 and the UTF-16 surrogate pairs of JSON escapes, as the strict reader uses them
  (utf8.Valid, utf8.AppendRune and utf16.DecodeRune in dsl/frozen_level_json.go).
*/
module Utf8 {
  import opened Common
  import opened Digits

  predicate IsScalar(cp: int) {
    0 <= cp <= 0x10FFFF && !(0xD800 <= cp <= 0xDFFF)
  }

  /** The shortest encoding of a scalar value. */
  function Encode(cp: int): (s: seq<Byte>)
    requires IsScalar(cp)
    ensures 1 <= |s| <= 4
  {
    if cp < 0x80 then [cp]
    else if cp < 0x800 then [0xC0 + cp / 64, 0x80 + cp % 64]
    else if cp < 0x10000 then [0xE0 + cp / 4096, 0x80 + cp / 64 % 64, 0x80 + cp % 64]
    else [0xF0 + cp / 262144, 0x80 + cp / 4096 % 64, 0x80 + cp / 64 % 64, 0x80 + cp % 64]
  }

  predicate Continues(b: Byte) {
    0x80 <= b <= 0xBF
  }

  /** The second byte a leading byte admits: no overlong form, surrogate or value past U+10FFFF. */
  predicate SecondByteOK(lead: Byte, b: Byte) {
    if lead == 0xE0 then 0xA0 <= b <= 0xBF
    else if lead == 0xED then 0x80 <= b <= 0x9F
    else if lead == 0xF0 then 0x90 <= b <= 0xBF
    else if lead == 0xF4 then 0x80 <= b <= 0x8F
    else Continues(b)
  }

  /** Bytes in the sequence a leading byte starts; 0 when it cannot lead. */
  function Width(lead: Byte): nat {
    if lead < 0x80 then 1
    else if 0xC2 <= lead <= 0xDF then 2
    else if 0xE0 <= lead <= 0xEF then 3
    else if 0xF0 <= lead <= 0xF4 then 4
    else 0
  }

  predicate StartsScalar(s: seq<Byte>) {
    && s != [] && Width(s[0]) > 0 && Width(s[0]) <= |s|
    && (Width(s[0]) > 1 ==> SecondByteOK(s[0], s[1]))
    && forall i :: 2 <= i < Width(s[0]) ==> Continues(s[i])
  }

  function FirstScalar(s: seq<Byte>): int
    requires StartsScalar(s)
  {
    var w := Width(s[0]);
    if w == 1 then s[0]
    else if w == 2 then Join2(s[0], s[1])
    else if w == 3 then Join3(s[0], s[1], s[2])
    else Join4(s[0], s[1], s[2], s[3])
  }

  function Join2(a: int, b: int): int { (a - 0xC0) * 64 + (b - 0x80) }
  function Join3(a: int, b: int, c: int): int { (a - 0xE0) * 4096 + (b - 0x80) * 64 + (c - 0x80) }
  function Join4(a: int, b: int, c: int, d: int): int {
    (a - 0xF0) * 262144 + (b - 0x80) * 4096 + (c - 0x80) * 64 + (d - 0x80)
  }

  lemma Split2(a: int, b: int)
    requires 0xC2 <= a <= 0xDF && 0x80 <= b <= 0xBF
    ensures var cp := Join2(a, b);
            0x80 <= cp < 0x800 && a == 0xC0 + cp / 64 && b == 0x80 + cp % 64
  {
  }

  lemma Split3(a: int, b: int, c: int)
    requires 0xE0 <= a <= 0xEF && 0x80 <= b <= 0xBF && 0x80 <= c <= 0xBF
    requires (a == 0xE0 ==> b >= 0xA0) && (a == 0xED ==> b <= 0x9F)
    ensures var cp := Join3(a, b, c);
            && 0x800 <= cp < 0x10000 && IsScalar(cp)
            && a == 0xE0 + cp / 4096 && b == 0x80 + cp / 64 % 64 && c == 0x80 + cp % 64
  {
    var cp := Join3(a, b, c);
    assert cp / 64 == (a - 0xE0) * 64 + (b - 0x80);
  }

  lemma Split4(a: int, b: int, c: int, d: int)
    requires 0xF0 <= a <= 0xF4 && 0x80 <= b <= 0xBF && 0x80 <= c <= 0xBF && 0x80 <= d <= 0xBF
    requires (a == 0xF0 ==> b >= 0x90) && (a == 0xF4 ==> b <= 0x8F)
    ensures var cp := Join4(a, b, c, d);
            && 0x10000 <= cp <= 0x10FFFF
            && a == 0xF0 + cp / 262144 && b == 0x80 + cp / 4096 % 64 && c == 0x80 + cp / 64 % 64 && d == 0x80 + cp % 64
  {
    var cp := Join4(a, b, c, d);
    assert cp / 64 == (a - 0xF0) * 4096 + (b - 0x80) * 64 + (c - 0x80);
    assert cp / 4096 == (a - 0xF0) * 64 + (b - 0x80);
  }

  /** The scalar values of a byte string, None when it is not UTF-8. */
  function Decode(s: seq<Byte>): Option<seq<int>> {
    if s == [] then Some([])
    else if !StartsScalar(s) then None
    else match Decode(s[Width(s[0])..])
      case None => None
      case Some(rest) => Some([FirstScalar(s)] + rest)
  }

  predicate Valid(s: seq<Byte>) {
    Decode(s).Some?
  }

  function EncodeAll(cps: seq<int>): seq<Byte>
    requires forall i :: 0 <= i < |cps| ==> IsScalar(cps[i])
  {
    if cps == [] then [] else Encode(cps[0]) + EncodeAll(cps[1..])
  }

  lemma FirstScalarEncodes(s: seq<Byte>)
    requires StartsScalar(s)
    ensures IsScalar(FirstScalar(s)) && Encode(FirstScalar(s)) == s[..Width(s[0])]
  {
    hide Join2, Join3, Join4;
    var w := Width(s[0]);
    if w == 1 {
      assert s[..1] == [s[0]];
    } else if w == 2 {
      assert s[..2] == [s[0], s[1]];
      Split2(s[0], s[1]);
    } else if w == 3 {
      assert s[..3] == [s[0], s[1], s[2]];
      Split3(s[0], s[1], s[2]);
    } else {
      assert s[..4] == [s[0], s[1], s[2], s[3]];
      Split4(s[0], s[1], s[2], s[3]);
    }
  }

  lemma EncodeStarts(cp: int, rest: seq<Byte>)
    requires IsScalar(cp)
    ensures var s := Encode(cp) + rest;
            StartsScalar(s) && Width(s[0]) == |Encode(cp)| && FirstScalar(s) == cp
  {
    var s := Encode(cp) + rest;
    if 0x80 <= cp < 0x800 {
      assert s[0] == 0xC0 + cp / 64 && s[1] == 0x80 + cp % 64;
      assert Join2(s[0], s[1]) == cp;
    } else if 0x800 <= cp < 0x10000 {
      Encode3Starts(cp, rest);
    } else if 0x10000 <= cp {
      Encode4Starts(cp, rest);
    }
  }

  lemma Encode3Starts(cp: int, rest: seq<Byte>)
    requires IsScalar(cp) && 0x800 <= cp < 0x10000
    ensures var s := Encode(cp) + rest;
            StartsScalar(s) && Width(s[0]) == 3 && FirstScalar(s) == cp
  {
    var s := Encode(cp) + rest;
    var a, b, c := cp / 4096, cp / 64 % 64, cp % 64;
    assert cp / 64 == a * 64 + b && cp == (cp / 64) * 64 + c;
    assert s[0] == 0xE0 + a && s[1] == 0x80 + b && s[2] == 0x80 + c;
    assert a == 0 ==> b >= 0x20;
    assert a == 0xD ==> b <= 0x1F;
    assert Join3(s[0], s[1], s[2]) == cp;
  }

  lemma Encode4Starts(cp: int, rest: seq<Byte>)
    requires IsScalar(cp) && 0x10000 <= cp
    ensures var s := Encode(cp) + rest;
            StartsScalar(s) && Width(s[0]) == 4 && FirstScalar(s) == cp
  {
    var s := Encode(cp) + rest;
    var a, b, c, d := cp / 262144, cp / 4096 % 64, cp / 64 % 64, cp % 64;
    assert cp / 4096 == a * 64 + b && cp / 64 == (cp / 4096) * 64 + c && cp == (cp / 64) * 64 + d;
    assert s[0] == 0xF0 + a && s[1] == 0x80 + b && s[2] == 0x80 + c && s[3] == 0x80 + d;
    assert a == 0 ==> b >= 0x10;
    assert a == 4 ==> b <= 0xF;
    assert Join4(s[0], s[1], s[2], s[3]) == cp;
  }

  /** Decoding inverts encoding, on every string of scalar values. */
  lemma {:induction false} DecodeEncodeAll(cps: seq<int>)
    requires forall i :: 0 <= i < |cps| ==> IsScalar(cps[i])
    ensures Decode(EncodeAll(cps)) == Some(cps)
  {
    hide Encode, FirstScalar, Width, IsScalar;
    if cps != [] {
      var rest := EncodeAll(cps[1..]);
      EncodeStarts(cps[0], rest);
      DecodeEncodeAll(cps[1..]);
      assert (Encode(cps[0]) + rest)[|Encode(cps[0])|..] == rest;
      assert [cps[0]] + cps[1..] == cps;
    }
  }

  /** Encoding inverts decoding, on every valid byte string. */
  lemma {:induction false} EncodeDecode(s: seq<Byte>)
    requires Valid(s)
    ensures forall i :: 0 <= i < |Decode(s).value| ==> IsScalar(Decode(s).value[i])
    ensures EncodeAll(Decode(s).value) == s
  {
    hide Encode, FirstScalar, IsScalar, StartsScalar;
    if s != [] {
      var w := Width(s[0]);
      StartsWidth(s);
      FirstScalarEncodes(s);
      EncodeDecode(s[w..]);
      assert s == s[..w] + s[w..];
      assert Decode(s).value[1..] == Decode(s[w..]).value;
    }
  }

  lemma StartsWidth(s: seq<Byte>)
    requires StartsScalar(s)
    ensures s != [] && 0 < Width(s[0]) <= |s|
  {
  }

  lemma {:induction false} ValidConcat(a: seq<Byte>, b: seq<Byte>)
    requires Valid(a) && Valid(b)
    ensures Valid(a + b)
  {
    if a == [] {
      assert a + b == b;
    } else {
      var w := Width(a[0]);
      ValidConcat(a[w..], b);
      assert (a + b)[w..] == a[w..] + b;
    }
  }

  lemma {:induction false} AsciiValid(s: seq<Byte>)
    requires forall i :: 0 <= i < |s| ==> s[i] < 0x80
    ensures Valid(s)
  {
    if s != [] {
      AsciiValid(s[1..]);
    }
  }

  // ----- surrogate pairs

  predicate HighSurrogate(u: int) {
    0xD800 <= u <= 0xDBFF
  }

  predicate LowSurrogate(u: int) {
    0xDC00 <= u <= 0xDFFF
  }

  function FromPair(high: int, low: int): (cp: int)
    requires HighSurrogate(high) && LowSurrogate(low)
    ensures 0x10000 <= cp <= 0x10FFFF
  {
    (high - 0xD800) * 0x400 + (low - 0xDC00) + 0x10000
  }

  function HighOf(cp: int): int {
    0xD800 + (cp - 0x10000) / 0x400
  }

  function LowOf(cp: int): int {
    0xDC00 + (cp - 0x10000) % 0x400
  }

  lemma PairInverse(cp: int)
    requires 0x10000 <= cp <= 0x10FFFF
    ensures HighSurrogate(HighOf(cp)) && LowSurrogate(LowOf(cp)) && FromPair(HighOf(cp), LowOf(cp)) == cp
  {
  }
}
