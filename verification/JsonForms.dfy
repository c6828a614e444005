/**
  Every way of writing a document: each character of a string in any form the grammar gives it,
  each gap filled with any white space. Whatever is written like this, the strict reader reads back.
*/
module JsonForms {
  import opened Common
  import opened Digits
  import Decimal
  import Utf8
  import opened JsonText
  import opened JsonParse
  import opened JsonPrint
  import JsonTheorems

  // ----- characters

  /** How one scalar value is written: as it is, by its escape letter, or as escaped units in either case. */
  datatype Form = Raw | Letter | Units(upper: seq<bool>)

  datatype Char = Char(cp: int, form: Form)

  /** The escape letters of RFC 8259, section 7, and what they stand for. */
  const LETTERS: map<int, Byte> := map[
    0x22 := 34, 0x5C := 92, 0x2F := 47, 0x08 := 98, 0x0C := 102, 0x0A := 110, 0x0D := 114, 0x09 := 116]

  const LOWER: seq<Byte> := [48, 49, 50, 51, 52, 53, 54, 55, 56, 57, 97, 98, 99, 100, 101, 102]
  const UPPER: seq<Byte> := [48, 49, 50, 51, 52, 53, 54, 55, 56, 57, 65, 66, 67, 68, 69, 70]

  predicate LegalChar(ch: Char) {
    && Utf8.IsScalar(ch.cp)
    && match ch.form
       case Raw => ch.cp >= 0x20 && ch.cp != 0x22 && ch.cp != 0x5C
       case Letter => ch.cp in LETTERS
       case Units(upper) => |upper| == if ch.cp < 0x10000 then 4 else 8
  }

  function Digit(d: int, upper: bool): Byte
    requires 0 <= d < 16
  {
    if upper then UPPER[d] else LOWER[d]
  }

  function Unit(u: int, upper: seq<bool>): seq<Byte>
    requires 0 <= u < 0x10000 && |upper| == 4
  {
    [92, 117, Digit(u / 4096, upper[0]), Digit(u / 256 % 16, upper[1]), Digit(u / 16 % 16, upper[2]),
     Digit(u % 16, upper[3])]
  }

  function WriteChar(ch: Char): seq<Byte>
    requires LegalChar(ch)
  {
    match ch.form
    case Raw => Utf8.Encode(ch.cp)
    case Letter => [92, LETTERS[ch.cp]]
    case Units(upper) =>
      if ch.cp < 0x10000 then Unit(ch.cp, upper)
      else
        Unit(0xD800 + (ch.cp - 0x10000) / 0x400, upper[..4]) + Unit(0xDC00 + (ch.cp - 0x10000) % 0x400, upper[4..])
  }

  predicate LegalChars(chars: seq<Char>) {
    forall i :: 0 <= i < |chars| ==> LegalChar(chars[i])
  }

  function WriteChars(chars: seq<Char>): seq<Byte>
    requires LegalChars(chars)
  {
    if chars == [] then [] else WriteChar(chars[0]) + WriteChars(chars[1..])
  }

  /** The text some characters stand for. */
  function TextOf(chars: seq<Char>): seq<Byte>
    requires LegalChars(chars)
  {
    if chars == [] then [] else Utf8.Encode(chars[0].cp) + TextOf(chars[1..])
  }

  lemma DigitReads(d: int, upper: bool)
    requires 0 <= d < 16
    ensures HexDigit(Digit(d, upper)) == Some(d) && Digit(d, upper) < 0x80
  {
  }

  lemma UnitReadsAny(raw: seq<Byte>, lo: nat, u: int, upper: seq<bool>, hi: nat)
    requires 0 <= u < 0x10000 && |upper| == 4 && lo + 6 <= hi <= |raw| && At(raw, lo, Unit(u, upper))
    ensures raw[lo] == BACKSLASH && raw[lo + 1] == LETTER_U && Hex4(raw, lo + 2, hi) == Some(u)
  {
    UnitAt(raw, lo, u, upper);
    DigitReads(u / 4096, upper[0]);
    DigitReads(u / 256 % 16, upper[1]);
    DigitReads(u / 16 % 16, upper[2]);
    DigitReads(u % 16, upper[3]);
    hide Digit, HexDigit, Unit, At, Hex4;
    HexFrom(raw, lo + 2, hi, u / 4096, u / 256 % 16, u / 16 % 16, u % 16);
    HexDigits(u);
  }

  lemma HexFrom(raw: seq<Byte>, i: nat, hi: nat, a: int, b: int, c: int, d: int)
    requires i + 4 <= hi <= |raw|
    requires HexDigit(raw[i]) == Some(a) && HexDigit(raw[i + 1]) == Some(b)
    requires HexDigit(raw[i + 2]) == Some(c) && HexDigit(raw[i + 3]) == Some(d)
    ensures Hex4(raw, i, hi) == Some(((a * 16 + b) * 16 + c) * 16 + d)
  {
    hide HexDigit;
  }

  lemma UnitAt(raw: seq<Byte>, lo: nat, u: int, upper: seq<bool>)
    requires 0 <= u < 0x10000 && |upper| == 4 && At(raw, lo, Unit(u, upper))
    ensures |Unit(u, upper)| == 6 && lo + 6 <= |raw|
    ensures raw[lo] == 92 && raw[lo + 1] == 117
    ensures raw[lo + 2] == Digit(u / 4096, upper[0]) && raw[lo + 3] == Digit(u / 256 % 16, upper[1])
    ensures raw[lo + 4] == Digit(u / 16 % 16, upper[2]) && raw[lo + 5] == Digit(u % 16, upper[3])
  {
    hide Digit;
    var s := Unit(u, upper);
    assert forall j :: 0 <= j < 6 ==> raw[lo + j] == raw[lo..lo + 6][j] == s[j];
  }

  /** Bytes that need no escape denote themselves. */
  lemma {:induction false} PlainRun(raw: seq<Byte>, lo: nat, hi: nat)
    requires lo <= hi <= |raw|
    requires forall j :: lo <= j < hi ==> raw[j] >= 0x20 && raw[j] != QUOTE && raw[j] != BACKSLASH
    ensures Unescape(raw, lo, hi) == Some(raw[lo..hi])
    decreases hi - lo
  {
    if lo < hi {
      PlainRun(raw, lo + 1, hi);
      assert raw[lo..hi] == [raw[lo]] + raw[lo + 1..hi];
    }
  }

  lemma RawIsPlain(cp: int)
    requires LegalChar(Char(cp, Raw))
    ensures forall b :: b in Utf8.Encode(cp) ==> b >= 0x20 && b != QUOTE && b != BACKSLASH
  {
  }

  lemma RawDenotes(raw: seq<Byte>, lo: nat, cp: int)
    requires LegalChar(Char(cp, Raw)) && At(raw, lo, Utf8.Encode(cp))
    ensures Unescape(raw, lo, lo + |Utf8.Encode(cp)|) == Some(Utf8.Encode(cp))
  {
    var s := Utf8.Encode(cp);
    RawIsPlain(cp);
    hide Utf8.Encode, LegalChar, Unescape;
    assert forall j :: lo <= j < lo + |s| ==> raw[j] == s[j - lo];
    PlainRun(raw, lo, lo + |s|);
  }

  lemma LetterReads(cp: int)
    requires cp in LETTERS
    ensures SimpleEscape(LETTERS[cp]) == Some(cp) && Utf8.IsScalar(cp) && Utf8.Encode(cp) == [cp]
  {
  }

  lemma LetterDenotes(raw: seq<Byte>, lo: nat, cp: int)
    requires cp in LETTERS && Utf8.IsScalar(cp) && At(raw, lo, [92, LETTERS[cp]])
    ensures Unescape(raw, lo, lo + 2) == Some(Utf8.Encode(cp))
  {
    LetterReads(cp);
    AtHalves(raw, lo, [92], [LETTERS[cp]]);
    AtByte(raw, lo, 92);
    AtByte(raw, lo + 1, LETTERS[cp]);
    UnescapeEmpty(raw, lo + 2);
    assert [cp] + [] == [cp];
  }

  lemma UnitsDenote(raw: seq<Byte>, lo: nat, cp: int, upper: seq<bool>)
    requires Utf8.IsScalar(cp) && cp < 0x10000 && |upper| == 4 && At(raw, lo, Unit(cp, upper))
    ensures Unescape(raw, lo, lo + 6) == Some(Utf8.Encode(cp))
  {
    UnitReadsAny(raw, lo, cp, upper, lo + 6);
    hide Unit, Hex4, Utf8.Encode;
    UnescapeEmpty(raw, lo + 6);
    assert EscapePiece(raw, lo, lo + 6) == Some(Piece(Utf8.Encode(cp), 6));
    assert Utf8.Encode(cp) + [] == Utf8.Encode(cp);
  }

  lemma PairDenotesAny(raw: seq<Byte>, lo: nat, cp: int, upper: seq<bool>)
    requires 0x10000 <= cp <= 0x10FFFF && |upper| == 8 && At(raw, lo, WriteChar(Char(cp, Units(upper))))
    ensures Unescape(raw, lo, lo + 12) == Some(Utf8.Encode(cp))
  {
    hide Unit, At, Hex4, Utf8.Encode, Utf8.FromPair, EscapePiece;
    var high, low := 0xD800 + (cp - 0x10000) / 0x400, 0xDC00 + (cp - 0x10000) % 0x400;
    PairStands(cp);
    PairReads(raw, lo, high, low, upper[..4], upper[4..]);
    UnescapeEmpty(raw, lo + 12);
    assert Utf8.Encode(cp) + [] == Utf8.Encode(cp);
  }

  lemma PairReads(raw: seq<Byte>, lo: nat, high: int, low: int, first: seq<bool>, second: seq<bool>)
    requires Utf8.HighSurrogate(high) && Utf8.LowSurrogate(low) && |first| == |second| == 4
    requires At(raw, lo, Unit(high, first) + Unit(low, second))
    ensures lo + 12 <= |raw| && raw[lo] == BACKSLASH
    ensures EscapePiece(raw, lo, lo + 12) == Some(Piece(Utf8.Encode(Utf8.FromPair(high, low)), 12))
  {
    hide Unit, Hex4, Utf8.Encode, Utf8.FromPair;
    UnitWidth(high, first);
    UnitWidth(low, second);
    AtHalves(raw, lo, Unit(high, first), Unit(low, second));
    UnitReadsAny(raw, lo, high, first, lo + 12);
    UnitReadsAny(raw, lo + 6, low, second, lo + 12);
  }

  lemma UnitWidth(u: int, upper: seq<bool>)
    requires 0 <= u < 0x10000 && |upper| == 4
    ensures |Unit(u, upper)| == 6
  {
  }

  lemma PairStands(cp: int)
    requires 0x10000 <= cp <= 0x10FFFF
    ensures var high, low := 0xD800 + (cp - 0x10000) / 0x400, 0xDC00 + (cp - 0x10000) % 0x400;
            Utf8.HighSurrogate(high) && Utf8.LowSurrogate(low) && Utf8.FromPair(high, low) == cp
  {
  }

  /** A character in any legal form denotes its scalar value. */
  lemma CharDenotes(raw: seq<Byte>, lo: nat, ch: Char)
    requires LegalChar(ch) && At(raw, lo, WriteChar(ch))
    ensures Unescape(raw, lo, lo + |WriteChar(ch)|) == Some(Utf8.Encode(ch.cp))
  {
    hide Utf8.Encode, Unescape, At, Unit;
    match ch.form
    case Raw => RawDenotes(raw, lo, ch.cp);
    case Letter => LetterDenotes(raw, lo, ch.cp);
    case Units(upper) =>
      UnitLength(ch.cp, upper);
      if ch.cp < 0x10000 {
        UnitsDenote(raw, lo, ch.cp, upper);
      } else {
        PairDenotesAny(raw, lo, ch.cp, upper);
      }
  }

  lemma UnitLength(cp: int, upper: seq<bool>)
    requires LegalChar(Char(cp, Units(upper)))
    ensures |WriteChar(Char(cp, Units(upper)))| == if cp < 0x10000 then 6 else 12
  {
  }

  lemma {:induction false} CharsDenote(raw: seq<Byte>, lo: nat, chars: seq<Char>)
    requires LegalChars(chars) && At(raw, lo, WriteChars(chars))
    ensures Unescape(raw, lo, lo + |WriteChars(chars)|) == Some(TextOf(chars))
    decreases |chars|
  {
    hide Unescape, WriteChar, Utf8.Encode;
    if chars == [] {
      UnescapeEmpty(raw, lo);
    } else {
      var p, rest := WriteChar(chars[0]), WriteChars(chars[1..]);
      AtHalves(raw, lo, p, rest);
      CharDenotes(raw, lo, chars[0]);
      CharsDenote(raw, lo + |p|, chars[1..]);
      UnescapeConcat(raw, lo, lo + |p|, lo + |p| + |rest|);
    }
  }

  // ----- escapes and white space, exactly

  /** After a backslash the eight letters give their byte, u begins a unit, and any other byte is refused. */
  lemma EscapesExact(raw: seq<Byte>, pos: nat)
    requires pos + 1 < |raw| && raw[pos] == 92
    ensures raw[pos + 1] in LETTERS.Values ==>
              exists cp :: cp in LETTERS && LETTERS[cp] == raw[pos + 1]
                           && EscapePiece(raw, pos, |raw|) == Some(Piece([cp], 2))
    ensures raw[pos + 1] !in LETTERS.Values && raw[pos + 1] != 117 ==> ReadBody(raw, pos).None?
    ensures raw[pos + 1] == 117 ==> raw[pos + 1] !in LETTERS.Values
  {
    var e := raw[pos + 1];
    if e in LETTERS.Values {
      var cp :| cp in LETTERS && LETTERS[cp] == e;
      LetterReads(cp);
    } else {
      LettersAre();
    }
  }

  lemma LettersAre()
    ensures LETTERS.Values == {34, 92, 47, 98, 102, 110, 114, 116}
  {
    assert LETTERS[0x22] == 34 && LETTERS[0x5C] == 92 && LETTERS[0x2F] == 47 && LETTERS[0x08] == 98;
    assert LETTERS[0x0C] == 102 && LETTERS[0x0A] == 110 && LETTERS[0x0D] == 114 && LETTERS[0x09] == 116;
  }

  /** White space is a space, a tab, a line feed or a carriage return. */
  predicate Blank(gap: seq<Byte>) {
    forall i :: 0 <= i < |gap| ==> gap[i] in {0x20, 0x09, 0x0A, 0x0D}
  }

  /** Skipping goes over exactly the longest blank stretch. */
  lemma SkipsBlank(raw: seq<Byte>, pos: nat)
    requires pos <= |raw|
    ensures pos <= SkipSpace(raw, pos) <= |raw| && Blank(raw[pos..SkipSpace(raw, pos)])
    ensures SkipSpace(raw, pos) < |raw| ==> raw[SkipSpace(raw, pos)] !in {0x20, 0x09, 0x0A, 0x0D}
  {
  }

  lemma BlankIsSpace(raw: seq<Byte>, lo: nat, gap: seq<Byte>)
    requires At(raw, lo, gap) && Blank(gap)
    ensures AllSpace(raw, lo, lo + |gap|)
  {
    forall i | lo <= i < lo + |gap|
      ensures IsSpace(raw[i])
    {
      assert raw[i] == raw[lo..lo + |gap|][i - lo] == gap[i - lo];
    }
  }

  // ----- numbers

  /** The exponent of a numeral: which letter, which sign if any, its digits. */
  datatype Power = Power(upper: bool, sign: Option<bool>, digits: seq<Byte>)

  /** A number as it is written; no fraction is the empty string. */
  datatype Numeral = Numeral(negative: bool, whole: seq<Byte>, frac: seq<Byte>, power: Option<Power>)

  predicate DecimalDigits(s: seq<Byte>) {
    forall i :: 0 <= i < |s| ==> 0x30 <= s[i] <= 0x39
  }

  function WriteNumeral(x: Numeral): seq<Byte> {
    (if x.negative then [0x2D] else []) + x.whole + (if x.frac == [] then [] else [0x2E] + x.frac)
    + match x.power
      case None => []
      case Some(p) =>
        [if p.upper then 0x45 else 0x65]
        + (match p.sign
           case None => []
           case Some(plus) => [if plus then 0x2B else 0x2D])
        + p.digits
  }

  /** The form of a numeral, the size limits, and no negative zero. */
  predicate LegalNumeral(x: Numeral) {
    && DecimalDigits(x.whole) && x.whole != [] && (x.whole[0] == 0x30 ==> |x.whole| == 1)
    && DecimalDigits(x.frac) && |WriteNumeral(x)| <= 1024
    && (x.power.Some? ==>
          && DecimalDigits(x.power.value.digits) && x.power.value.digits != []
          && AllDigits(x.power.value.digits) && Nat(x.power.value.digits) <= 10_000)
    && (x.negative ==> exists i :: 0 <= i < |x.whole + x.frac| && (x.whole + x.frac)[i] != 0x30)
  }

  /** The number a numeral stands for: its digits as a whole number, moved by the fraction and the exponent. */
  function NumeralValue(x: Numeral): real
    requires LegalNumeral(x)
  {
    var digits := x.whole + x.frac;
    var exponent: int := match x.power
                         case None => 0
                         case Some(p) => if p.sign == Some(false) then 0 - Nat(p.digits) else Nat(p.digits);
    assert AllDigits(digits);
    var size := Nat(digits) as real * Scale(exponent - |x.frac|);
    if x.negative then -size else size
  }

  function ShapeOf(x: Numeral): Decimal.Shape {
    Decimal.Shape(x.negative, x.whole, x.frac,
                  match x.power
                  case None => None
                  case Some(p) =>
                    Some(Decimal.Exponent(if p.upper then 0x45 else 0x65,
                                          match p.sign
                                          case None => []
                                          case Some(plus) => [if plus then 0x2B else 0x2D],
                                          p.digits)))
  }

  lemma ShapeSpells(x: Numeral)
    requires LegalNumeral(x)
    ensures ShapeOf(x).Valid() && ShapeOf(x).Render() == WriteNumeral(x)
  {
  }

  lemma NotZero(x: Numeral)
    requires LegalNumeral(x) && x.negative
    ensures !ShapeOf(x).IsZero()
  {
    hide WriteNumeral, Nat;
    ShapeSpells(x);
    NatZero(x.whole);
    NatZero(x.frac);
    var i :| 0 <= i < |x.whole + x.frac| && (x.whole + x.frac)[i] != 0x30;
    if i < |x.whole| {
      assert x.whole[i] != ZERO;
    } else {
      assert x.frac[i - |x.whole|] != ZERO;
    }
  }

  /** Every legal numeral is accepted, and read as parts of exactly its number. */
  lemma NumeralReads(x: Numeral)
    requires LegalNumeral(x)
    ensures Decimal.Accepted(WriteNumeral(x))
    ensures var r := Decimal.ReadParts(WriteNumeral(x));
            r.Some? && r.value.Valid() && r.value.Value() == NumeralValue(x)
  {
    var s := ShapeOf(x);
    ShapeSpells(x);
    if x.negative {
      NotZero(x);
    }
    assert Decimal.Spells(s, WriteNumeral(x)) && s.Allowed();
    Decimal.ReadPartsExact(WriteNumeral(x));
    PartsOfNumeral(x);
  }

  lemma NumeralAccepted(x: Numeral)
    requires LegalNumeral(x)
    ensures Decimal.Accepted(WriteNumeral(x))
  {
    NumeralReads(x);
  }

  function NumeralOf(s: Decimal.Shape): Numeral {
    Numeral(s.negative, s.integer, s.frac,
            match s.exp
            case None => None
            case Some(x) =>
              Some(Power(x.mark == 0x45, if x.sign == [] then None else Some(x.sign == [0x2B]), x.digits)))
  }

  lemma NumeralSpells(s: Decimal.Shape)
    requires s.Allowed()
    ensures LegalNumeral(NumeralOf(s)) && WriteNumeral(NumeralOf(s)) == s.Render()
  {
    var x := NumeralOf(s);
    assert WriteNumeral(x) == s.Render();
    if s.negative {
      SomeDigit(s);
    }
  }

  /** A number that is not zero has a digit that is not. */
  lemma SomeDigit(s: Decimal.Shape)
    requires s.Valid() && !s.IsZero()
    ensures exists i :: 0 <= i < |s.integer + s.frac| && (s.integer + s.frac)[i] != 0x30
  {
    NatZero(s.integer);
    NatZero(s.frac);
    if Nat(s.integer) != 0 {
      var i :| 0 <= i < |s.integer| && s.integer[i] != ZERO;
      assert (s.integer + s.frac)[i] != 0x30;
    } else {
      var i :| 0 <= i < |s.frac| && s.frac[i] != ZERO;
      assert (s.integer + s.frac)[|s.integer| + i] != 0x30;
    }
  }

  /** Exactly the legal numerals are accepted as numbers. */
  lemma AcceptedExactlyWhen(token: seq<Byte>)
    ensures Decimal.Accepted(token) <==> exists x :: LegalNumeral(x) && WriteNumeral(x) == token
  {
    hide LegalNumeral, WriteNumeral;
    if Decimal.Accepted(token) {
      var s :| Decimal.Spells(s, token) && s.Allowed();
      NumeralSpells(s);
    }
    forall x | LegalNumeral(x) && WriteNumeral(x) == token
      ensures Decimal.Accepted(token)
    {
      NumeralAccepted(x);
    }
  }

  lemma PartsOfNumeral(x: Numeral)
    requires LegalNumeral(x) && ShapeOf(x).Valid()
    ensures Decimal.PartsOf(ShapeOf(x)).Value() == NumeralValue(x)
  {
    hide Scale, Nat, WriteNumeral, TrimLeft;
    Decimal.PartsValid(ShapeOf(x));
    TrimLeftNat(x.whole + x.frac);
  }

  // ----- documents with their layout

  datatype Doc =
    | NullDoc
    | BoolDoc(b: bool)
    | NumberDoc(numeral: Numeral)
    | StrDoc(chars: seq<Char>)
    | ArrayDoc(gap: seq<Byte>, items: seq<Item>)
    | ObjectDoc(gap: seq<Byte>, pairs: seq<Pair>)

  /** A value with the white space before and after it. */
  datatype Item = Item(before: seq<Byte>, doc: Doc, after: seq<Byte>)

  /** A member: white space, key, white space, colon, item. */
  datatype Pair = Pair(before: seq<Byte>, key: seq<Char>, middle: seq<Byte>, item: Item)

  /** Legal numerals, legal characters, blank gaps; the gap of a container counts when it is empty. */
  ghost predicate Legal(d: Doc)
    decreases d, 0
  {
    match d
    case NumberDoc(x) => LegalNumeral(x)
    case StrDoc(chars) => LegalChars(chars)
    case ArrayDoc(gap, items) => Blank(gap) && ItemsLegal(items)
    case ObjectDoc(gap, pairs) => Blank(gap) && PairsLegal(pairs)
    case _ => true
  }

  ghost predicate ItemLegal(it: Item)
    decreases it, 1
  {
    Blank(it.before) && Legal(it.doc) && Blank(it.after)
  }

  ghost predicate ItemsLegal(items: seq<Item>)
    decreases items, 0
  {
    items == [] || (ItemLegal(items[0]) && ItemsLegal(items[1..]))
  }

  ghost predicate PairLegal(p: Pair)
    decreases p, 2
  {
    Blank(p.before) && LegalChars(p.key) && Blank(p.middle) && ItemLegal(p.item)
  }

  ghost predicate PairsLegal(pairs: seq<Pair>)
    decreases pairs, 0
  {
    pairs == [] || (PairLegal(pairs[0]) && PairsLegal(pairs[1..]))
  }

  ghost function ValueOf(d: Doc): Value
    requires Legal(d)
    decreases d, 0
  {
    match d
    case NullDoc => Null
    case BoolDoc(b) => Bool(b)
    case NumberDoc(x) => Number(WriteNumeral(x))
    case StrDoc(chars) => Str(TextOf(chars))
    case ArrayDoc(_, items) => Array(ValuesOf(items))
    case ObjectDoc(_, pairs) => Object(MembersOf(pairs))
  }

  ghost function ItemValue(it: Item): Value
    requires ItemLegal(it)
    decreases it, 1
  {
    ValueOf(it.doc)
  }

  ghost function ValuesOf(items: seq<Item>): (values: seq<Value>)
    requires ItemsLegal(items)
    ensures |values| == |items|
    decreases items, 0
  {
    if items == [] then [] else [ItemValue(items[0])] + ValuesOf(items[1..])
  }

  ghost function MemberOf(p: Pair): Member
    requires PairLegal(p)
    decreases p, 2
  {
    Member(TextOf(p.key), ItemValue(p.item))
  }

  ghost function MembersOf(pairs: seq<Pair>): (members: seq<Member>)
    requires PairsLegal(pairs)
    ensures |members| == |pairs|
    decreases pairs, 0
  {
    if pairs == [] then [] else [MemberOf(pairs[0])] + MembersOf(pairs[1..])
  }

  function WriteString(chars: seq<Char>): seq<Byte>
    requires LegalChars(chars)
  {
    [0x22] + WriteChars(chars) + [0x22]
  }

  ghost function Write(d: Doc): seq<Byte>
    requires Legal(d)
    decreases d, 0
  {
    match d
    case NullDoc => [0x6E, 0x75, 0x6C, 0x6C]
    case BoolDoc(b) => if b then [0x74, 0x72, 0x75, 0x65] else [0x66, 0x61, 0x6C, 0x73, 0x65]
    case NumberDoc(x) => WriteNumeral(x)
    case StrDoc(chars) => WriteString(chars)
    case ArrayDoc(gap, items) => [0x5B] + (if items == [] then gap else WriteItems(items)) + [0x5D]
    case ObjectDoc(gap, pairs) => [0x7B] + (if pairs == [] then gap else WritePairs(pairs)) + [0x7D]
  }

  ghost function WriteItem(it: Item): seq<Byte>
    requires ItemLegal(it)
    decreases it, 1
  {
    it.before + (Write(it.doc) + it.after)
  }

  ghost function WriteItems(items: seq<Item>): seq<Byte>
    requires ItemsLegal(items)
    decreases items, 0
  {
    if items == [] then []
    else if |items| == 1 then WriteItem(items[0])
    else WriteItem(items[0]) + ([0x2C] + WriteItems(items[1..]))
  }

  ghost function WritePair(p: Pair): seq<Byte>
    requires PairLegal(p)
    decreases p, 2
  {
    p.before + (WriteString(p.key) + (p.middle + ([0x3A] + WriteItem(p.item))))
  }

  ghost function WritePairs(pairs: seq<Pair>): seq<Byte>
    requires PairsLegal(pairs)
    decreases pairs, 0
  {
    if pairs == [] then []
    else if |pairs| == 1 then WritePair(pairs[0])
    else WritePair(pairs[0]) + ([0x2C] + WritePairs(pairs[1..]))
  }

  // ----- what is written is a text

  lemma StringIsString(raw: seq<Byte>, lo: nat, chars: seq<Char>)
    requires LegalChars(chars) && At(raw, lo, WriteString(chars))
    ensures |WriteString(chars)| >= 2 && IsString(raw, lo, lo + |WriteString(chars)|, TextOf(chars))
  {
    hide Unescape, WriteChars;
    AtBracketed(raw, lo, QUOTE, WriteChars(chars), QUOTE);
    CharsDenote(raw, lo + 1, chars);
  }

  lemma {:induction false} DocIsText(raw: seq<Byte>, lo: nat, d: Doc)
    requires Legal(d) && At(raw, lo, Write(d))
    ensures IsText(raw, lo, lo + |Write(d)|, ValueOf(d))
    decreases d, 0
  {
    hide WriteString, WriteItems, WritePairs, IsString, IsElements, IsMembers, Blank, AllSpace, WriteNumeral,
         LegalNumeral, Decimal.Accepted;
    match d
    case NullDoc =>
    case BoolDoc(_) =>
    case NumberDoc(x) => NumeralAccepted(x);
    case StrDoc(chars) => StringIsString(raw, lo, chars);
    case ArrayDoc(gap, items) =>
      AtBracketed(raw, lo, LBRACKET, if items == [] then gap else WriteItems(items), RBRACKET);
      if items == [] {
        BlankIsSpace(raw, lo + 1, gap);
      } else {
        ItemsAreIn(raw, lo + 1, items);
      }
    case ObjectDoc(gap, pairs) =>
      AtBracketed(raw, lo, LBRACE, if pairs == [] then gap else WritePairs(pairs), RBRACE);
      if pairs == [] {
        BlankIsSpace(raw, lo + 1, gap);
      } else {
        PairsAreIn(raw, lo + 1, pairs);
      }
  }

  lemma {:induction false} ItemIsElement(raw: seq<Byte>, lo: nat, it: Item)
    requires ItemLegal(it) && At(raw, lo, WriteItem(it))
    ensures IsElement(raw, lo, lo + |WriteItem(it)|, ItemValue(it))
    decreases it, 1
  {
    hide IsText, Write, Legal, Blank, AllSpace, ValueOf;
    var a, w := lo + |it.before|, Write(it.doc);
    AtHalves(raw, lo, it.before, w + it.after);
    AtHalves(raw, a, w, it.after);
    BlankIsSpace(raw, lo, it.before);
    DocIsText(raw, a, it.doc);
    BlankIsSpace(raw, a + |w|, it.after);
  }

  lemma {:induction false} ItemsAreIn(raw: seq<Byte>, lo: nat, items: seq<Item>)
    requires items != [] && ItemsLegal(items) && At(raw, lo, WriteItems(items))
    ensures IsElements(raw, lo, lo + |WriteItems(items)|, ValuesOf(items))
    decreases items, 0
  {
    hide IsElement, IsElements, WriteItem, ItemLegal, Legal, ItemValue;
    ItemsAre(items);
    var p := WriteItem(items[0]);
    if |items| == 1 {
      ItemIsElement(raw, lo, items[0]);
      ElementsCons(raw, lo, lo + |p|, lo + |p|, ValuesOf(items));
    } else {
      var rest := WriteItems(items[1..]);
      AtHalves(raw, lo, p, [COMMA] + rest);
      AtHalves(raw, lo + |p|, [COMMA], rest);
      AtByte(raw, lo + |p|, COMMA);
      ItemIsElement(raw, lo, items[0]);
      ItemsAreIn(raw, lo + |p| + 1, items[1..]);
      ElementsCons(raw, lo, lo + |p|, lo + |p| + 1 + |rest|, ValuesOf(items));
    }
  }

  lemma ItemsAre(items: seq<Item>)
    requires items != [] && ItemsLegal(items)
    ensures ItemLegal(items[0]) && ItemsLegal(items[1..])
    ensures ValuesOf(items)[0] == ItemValue(items[0]) && ValuesOf(items)[1..] == ValuesOf(items[1..])
  {
    hide ItemLegal, ItemValue;
  }

  lemma {:induction false} PairIsMember(raw: seq<Byte>, lo: nat, p: Pair)
    requires PairLegal(p) && At(raw, lo, WritePair(p))
    ensures IsMember(raw, lo, lo + |WritePair(p)|, MemberOf(p))
    decreases p, 3
  {
    hide At, IsElement, IsString, WriteString, WriteItem, ItemLegal, Blank, AllSpace, ItemValue, LegalChars, TextOf;
    var q, w := WriteString(p.key), WriteItem(p.item);
    var a, b := lo + |p.before|, lo + |p.before| + |q|;
    var c := b + |p.middle|;
    AtMember(raw, lo, p.before, q, p.middle, w);
    BlankIsSpace(raw, lo, p.before);
    StringIsString(raw, a, p.key);
    BlankIsSpace(raw, b, p.middle);
    ItemIsElement(raw, c + 1, p.item);
  }

  lemma AtMember(raw: seq<Byte>, lo: nat, before: seq<Byte>, key: seq<Byte>, middle: seq<Byte>, item: seq<Byte>)
    requires At(raw, lo, before + (key + (middle + ([COLON] + item))))
    ensures At(raw, lo, before) && At(raw, lo + |before|, key) && At(raw, lo + |before| + |key|, middle)
    ensures var c := lo + |before| + |key| + |middle|;
            c + 1 + |item| <= |raw| && raw[c] == COLON && At(raw, c + 1, item)
  {
    hide At;
    AtHalves(raw, lo, before, key + (middle + ([COLON] + item)));
    AtHalves(raw, lo + |before|, key, middle + ([COLON] + item));
    AtHalves(raw, lo + |before| + |key|, middle, [COLON] + item);
    var c := lo + |before| + |key| + |middle|;
    AtHalves(raw, c, [COLON], item);
    AtByte(raw, c, COLON);
    AtFits(raw, c + 1, item);
  }

  lemma AtFits(raw: seq<Byte>, lo: nat, s: seq<Byte>)
    requires At(raw, lo, s)
    ensures lo + |s| <= |raw|
  {
  }

  lemma {:induction false} PairsAreIn(raw: seq<Byte>, lo: nat, pairs: seq<Pair>)
    requires pairs != [] && PairsLegal(pairs) && At(raw, lo, WritePairs(pairs))
    ensures IsMembers(raw, lo, lo + |WritePairs(pairs)|, MembersOf(pairs))
    decreases pairs, 0
  {
    hide IsMember, IsMembers, WritePair, PairLegal, Legal, MemberOf;
    PairsAre(pairs);
    var p := WritePair(pairs[0]);
    if |pairs| == 1 {
      PairIsMember(raw, lo, pairs[0]);
      MembersCons(raw, lo, lo + |p|, lo + |p|, MembersOf(pairs));
    } else {
      var rest := WritePairs(pairs[1..]);
      AtHalves(raw, lo, p, [COMMA] + rest);
      AtHalves(raw, lo + |p|, [COMMA], rest);
      AtByte(raw, lo + |p|, COMMA);
      PairIsMember(raw, lo, pairs[0]);
      PairsAreIn(raw, lo + |p| + 1, pairs[1..]);
      MembersCons(raw, lo, lo + |p|, lo + |p| + 1 + |rest|, MembersOf(pairs));
    }
  }

  lemma PairsAre(pairs: seq<Pair>)
    requires pairs != [] && PairsLegal(pairs)
    ensures PairLegal(pairs[0]) && PairsLegal(pairs[1..])
    ensures MembersOf(pairs)[0] == MemberOf(pairs[0]) && MembersOf(pairs)[1..] == MembersOf(pairs[1..])
  {
    hide PairLegal, MemberOf;
  }

  // ----- what is written is UTF-8

  lemma CharValid(ch: Char)
    requires LegalChar(ch)
    ensures Utf8.Valid(WriteChar(ch))
  {
    hide Utf8.Valid, Utf8.Encode, Unit;
    match ch.form
    case Raw => EncodeValid(ch.cp);
    case Letter =>
      LettersAre();
      Utf8.AsciiValid(WriteChar(ch));
    case Units(upper) =>
      if ch.cp < 0x10000 {
        UnitAscii(ch.cp, upper);
        Utf8.AsciiValid(Unit(ch.cp, upper));
      } else {
        var high, low := 0xD800 + (ch.cp - 0x10000) / 0x400, 0xDC00 + (ch.cp - 0x10000) % 0x400;
        UnitAscii(high, upper[..4]);
        UnitAscii(low, upper[4..]);
        Utf8.AsciiValid(Unit(high, upper[..4]));
        Utf8.AsciiValid(Unit(low, upper[4..]));
        Utf8.ValidConcat(Unit(high, upper[..4]), Unit(low, upper[4..]));
      }
  }

  lemma EncodeValid(cp: int)
    requires Utf8.IsScalar(cp)
    ensures Utf8.Valid(Utf8.Encode(cp))
  {
    hide Utf8.Encode;
    Utf8.DecodeEncodeAll([cp]);
    assert [cp][1..] == [];
    assert Utf8.EncodeAll([]) == [];
    assert Utf8.EncodeAll([cp]) == Utf8.Encode(cp) + [] == Utf8.Encode(cp);
  }

  lemma UnitAscii(u: int, upper: seq<bool>)
    requires 0 <= u < 0x10000 && |upper| == 4
    ensures forall i :: 0 <= i < |Unit(u, upper)| ==> Unit(u, upper)[i] < 0x80
  {
    DigitReads(u / 4096, upper[0]);
    DigitReads(u / 256 % 16, upper[1]);
    DigitReads(u / 16 % 16, upper[2]);
    DigitReads(u % 16, upper[3]);
    hide Digit;
  }

  lemma {:induction false} CharsValid(chars: seq<Char>)
    requires LegalChars(chars)
    ensures Utf8.Valid(WriteChars(chars))
  {
    hide WriteChar, LegalChar, Utf8.Valid;
    Utf8.AsciiValid([]);
    if chars != [] {
      CharValid(chars[0]);
      CharsValid(chars[1..]);
      Utf8.ValidConcat(WriteChar(chars[0]), WriteChars(chars[1..]));
    }
  }

  lemma BlankValid(gap: seq<Byte>)
    requires Blank(gap)
    ensures Utf8.Valid(gap)
  {
    Utf8.AsciiValid(gap);
  }

  lemma StringValid(chars: seq<Char>)
    requires LegalChars(chars)
    ensures Utf8.Valid(WriteString(chars))
  {
    hide WriteChars;
    CharsValid(chars);
    Surrounded(QUOTE, WriteChars(chars), QUOTE);
  }

  lemma {:induction false} DocValid(d: Doc)
    requires Legal(d)
    ensures Utf8.Valid(Write(d))
    decreases d, 0
  {
    hide Utf8.Valid, WriteString, WriteItems, WritePairs, WriteNumeral, LegalNumeral;
    match d
    case NullDoc => Utf8.AsciiValid(NULL_TEXT);
    case BoolDoc(b) =>
      Utf8.AsciiValid(TRUE_TEXT);
      Utf8.AsciiValid(FALSE_TEXT);
    case NumberDoc(x) =>
      NumeralAccepted(x);
      JsonTheorems.NumberBytes(WriteNumeral(x));
      Utf8.AsciiValid(WriteNumeral(x));
    case StrDoc(chars) => StringValid(chars);
    case ArrayDoc(gap, items) =>
      BlankValid(gap);
      ItemsValid(items);
      Surrounded(LBRACKET, if items == [] then gap else WriteItems(items), RBRACKET);
    case ObjectDoc(gap, pairs) =>
      BlankValid(gap);
      PairsValid(pairs);
      Surrounded(LBRACE, if pairs == [] then gap else WritePairs(pairs), RBRACE);
  }

  lemma {:induction false} ItemValid(it: Item)
    requires ItemLegal(it)
    ensures Utf8.Valid(WriteItem(it))
    decreases it, 1
  {
    hide Utf8.Valid, Write, Blank;
    BlankValid(it.before);
    DocValid(it.doc);
    BlankValid(it.after);
    Utf8.ValidConcat(Write(it.doc), it.after);
    Utf8.ValidConcat(it.before, Write(it.doc) + it.after);
  }

  lemma {:induction false} ItemsValid(items: seq<Item>)
    requires ItemsLegal(items)
    ensures Utf8.Valid(WriteItems(items))
    decreases items, 0
  {
    hide Utf8.Valid, WriteItem, ItemLegal;
    Utf8.AsciiValid([]);
    if items != [] {
      ItemValid(items[0]);
      if |items| > 1 {
        ItemsValid(items[1..]);
        Joined(WriteItem(items[0]), COMMA, WriteItems(items[1..]));
      }
    }
  }

  lemma {:induction false} PairValid(p: Pair)
    requires PairLegal(p)
    ensures Utf8.Valid(WritePair(p))
    decreases p, 2
  {
    hide Utf8.Valid, WriteItem, WriteString, Blank, ItemLegal;
    BlankValid(p.before);
    StringValid(p.key);
    BlankValid(p.middle);
    ItemValid(p.item);
    Joined(p.middle, COLON, WriteItem(p.item));
    Utf8.ValidConcat(WriteString(p.key), p.middle + ([COLON] + WriteItem(p.item)));
    Utf8.ValidConcat(p.before, WriteString(p.key) + (p.middle + ([COLON] + WriteItem(p.item))));
  }

  lemma {:induction false} PairsValid(pairs: seq<Pair>)
    requires PairsLegal(pairs)
    ensures Utf8.Valid(WritePairs(pairs))
    decreases pairs, 0
  {
    hide Utf8.Valid, WritePair, PairLegal;
    Utf8.AsciiValid([]);
    if pairs != [] {
      PairValid(pairs[0]);
      if |pairs| > 1 {
        PairsValid(pairs[1..]);
        Joined(WritePair(pairs[0]), COMMA, WritePairs(pairs[1..]));
      }
    }
  }

  /**
    Whatever form its characters and its layout take, a document within the size, nesting and key
    limits is read back as the value it was written for.
  */
  lemma AnyFormReads(it: Item)
    requires ItemLegal(it) && |WriteItem(it)| <= 1_048_576
    requires Nesting(ItemValue(it)) <= 64 && Distinct(ItemValue(it))
    ensures ReadDocument(WriteItem(it)) == Some(ItemValue(it))
  {
    hide WriteItem, ItemLegal, ReadDocument, Nesting, Distinct, IsElement, Utf8.Valid, ItemValue;
    var raw := WriteItem(it);
    assert raw[0..0 + |raw|] == raw;
    ItemIsElement(raw, 0, it);
    ItemValid(it);
    JsonTheorems.DocumentExact(raw, ItemValue(it));
  }

  /** Nothing is read that is larger, deeper, not UTF-8 or repeats a decoded key in one object. */
  lemma LimitsHold(raw: seq<Byte>, v: Value)
    requires ReadDocument(raw) == Some(v)
    ensures |raw| <= 1_048_576 && Utf8.Valid(raw) && Nesting(v) <= 64 && Distinct(v)
  {
    hide ReadDocument;
    JsonTheorems.DocumentExact(raw, v);
  }
}
