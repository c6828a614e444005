/**
  Compact RFC 8259 printing, with strings either escaped as little as possible or in
  pure ASCII with surrogate pairs, and the proof that the strict reader reads every
  printed document back.
*/
module JsonPrint {
  import opened Common
  import opened Digits
  import Decimal
  import Utf8
  import opened JsonText
  import opened JsonParse
  import JsonTheorems

  // ----- spelling strings

  function HexChar(d: int): (b: Byte)
    requires 0 <= d < 16
    ensures HexDigit(b) == Some(d)
  {
    if d < 10 then 48 + d else 97 + (d - 10)
  }

  /** The escape of one 16-bit unit. */
  function UnitEscape(u: int): (s: seq<Byte>)
    requires 0 <= u < 0x10000
    ensures |s| == 6
  {
    [BACKSLASH, LETTER_U, HexChar(u / 4096), HexChar(u / 256 % 16), HexChar(u / 16 % 16), HexChar(u % 16)]
  }

  /** A byte of a string as is, unless it must be escaped. */
  function BytePiece(b: Byte): seq<Byte> {
    if b == QUOTE || b == BACKSLASH then [BACKSLASH, b]
    else if b < 0x20 then UnitEscape(b)
    else [b]
  }

  function ByteBody(text: seq<Byte>): seq<Byte> {
    if text == [] then [] else BytePiece(text[0]) + ByteBody(text[1..])
  }

  /** A scalar value in ASCII: itself, one escape, or a surrogate pair of escapes. */
  function AsciiPiece(cp: int): seq<Byte>
    requires Utf8.IsScalar(cp)
  {
    if cp == QUOTE || cp == BACKSLASH then [BACKSLASH, cp]
    else if 0x20 <= cp < 0x7F then [cp]
    else if cp < 0x10000 then UnitEscape(cp)
    else
      Utf8.PairInverse(cp);
      UnitEscape(Utf8.HighOf(cp)) + UnitEscape(Utf8.LowOf(cp))
  }

  function AsciiBody(cps: seq<int>): seq<Byte>
    requires forall i :: 0 <= i < |cps| ==> Utf8.IsScalar(cps[i])
  {
    if cps == [] then [] else AsciiPiece(cps[0]) + AsciiBody(cps[1..])
  }

  function Body(text: seq<Byte>, ascii: bool): seq<Byte>
    requires Utf8.Valid(text)
  {
    if ascii then
      Utf8.EncodeDecode(text);
      AsciiBody(Utf8.Decode(text).value)
    else ByteBody(text)
  }

  // ----- bodies denote what they spell

  lemma {:induction false} EscapeGrows(raw: seq<Byte>, lo: nat, mid: nat, hi: nat)
    requires lo < mid <= hi <= |raw| && EscapePiece(raw, lo, mid).Some?
    ensures EscapePiece(raw, lo, hi) == EscapePiece(raw, lo, mid)
  {
    hide Utf8.Encode, HexDigit;
  }

  /** Bodies written one after the other denote their texts one after the other. */
  lemma {:induction false} UnescapeConcat(raw: seq<Byte>, lo: nat, mid: nat, hi: nat)
    requires lo <= mid <= hi <= |raw| && Unescape(raw, lo, mid).Some? && Unescape(raw, mid, hi).Some?
    ensures Unescape(raw, lo, hi) == Some(Unescape(raw, lo, mid).value + Unescape(raw, mid, hi).value)
    decreases mid - lo
  {
    hide EscapePiece;
    var y := Unescape(raw, mid, hi).value;
    if lo == mid {
      assert [] + y == y;
    } else if raw[lo] != BACKSLASH {
      UnescapeConcat(raw, lo + 1, mid, hi);
      assert [raw[lo]] + (Unescape(raw, lo + 1, mid).value + y) == ([raw[lo]] + Unescape(raw, lo + 1, mid).value) + y;
    } else {
      EscapeGrows(raw, lo, mid, hi);
      var p := EscapePiece(raw, lo, mid).value;
      UnescapeConcat(raw, lo + p.width, mid, hi);
      var x := Unescape(raw, lo + p.width, mid).value;
      assert p.text + (x + y) == (p.text + x) + y;
    }
  }

  lemma UnescapeEmpty(raw: seq<Byte>, hi: nat)
    requires hi <= |raw|
    ensures Unescape(raw, hi, hi) == Some([])
  {
  }

  lemma UnitReads(raw: seq<Byte>, lo: nat, u: int, hi: nat)
    requires 0 <= u < 0x10000 && lo + 6 <= hi <= |raw| && raw[lo..lo + 6] == UnitEscape(u)
    ensures raw[lo] == BACKSLASH && raw[lo + 1] == LETTER_U && Hex4(raw, lo + 2, hi) == Some(u)
  {
    hide HexChar, HexDigit;
    var s := UnitEscape(u);
    assert forall j :: 0 <= j < 6 ==> raw[lo + j] == raw[lo..lo + 6][j] == s[j];
    HexDigits(u);
  }

  lemma HexDigits(u: int)
    requires 0 <= u < 0x10000
    ensures ((u / 4096 * 16 + u / 256 % 16) * 16 + u / 16 % 16) * 16 + u % 16 == u
  {
  }

  /** A single escaped unit outside the surrogates denotes its encoding. */
  lemma UnitDenotes(raw: seq<Byte>, lo: nat, u: int)
    requires 0 <= u < 0x10000 && Utf8.IsScalar(u)
    requires lo + 6 <= |raw| && raw[lo..lo + 6] == UnitEscape(u)
    ensures Unescape(raw, lo, lo + 6) == Some(Utf8.Encode(u))
  {
    UnitReads(raw, lo, u, lo + 6);
    hide UnitEscape, Hex4, Utf8.Encode;
    UnescapeEmpty(raw, lo + 6);
    assert EscapePiece(raw, lo, lo + 6) == Some(Piece(Utf8.Encode(u), 6));
    assert Utf8.Encode(u) + [] == Utf8.Encode(u);
  }

  /** A surrogate pair of escapes denotes the scalar value above U+FFFF it stands for. */
  lemma PairDenotes(raw: seq<Byte>, lo: nat, cp: int)
    requires 0x10000 <= cp <= 0x10FFFF
    requires Utf8.HighSurrogate(Utf8.HighOf(cp)) && Utf8.LowSurrogate(Utf8.LowOf(cp))
    requires lo + 12 <= |raw| && raw[lo..lo + 12] == UnitEscape(Utf8.HighOf(cp)) + UnitEscape(Utf8.LowOf(cp))
    ensures Unescape(raw, lo, lo + 12) == Some(Utf8.Encode(cp))
  {
    Utf8.PairInverse(cp);
    var high, low := Utf8.HighOf(cp), Utf8.LowOf(cp);
    assert raw[lo..lo + 6] == raw[lo..lo + 12][..6] == UnitEscape(high);
    assert raw[lo + 6..lo + 12] == raw[lo..lo + 12][6..] == UnitEscape(low);
    UnitReads(raw, lo, high, lo + 12);
    UnitReads(raw, lo + 6, low, lo + 12);
    hide UnitEscape, Hex4, Utf8.Encode, Utf8.HighOf, Utf8.LowOf, Utf8.FromPair;
    UnescapeEmpty(raw, lo + 12);
    assert EscapePiece(raw, lo, lo + 12) == Some(Piece(Utf8.Encode(cp), 12));
    assert Utf8.Encode(cp) + [] == Utf8.Encode(cp);
  }

  lemma PlainDenotes(raw: seq<Byte>, lo: nat, b: Byte)
    requires lo < |raw| && raw[lo] == b && b >= 0x20 && b != QUOTE && b != BACKSLASH
    ensures Unescape(raw, lo, lo + 1) == Some([b])
  {
    UnescapeEmpty(raw, lo + 1);
    assert [b] + [] == [b];
  }

  lemma EscapedDenotes(raw: seq<Byte>, lo: nat, b: Byte)
    requires lo + 2 <= |raw| && raw[lo] == BACKSLASH && raw[lo + 1] == b && (b == QUOTE || b == BACKSLASH)
    ensures Unescape(raw, lo, lo + 2) == Some([b])
  {
    UnescapeEmpty(raw, lo + 2);
    assert [b] + [] == [b];
  }

  lemma BytePieceDenotes(raw: seq<Byte>, lo: nat, b: Byte)
    requires lo + |BytePiece(b)| <= |raw| && raw[lo..lo + |BytePiece(b)|] == BytePiece(b)
    ensures Unescape(raw, lo, lo + |BytePiece(b)|) == Some([b])
  {
    var s := raw[lo..lo + |BytePiece(b)|];
    assert raw[lo] == s[0];
    if b == QUOTE || b == BACKSLASH {
      assert raw[lo + 1] == s[1];
      EscapedDenotes(raw, lo, b);
    } else if b < 0x20 {
      UnitDenotes(raw, lo, b);
    } else {
      PlainDenotes(raw, lo, b);
    }
  }

  lemma AsciiPieceDenotes(raw: seq<Byte>, lo: nat, cp: int)
    requires Utf8.IsScalar(cp)
    requires lo + |AsciiPiece(cp)| <= |raw| && raw[lo..lo + |AsciiPiece(cp)|] == AsciiPiece(cp)
    ensures Unescape(raw, lo, lo + |AsciiPiece(cp)|) == Some(Utf8.Encode(cp))
  {
    var s := raw[lo..lo + |AsciiPiece(cp)|];
    assert raw[lo] == s[0];
    if cp == QUOTE || cp == BACKSLASH {
      assert raw[lo + 1] == s[1];
      EscapedDenotes(raw, lo, cp);
    } else if 0x20 <= cp < 0x7F {
      PlainDenotes(raw, lo, cp);
    } else if cp < 0x10000 {
      UnitDenotes(raw, lo, cp);
    } else {
      Utf8.PairInverse(cp);
      PairDenotes(raw, lo, cp);
    }
  }

  /** A stretch that spells a concatenation spells its two halves. */
  lemma Halves<T>(raw: seq<T>, lo: nat, a: seq<T>, b: seq<T>)
    requires lo + |a + b| <= |raw| && raw[lo..lo + |a + b|] == a + b
    ensures raw[lo..lo + |a|] == a && raw[lo + |a|..lo + |a + b|] == b
  {
    var s := raw[lo..lo + |a + b|];
    assert s[..|a|] == a && s[|a|..] == b;
    assert raw[lo..lo + |a|] == s[..|a|] && raw[lo + |a|..lo + |a + b|] == s[|a|..];
  }

  lemma {:induction false} ByteBodyDenotes(raw: seq<Byte>, lo: nat, text: seq<Byte>)
    requires lo + |ByteBody(text)| <= |raw| && raw[lo..lo + |ByteBody(text)|] == ByteBody(text)
    ensures Unescape(raw, lo, lo + |ByteBody(text)|) == Some(text)
    decreases |text|
  {
    hide Unescape, BytePiece;
    if text == [] {
      UnescapeEmpty(raw, lo);
    } else {
      var p, rest := BytePiece(text[0]), ByteBody(text[1..]);
      Halves(raw, lo, p, rest);
      BytePieceDenotes(raw, lo, text[0]);
      ByteBodyDenotes(raw, lo + |p|, text[1..]);
      UnescapeConcat(raw, lo, lo + |p|, lo + |p| + |rest|);
      assert [text[0]] + text[1..] == text;
    }
  }

  lemma {:induction false} AsciiBodyDenotes(raw: seq<Byte>, lo: nat, cps: seq<int>)
    requires forall i :: 0 <= i < |cps| ==> Utf8.IsScalar(cps[i])
    requires lo + |AsciiBody(cps)| <= |raw| && raw[lo..lo + |AsciiBody(cps)|] == AsciiBody(cps)
    ensures Unescape(raw, lo, lo + |AsciiBody(cps)|) == Some(Utf8.EncodeAll(cps))
    decreases |cps|
  {
    hide Unescape, AsciiPiece, Utf8.Encode, Utf8.IsScalar;
    if cps == [] {
      UnescapeEmpty(raw, lo);
    } else {
      var p, rest := AsciiPiece(cps[0]), AsciiBody(cps[1..]);
      Halves(raw, lo, p, rest);
      AsciiPieceDenotes(raw, lo, cps[0]);
      AsciiBodyDenotes(raw, lo + |p|, cps[1..]);
      UnescapeConcat(raw, lo, lo + |p|, lo + |p| + |rest|);
    }
  }

  lemma BodyDenotes(raw: seq<Byte>, lo: nat, text: seq<Byte>, ascii: bool)
    requires Utf8.Valid(text)
    requires lo + |Body(text, ascii)| <= |raw| && raw[lo..lo + |Body(text, ascii)|] == Body(text, ascii)
    ensures Unescape(raw, lo, lo + |Body(text, ascii)|) == Some(text)
  {
    hide Unescape, AsciiBody, ByteBody;
    if ascii {
      Utf8.EncodeDecode(text);
      AsciiBodyDenotes(raw, lo, Utf8.Decode(text).value);
    } else {
      ByteBodyDenotes(raw, lo, text);
    }
  }

  // ----- printing values

  /** Values a printer can write: number tokens the grammar allows, strings in UTF-8. */
  ghost predicate Printable(v: Value)
    decreases v, 0
  {
    match v
    case Number(token) => Decimal.Accepted(token)
    case Str(text) => Utf8.Valid(text)
    case Array(items) => ItemsPrintable(items)
    case Object(members) => MembersPrintable(members)
    case _ => true
  }

  ghost predicate ItemsPrintable(items: seq<Value>)
    decreases items, 0
  {
    items == [] || (Printable(items[0]) && ItemsPrintable(items[1..]))
  }

  ghost predicate MembersPrintable(members: seq<Member>)
    decreases members, 0
  {
    members == []
    || (Utf8.Valid(members[0].key) && Printable(members[0].value) && MembersPrintable(members[1..]))
  }

  ghost function Quoted(text: seq<Byte>, ascii: bool): seq<Byte>
    requires Utf8.Valid(text)
  {
    [QUOTE] + Body(text, ascii) + [QUOTE]
  }

  ghost function Print(v: Value, ascii: bool): seq<Byte>
    requires Printable(v)
    decreases v, 0
  {
    match v
    case Null => NULL_TEXT
    case Bool(b) => if b then TRUE_TEXT else FALSE_TEXT
    case Number(token) => token
    case Str(text) => Quoted(text, ascii)
    case Array(items) => [LBRACKET] + PrintItems(items, ascii) + [RBRACKET]
    case Object(members) => [LBRACE] + PrintMembers(members, ascii) + [RBRACE]
  }

  ghost function PrintItems(items: seq<Value>, ascii: bool): seq<Byte>
    requires ItemsPrintable(items)
    decreases items, 0
  {
    if items == [] then []
    else if |items| == 1 then Print(items[0], ascii)
    else Print(items[0], ascii) + ([COMMA] + PrintItems(items[1..], ascii))
  }

  ghost function PrintMember(m: Member, ascii: bool): seq<Byte>
    requires Utf8.Valid(m.key) && Printable(m.value)
    decreases m, 1
  {
    Quoted(m.key, ascii) + ([COLON] + Print(m.value, ascii))
  }

  ghost function PrintMembers(members: seq<Member>, ascii: bool): seq<Byte>
    requires MembersPrintable(members)
    decreases members, 0
  {
    if members == [] then []
    else if |members| == 1 then PrintMember(members[0], ascii)
    else PrintMember(members[0], ascii) + ([COMMA] + PrintMembers(members[1..], ascii))
  }

  /** raw spells s at lo. */
  predicate At(raw: seq<Byte>, lo: nat, s: seq<Byte>) {
    lo + |s| <= |raw| && raw[lo..lo + |s|] == s
  }

  lemma AtHalves(raw: seq<Byte>, lo: nat, a: seq<Byte>, b: seq<Byte>)
    requires At(raw, lo, a + b)
    ensures At(raw, lo, a) && At(raw, lo + |a|, b)
  {
    Halves(raw, lo, a, b);
  }

  lemma AtByte(raw: seq<Byte>, lo: nat, b: Byte)
    requires At(raw, lo, [b])
    ensures lo < |raw| && raw[lo] == b
  {
    assert raw[lo..lo + 1][0] == b;
  }

  /** A bracketed stretch: its ends and what lies between. */
  lemma AtBracketed(raw: seq<Byte>, lo: nat, first: Byte, body: seq<Byte>, last: Byte)
    requires At(raw, lo, [first] + body + [last])
    ensures At(raw, lo + 1, body) && lo + |body| + 2 <= |raw|
    ensures raw[lo] == first && raw[lo + 1 + |body|] == last
  {
    AtHalves(raw, lo, [first] + body, [last]);
    AtHalves(raw, lo, [first], body);
    AtByte(raw, lo, first);
    AtByte(raw, lo + 1 + |body|, last);
  }

  lemma QuotedIsString(raw: seq<Byte>, lo: nat, text: seq<Byte>, ascii: bool)
    requires Utf8.Valid(text) && At(raw, lo, Quoted(text, ascii))
    ensures |Quoted(text, ascii)| >= 2 && IsString(raw, lo, lo + |Quoted(text, ascii)|, text)
  {
    hide Unescape, Body;
    AtBracketed(raw, lo, QUOTE, Body(text, ascii), QUOTE);
    BodyDenotes(raw, lo + 1, text, ascii);
  }

  /** Wherever a printed value stands, it is a text of the value. */
  lemma {:induction false} PrintIsText(raw: seq<Byte>, lo: nat, v: Value, ascii: bool)
    requires Printable(v) && At(raw, lo, Print(v, ascii))
    ensures IsText(raw, lo, lo + |Print(v, ascii)|, v)
    decreases v, 0
  {
    hide Quoted, PrintItems, PrintMembers, IsString, IsElements, IsMembers;
    match v
    case Null =>
    case Bool(_) =>
    case Number(_) =>
    case Str(text) => QuotedIsString(raw, lo, text, ascii);
    case Array(items) =>
      AtBracketed(raw, lo, LBRACKET, PrintItems(items, ascii), RBRACKET);
      ItemsAreElements(raw, lo + 1, items, ascii);
    case Object(members) =>
      AtBracketed(raw, lo, LBRACE, PrintMembers(members, ascii), RBRACE);
      MembersAreMembers(raw, lo + 1, members, ascii);
  }

  lemma {:induction false} PrintIsElement(raw: seq<Byte>, lo: nat, v: Value, ascii: bool)
    requires Printable(v) && At(raw, lo, Print(v, ascii))
    ensures IsElement(raw, lo, lo + |Print(v, ascii)|, v)
    decreases v, 1
  {
    hide IsText, Print, Printable;
    PrintIsText(raw, lo, v, ascii);
    var hi := lo + |Print(v, ascii)|;
    assert AllSpace(raw, lo, lo) && AllSpace(raw, hi, hi);
  }

  lemma ElementsCons(raw: seq<Byte>, lo: nat, k: nat, hi: nat, items: seq<Value>)
    requires lo <= k <= hi <= |raw| && items != [] && IsElement(raw, lo, k, items[0])
    requires if |items| == 1 then k == hi
             else k < hi && raw[k] == COMMA && IsElements(raw, k + 1, hi, items[1..])
    ensures IsElements(raw, lo, hi, items)
  {
    hide IsElement;
  }

  lemma MembersCons(raw: seq<Byte>, lo: nat, k: nat, hi: nat, members: seq<Member>)
    requires lo <= k <= hi <= |raw| && members != [] && IsMember(raw, lo, k, members[0])
    requires if |members| == 1 then k == hi
             else k < hi && raw[k] == COMMA && IsMembers(raw, k + 1, hi, members[1..])
    ensures IsMembers(raw, lo, hi, members)
  {
    hide IsMember;
  }

  lemma {:induction false} ItemsAreElements(raw: seq<Byte>, lo: nat, items: seq<Value>, ascii: bool)
    requires ItemsPrintable(items) && At(raw, lo, PrintItems(items, ascii))
    ensures var hi := lo + |PrintItems(items, ascii)|;
            if items == [] then AllSpace(raw, lo, hi) else IsElements(raw, lo, hi, items)
    decreases items, 1
  {
    hide IsElement, IsElements, Print, Printable;
    if items != [] {
      var p := Print(items[0], ascii);
      if |items| == 1 {
        PrintIsElement(raw, lo, items[0], ascii);
        ElementsCons(raw, lo, lo + |p|, lo + |p|, items);
      } else {
        var rest := PrintItems(items[1..], ascii);
        AtHalves(raw, lo, p, [COMMA] + rest);
        AtHalves(raw, lo + |p|, [COMMA], rest);
        AtByte(raw, lo + |p|, COMMA);
        PrintIsElement(raw, lo, items[0], ascii);
        ItemsAreElements(raw, lo + |p| + 1, items[1..], ascii);
        ElementsCons(raw, lo, lo + |p|, lo + |p| + 1 + |rest|, items);
      }
    }
  }

  lemma {:induction false} PrintIsMember(raw: seq<Byte>, lo: nat, m: Member, ascii: bool)
    requires Utf8.Valid(m.key) && Printable(m.value) && At(raw, lo, PrintMember(m, ascii))
    ensures IsMember(raw, lo, lo + |PrintMember(m, ascii)|, m)
    decreases m, 2
  {
    hide IsElement, IsString, Print, Printable, Quoted;
    var q, p := Quoted(m.key, ascii), Print(m.value, ascii);
    AtHalves(raw, lo, q, [COLON] + p);
    AtHalves(raw, lo + |q|, [COLON], p);
    AtByte(raw, lo + |q|, COLON);
    QuotedIsString(raw, lo, m.key, ascii);
    PrintIsElement(raw, lo + |q| + 1, m.value, ascii);
    assert AllSpace(raw, lo, lo) && AllSpace(raw, lo + |q|, lo + |q|);
  }

  lemma {:induction false} MembersAreMembers(raw: seq<Byte>, lo: nat, members: seq<Member>, ascii: bool)
    requires MembersPrintable(members) && At(raw, lo, PrintMembers(members, ascii))
    ensures var hi := lo + |PrintMembers(members, ascii)|;
            if members == [] then AllSpace(raw, lo, hi) else IsMembers(raw, lo, hi, members)
    decreases members, 1
  {
    hide IsMember, IsMembers, PrintMember, Printable;
    if members != [] {
      var p := PrintMember(members[0], ascii);
      if |members| == 1 {
        PrintIsMember(raw, lo, members[0], ascii);
        MembersCons(raw, lo, lo + |p|, lo + |p|, members);
      } else {
        var rest := PrintMembers(members[1..], ascii);
        AtHalves(raw, lo, p, [COMMA] + rest);
        AtHalves(raw, lo + |p|, [COMMA], rest);
        AtByte(raw, lo + |p|, COMMA);
        PrintIsMember(raw, lo, members[0], ascii);
        MembersAreMembers(raw, lo + |p| + 1, members[1..], ascii);
        MembersCons(raw, lo, lo + |p|, lo + |p| + 1 + |rest|, members);
      }
    }
  }

  // ----- printed documents are UTF-8

  predicate Ascii(s: seq<Byte>) {
    forall i :: 0 <= i < |s| ==> s[i] < 0x80
  }

  lemma AsciiPieceAscii(cp: int)
    requires Utf8.IsScalar(cp)
    ensures Ascii(AsciiPiece(cp))
  {
  }

  lemma {:induction false} AsciiBodyAscii(cps: seq<int>)
    requires forall i :: 0 <= i < |cps| ==> Utf8.IsScalar(cps[i])
    ensures Ascii(AsciiBody(cps))
  {
    hide AsciiPiece, Utf8.IsScalar;
    if cps != [] {
      AsciiPieceAscii(cps[0]);
      AsciiBodyAscii(cps[1..]);
    }
  }

  /** Bytes from 0x80 on are written as they are. */
  lemma {:induction false} HighBytesKept(s: seq<Byte>)
    requires forall i :: 0 <= i < |s| ==> s[i] >= 0x80
    ensures ByteBody(s) == s
  {
    if s != [] {
      HighBytesKept(s[1..]);
    }
  }

  lemma {:induction false} ByteBodyConcat(a: seq<Byte>, b: seq<Byte>)
    ensures ByteBody(a + b) == ByteBody(a) + ByteBody(b)
  {
    hide BytePiece;
    if a == [] {
      assert a + b == b;
    } else {
      ByteBodyConcat(a[1..], b);
      assert (a + b)[1..] == a[1..] + b;
      assert BytePiece(a[0]) + (ByteBody(a[1..]) + ByteBody(b)) == (BytePiece(a[0]) + ByteBody(a[1..])) + ByteBody(b);
    }
  }

  /** Escaping only touches ASCII bytes, so it keeps UTF-8 valid. */
  lemma {:induction false} ByteBodyValid(text: seq<Byte>)
    requires Utf8.Valid(text)
    ensures Utf8.Valid(ByteBody(text))
    decreases |text|
  {
    if text != [] {
      var w := Utf8.Width(text[0]);
      var head, rest := text[..w], text[w..];
      assert text == head + rest;
      HeadBody(text);
      hide BytePiece, ByteBody;
      ByteBodyConcat(head, rest);
      ByteBodyValid(rest);
      Utf8.ValidConcat(ByteBody(head), ByteBody(rest));
    }
  }

  lemma BytePieceAscii(b: Byte)
    requires b < 0x80
    ensures Ascii(BytePiece(b))
  {
  }

  /** The first scalar of a valid text escapes to valid bytes. */
  lemma HeadBody(text: seq<Byte>)
    requires text != [] && Utf8.StartsScalar(text)
    ensures Utf8.Valid(ByteBody(text[..Utf8.Width(text[0])]))
  {
    var head := text[..Utf8.Width(text[0])];
    if text[0] < 0x80 {
      assert head == [text[0]] && head[1..] == [];
      BytePieceAscii(text[0]);
      assert ByteBody(head) == BytePiece(text[0]) + [] == BytePiece(text[0]);
      Utf8.AsciiValid(ByteBody(head));
    } else {
      HighBytesKept(head);
      assert head[Utf8.Width(head[0])..] == [];
      assert Utf8.StartsScalar(head);
    }
  }

  lemma QuotedValid(text: seq<Byte>, ascii: bool)
    requires Utf8.Valid(text)
    ensures Utf8.Valid(Quoted(text, ascii))
  {
    Utf8.AsciiValid([QUOTE]);
    if ascii {
      Utf8.EncodeDecode(text);
      AsciiBodyAscii(Utf8.Decode(text).value);
      Utf8.AsciiValid(Body(text, ascii));
    } else {
      ByteBodyValid(text);
    }
    Surrounded(QUOTE, Body(text, ascii), QUOTE);
  }

  lemma Surrounded(first: Byte, body: seq<Byte>, last: Byte)
    requires first < 0x80 && last < 0x80 && Utf8.Valid(body)
    ensures Utf8.Valid([first] + body + [last])
  {
    hide Utf8.Valid;
    Utf8.AsciiValid([first]);
    Utf8.AsciiValid([last]);
    Utf8.ValidConcat([first], body);
    Utf8.ValidConcat([first] + body, [last]);
  }

  lemma Joined(a: seq<Byte>, b: Byte, c: seq<Byte>)
    requires b < 0x80 && Utf8.Valid(a) && Utf8.Valid(c)
    ensures Utf8.Valid(a + ([b] + c))
  {
    hide Utf8.Valid;
    Utf8.AsciiValid([b]);
    Utf8.ValidConcat([b], c);
    Utf8.ValidConcat(a, [b] + c);
  }

  lemma {:induction false} PrintValid(v: Value, ascii: bool)
    requires Printable(v)
    ensures Utf8.Valid(Print(v, ascii))
    decreases v, 0
  {
    hide Utf8.Valid, Quoted, PrintItems, PrintMembers;
    match v
    case Null => Utf8.AsciiValid(NULL_TEXT);
    case Bool(b) =>
      Utf8.AsciiValid(TRUE_TEXT);
      Utf8.AsciiValid(FALSE_TEXT);
    case Number(token) =>
      JsonTheorems.NumberBytes(token);
      Utf8.AsciiValid(token);
    case Str(text) => QuotedValid(text, ascii);
    case Array(items) =>
      ItemsValid(items, ascii);
      Surrounded(LBRACKET, PrintItems(items, ascii), RBRACKET);
    case Object(members) =>
      MembersValid(members, ascii);
      Surrounded(LBRACE, PrintMembers(members, ascii), RBRACE);
  }

  lemma {:induction false} ItemsValid(items: seq<Value>, ascii: bool)
    requires ItemsPrintable(items)
    ensures Utf8.Valid(PrintItems(items, ascii))
    decreases items, 1
  {
    hide Utf8.Valid, Print, Printable;
    Utf8.AsciiValid([]);
    if items != [] {
      PrintValid(items[0], ascii);
      if |items| > 1 {
        ItemsValid(items[1..], ascii);
        Joined(Print(items[0], ascii), COMMA, PrintItems(items[1..], ascii));
      }
    }
  }

  lemma {:induction false} MembersValid(members: seq<Member>, ascii: bool)
    requires MembersPrintable(members)
    ensures Utf8.Valid(PrintMembers(members, ascii))
    decreases members, 1
  {
    hide Utf8.Valid, Print, Printable, Quoted;
    Utf8.AsciiValid([]);
    if members != [] {
      var m := members[0];
      PrintValid(m.value, ascii);
      QuotedValid(m.key, ascii);
      Joined(Quoted(m.key, ascii), COLON, Print(m.value, ascii));
      if |members| > 1 {
        MembersValid(members[1..], ascii);
        Joined(PrintMember(m, ascii), COMMA, PrintMembers(members[1..], ascii));
      }
    }
  }

  /**
    Round trip: whatever either printer writes, within the size, nesting and key limits,
    the strict reader reads back unchanged.
  */
  lemma RoundTrip(v: Value, ascii: bool)
    requires Printable(v) && Nesting(v) <= MAX_DEPTH && Distinct(v)
    requires |Print(v, ascii)| <= JsonText.MAX_BYTES
    ensures ReadDocument(Print(v, ascii)) == Some(v)
  {
    hide Print, Printable, ReadDocument, Nesting, Distinct, IsElement, Utf8.Valid;
    var raw := Print(v, ascii);
    assert raw[0..0 + |raw|] == raw;
    PrintIsElement(raw, 0, v, ascii);
    PrintValid(v, ascii);
    JsonTheorems.DocumentExact(raw, v);
  }
}
