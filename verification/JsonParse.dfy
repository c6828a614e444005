/**
  The strict reader of dsl/frozen_level_json.go as functions of the bytes and a
  position, and the proof that it reads v if and only if the bytes are a text of v.
*/
module JsonParse {
  import opened Common
  import opened Digits
  import Decimal
  import Utf8
  import opened JsonText

  function SkipSpace(raw: seq<Byte>, pos: nat): (p: nat)
    requires pos <= |raw|
    ensures pos <= p <= |raw|
    ensures AllSpace(raw, pos, p) && (p < |raw| ==> !IsSpace(raw[p]))
    decreases |raw| - pos
  {
    if pos < |raw| && IsSpace(raw[pos]) then SkipSpace(raw, pos + 1) else pos
  }

  /** After the opening quote: the decoded text and the position past the closing quote. */
  function ReadBody(raw: seq<Byte>, pos: nat): (r: Option<(seq<Byte>, nat)>)
    requires pos <= |raw|
    ensures r.Some? ==> pos < r.value.1 <= |raw|
    decreases |raw| - pos
  {
    if pos == |raw| then None
    else if raw[pos] == QUOTE then Some(([], pos + 1))
    else if raw[pos] < 0x20 then None
    else if raw[pos] != BACKSLASH then
      match ReadBody(raw, pos + 1)
      case None => None
      case Some((rest, e)) => Some(([raw[pos]] + rest, e))
    else match EscapePiece(raw, pos, |raw|)
      case None => None
      case Some(p) =>
        match ReadBody(raw, pos + p.width)
        case None => None
        case Some((rest, e)) => Some((p.text + rest, e))
  }

  function ReadQuoted(raw: seq<Byte>, pos: nat): (r: Option<(seq<Byte>, nat)>)
    requires pos <= |raw|
    ensures r.Some? ==> pos + 1 < r.value.1 <= |raw|
  {
    if pos < |raw| && raw[pos] == QUOTE then ReadBody(raw, pos + 1) else None
  }

  predicate StartsWith(raw: seq<Byte>, pos: nat, text: seq<Byte>) {
    pos + |text| <= |raw| && raw[pos..pos + |text|] == text
  }

  function ReadLiteral(raw: seq<Byte>, pos: nat): (r: Option<(Value, nat)>)
    ensures r.Some? ==> pos < r.value.1 <= |raw|
  {
    if StartsWith(raw, pos, TRUE_TEXT) then Some((Bool(true), pos + 4))
    else if StartsWith(raw, pos, FALSE_TEXT) then Some((Bool(false), pos + 5))
    else if StartsWith(raw, pos, NULL_TEXT) then Some((Null, pos + 4))
    else None
  }

  /** End of the number bytes starting at pos. */
  function NumberEnd(raw: seq<Byte>, pos: nat): (e: nat)
    requires pos <= |raw|
    ensures pos <= e <= |raw|
    ensures forall i :: pos <= i < e ==> IsNumberByte(raw[i])
    ensures e < |raw| ==> !IsNumberByte(raw[e])
    decreases |raw| - pos
  {
    if pos < |raw| && IsNumberByte(raw[pos]) then NumberEnd(raw, pos + 1) else pos
  }

  function ReadNumber(raw: seq<Byte>, pos: nat): (r: Option<(Value, nat)>)
    requires pos <= |raw|
    ensures r.Some? ==> pos < r.value.1 <= |raw|
  {
    var e := NumberEnd(raw, pos);
    if Decimal.ReadParts(raw[pos..e]).None? then None
    else
      EmptyNumber();
      Some((Number(raw[pos..e]), e))
  }

  lemma EmptyNumber()
    ensures Decimal.ReadParts([]).None?
  {
  }

  function ReadValue(raw: seq<Byte>, pos: nat, depth: nat): (r: Option<(Value, nat)>)
    requires pos <= |raw|
    ensures r.Some? ==> pos < r.value.1 <= |raw|
    decreases |raw| - pos, 0
  {
    var p := SkipSpace(raw, pos);
    if p == |raw| then None
    else if raw[p] == LBRACE || raw[p] == LBRACKET then
      if depth >= MAX_DEPTH then None
      else if raw[p] == LBRACE then ReadObject(raw, p + 1, depth + 1)
      else ReadArray(raw, p + 1, depth + 1)
    else if raw[p] == QUOTE then
      match ReadQuoted(raw, p)
      case None => None
      case Some((text, e)) => Some((Str(text), e))
    else if raw[p] == 116 || raw[p] == 102 || raw[p] == 110 then ReadLiteral(raw, p)
    else ReadNumber(raw, p)
  }

  function ReadArray(raw: seq<Byte>, pos: nat, depth: nat): (r: Option<(Value, nat)>)
    requires pos <= |raw|
    ensures r.Some? ==> pos < r.value.1 <= |raw|
    decreases |raw| - pos, 2
  {
    var p := SkipSpace(raw, pos);
    if p < |raw| && raw[p] == RBRACKET then Some((Array([]), p + 1))
    else match ReadElements(raw, p, depth, [])
      case None => None
      case Some((items, e)) => Some((Array(items), e))
  }

  /** The loop of array: a value, then an end or a comma and more. */
  function ReadElements(raw: seq<Byte>, pos: nat, depth: nat, acc: seq<Value>): (r: Option<(seq<Value>, nat)>)
    requires pos <= |raw|
    ensures r.Some? ==> pos < r.value.1 <= |raw|
    decreases |raw| - pos, 1
  {
    match ReadValue(raw, pos, depth)
    case None => None
    case Some((v, e)) =>
      var q := SkipSpace(raw, e);
      if q < |raw| && raw[q] == RBRACKET then Some((acc + [v], q + 1))
      else if q < |raw| && raw[q] == COMMA then ReadElements(raw, q + 1, depth, acc + [v])
      else None
  }

  function ReadObject(raw: seq<Byte>, pos: nat, depth: nat): (r: Option<(Value, nat)>)
    requires pos <= |raw|
    ensures r.Some? ==> pos < r.value.1 <= |raw|
    decreases |raw| - pos, 3
  {
    var p := SkipSpace(raw, pos);
    if p < |raw| && raw[p] == RBRACE then Some((Object([]), p + 1))
    else match ReadMembers(raw, p, depth, [])
      case None => None
      case Some((members, e)) => Some((Object(members), e))
  }

  /** One member: key, colon, value. */
  function ReadMember(raw: seq<Byte>, pos: nat, depth: nat): (r: Option<(Member, nat)>)
    requires pos <= |raw|
    ensures r.Some? ==> pos < r.value.1 <= |raw|
    decreases |raw| - pos, 1
  {
    match ReadQuoted(raw, SkipSpace(raw, pos))
    case None => None
    case Some((key, k)) =>
      var c := SkipSpace(raw, k);
      if c == |raw| || raw[c] != COLON then None
      else match ReadValue(raw, c + 1, depth)
        case None => None
        case Some((v, e)) => Some((Member(key, v), e))
  }

  /** The loop of object: a member with a new key, then an end or a comma and more. */
  function ReadMembers(raw: seq<Byte>, pos: nat, depth: nat, acc: seq<Member>): (r: Option<(seq<Member>, nat)>)
    requires pos <= |raw|
    ensures r.Some? ==> pos < r.value.1 <= |raw|
    decreases |raw| - pos, 2
  {
    match ReadMember(raw, pos, depth)
    case None => None
    case Some((m, e)) =>
      var q := SkipSpace(raw, e);
      if KeyIn(acc, m.key) then None
      else if q < |raw| && raw[q] == RBRACE then Some((acc + [m], q + 1))
      else if q < |raw| && raw[q] == COMMA then ReadMembers(raw, q + 1, depth, acc + [m])
      else None
  }

  /** strictFrozenJSON: one document, nothing but white space after it. */
  function ReadDocument(raw: seq<Byte>): Option<Value> {
    if |raw| > MAX_BYTES || !Utf8.Valid(raw) then None
    else match ReadValue(raw, 0, 0)
      case None => None
      case Some((v, e)) => if SkipSpace(raw, e) == |raw| then Some(v) else None
  }

  // ----- strings read are strings denoted

  /** An escape never contains a bare quote, so it ends before the closing one. */
  lemma EscapeInside(raw: seq<Byte>, pos: nat, hi: nat)
    requires pos < hi < |raw| && raw[pos] == BACKSLASH && raw[hi] == QUOTE
    ensures EscapePiece(raw, pos, hi).Some? ==> EscapePiece(raw, pos, |raw|) == EscapePiece(raw, pos, hi)
    ensures EscapePiece(raw, pos, |raw|).Some? && pos + EscapePiece(raw, pos, |raw|).value.width <= hi ==>
              EscapePiece(raw, pos, hi) == EscapePiece(raw, pos, |raw|)
  {
    hide Utf8.Encode, HexDigit;
  }

  lemma {:induction false} BodySound(raw: seq<Byte>, pos: nat)
    requires pos <= |raw| && ReadBody(raw, pos).Some?
    ensures var (text, e) := ReadBody(raw, pos).value;
            raw[e - 1] == QUOTE && Unescape(raw, pos, e - 1) == Some(text)
    decreases |raw| - pos
  {
    hide EscapePiece;
    if raw[pos] == QUOTE {
    } else if raw[pos] != BACKSLASH {
      BodySound(raw, pos + 1);
    } else {
      var p := EscapePiece(raw, pos, |raw|).value;
      BodySound(raw, pos + p.width);
      EscapeInside(raw, pos, ReadBody(raw, pos).value.1 - 1);
    }
  }

  lemma {:induction false} BodyComplete(raw: seq<Byte>, pos: nat, hi: nat)
    requires pos <= hi < |raw| && raw[hi] == QUOTE && Unescape(raw, pos, hi).Some?
    ensures ReadBody(raw, pos) == Some((Unescape(raw, pos, hi).value, hi + 1))
    decreases hi - pos
  {
    hide EscapePiece;
    if pos < hi {
      if raw[pos] != BACKSLASH {
        BodyComplete(raw, pos + 1, hi);
      } else {
        EscapeInside(raw, pos, hi);
        BodyComplete(raw, pos + EscapePiece(raw, pos, hi).value.width, hi);
      }
    }
  }

  /** A string is read at lo exactly when some stretch from lo is a string text of it. */
  lemma QuotedExact(raw: seq<Byte>, lo: nat, hi: nat, text: seq<Byte>)
    requires lo <= hi <= |raw|
    ensures ReadQuoted(raw, lo) == Some((text, hi)) <==> IsString(raw, lo, hi, text)
  {
    hide Unescape;
    if ReadQuoted(raw, lo) == Some((text, hi)) {
      BodySound(raw, lo + 1);
    }
    if IsString(raw, lo, hi, text) {
      BodyComplete(raw, lo + 1, hi - 1);
    }
  }
}
