/**
  JSON values and the texts that denote them, after RFC 8259: a relation between a
  stretch of bytes and a value, defined by splitting the stretch, with no reader in it.
*/
module JsonText {
  import opened Common
  import opened Digits
  import Decimal
  import Utf8

  const QUOTE: Byte := 34
  const BACKSLASH: Byte := 92
  const SLASH: Byte := 47
  const LBRACE: Byte := 123
  const RBRACE: Byte := 125
  const LBRACKET: Byte := 91
  const RBRACKET: Byte := 93
  const COLON: Byte := 58
  const COMMA: Byte := 44
  const LETTER_U: Byte := 117

  /** A decoded document; objects keep the order in which their members were read. */
  datatype Value =
    | Null
    | Bool(b: bool)
    | Number(token: seq<Byte>)
    | Str(text: seq<Byte>)
    | Array(items: seq<Value>)
    | Object(members: seq<Member>)

  datatype Member = Member(key: seq<Byte>, value: Value)

  const NULL_TEXT: seq<Byte> := [110, 117, 108, 108]
  const TRUE_TEXT: seq<Byte> := [116, 114, 117, 101]
  const FALSE_TEXT: seq<Byte> := [102, 97, 108, 115, 101]

  predicate IsSpace(b: Byte) {
    b == 32 || b == 9 || b == 13 || b == 10
  }

  /** Bytes that can occur in a number token; a token ends before any other byte. */
  predicate IsNumberByte(b: Byte) {
    IsDigit(b) || b == Decimal.MINUS || b == Decimal.PLUS || b == Decimal.DOT
    || b == Decimal.LOWER_E || b == Decimal.UPPER_E
  }

  predicate AllSpace(raw: seq<Byte>, lo: nat, hi: nat)
    requires lo <= hi <= |raw|
  {
    forall i :: lo <= i < hi ==> IsSpace(raw[i])
  }

  // ----- strings

  function HexDigit(b: Byte): (d: Option<int>)
    ensures d.Some? ==> 0 <= d.value < 16
  {
    if 48 <= b <= 57 then Some(b - 48)
    else if 97 <= b <= 102 then Some(b - 97 + 10)
    else if 65 <= b <= 70 then Some(b - 65 + 10)
    else None
  }

  /** The four hex digits at i as one 16-bit unit. */
  function Hex4(raw: seq<Byte>, i: nat, hi: nat): (u: Option<int>)
    requires hi <= |raw|
    ensures u.Some? ==> 0 <= u.value < 0x10000 && i + 4 <= hi
  {
    if i + 4 > hi then None
    else
      var a, b, c, d := HexDigit(raw[i]), HexDigit(raw[i + 1]), HexDigit(raw[i + 2]), HexDigit(raw[i + 3]);
      if a.None? || b.None? || c.None? || d.None? then None
      else Some(((a.value * 16 + b.value) * 16 + c.value) * 16 + d.value)
  }

  function SimpleEscape(e: Byte): Option<Byte> {
    if e == QUOTE || e == BACKSLASH || e == SLASH then Some(e)
    else if e == 98 then Some(8)
    else if e == 102 then Some(12)
    else if e == 110 then Some(10)
    else if e == 114 then Some(13)
    else if e == 116 then Some(9)
    else None
  }

  /** One step of a string body: what it decodes to and how many bytes it takes. */
  datatype Piece = Piece(text: seq<Byte>, width: nat)

  /** The escape that starts at lo, where raw[lo] is a backslash. */
  function EscapePiece(raw: seq<Byte>, lo: nat, hi: nat): (p: Option<Piece>)
    requires lo < hi <= |raw|
    ensures p.Some? ==> 2 <= p.value.width && lo + p.value.width <= hi
  {
    if lo + 1 == hi then None
    else if SimpleEscape(raw[lo + 1]).Some? then Some(Piece([SimpleEscape(raw[lo + 1]).value], 2))
    else if raw[lo + 1] != LETTER_U then None
    else
      match Hex4(raw, lo + 2, hi)
      case None => None
      case Some(u) =>
        if Utf8.HighSurrogate(u) then
          if lo + 8 > hi || raw[lo + 6] != BACKSLASH || raw[lo + 7] != LETTER_U then None
          else match Hex4(raw, lo + 8, hi)
            case None => None
            case Some(low) =>
              if Utf8.LowSurrogate(low) then Some(Piece(Utf8.Encode(Utf8.FromPair(u, low)), 12)) else None
        else if Utf8.LowSurrogate(u) then None
        else Some(Piece(Utf8.Encode(u), 6))
  }

  /** What a string body denotes; None when it holds a bare quote, a control or a bad escape. */
  function Unescape(raw: seq<Byte>, lo: nat, hi: nat): Option<seq<Byte>>
    requires lo <= hi <= |raw|
    decreases hi - lo
  {
    if lo == hi then Some([])
    else if raw[lo] == QUOTE || raw[lo] < 0x20 then None
    else if raw[lo] != BACKSLASH then
      match Unescape(raw, lo + 1, hi)
      case None => None
      case Some(rest) => Some([raw[lo]] + rest)
    else match EscapePiece(raw, lo, hi)
      case None => None
      case Some(p) =>
        match Unescape(raw, lo + p.width, hi)
        case None => None
        case Some(rest) => Some(p.text + rest)
  }

  ghost predicate IsString(raw: seq<Byte>, lo: nat, hi: nat, text: seq<Byte>)
    requires lo <= hi <= |raw|
  {
    lo + 2 <= hi && raw[lo] == QUOTE && raw[hi - 1] == QUOTE && Unescape(raw, lo + 1, hi - 1) == Some(text)
  }

  // ----- values

  /** raw[lo..hi] is a text of v, without surrounding white space. */
  ghost predicate IsText(raw: seq<Byte>, lo: nat, hi: nat, v: Value)
    requires lo <= hi <= |raw|
    decreases v, 0
  {
    match v
    case Null => raw[lo..hi] == NULL_TEXT
    case Bool(b) => raw[lo..hi] == if b then TRUE_TEXT else FALSE_TEXT
    case Number(token) => raw[lo..hi] == token && Decimal.Accepted(token)
    case Str(text) => IsString(raw, lo, hi, text)
    case Array(items) =>
      lo + 2 <= hi && raw[lo] == LBRACKET && raw[hi - 1] == RBRACKET
      && if items == [] then AllSpace(raw, lo + 1, hi - 1) else IsElements(raw, lo + 1, hi - 1, items)
    case Object(members) =>
      lo + 2 <= hi && raw[lo] == LBRACE && raw[hi - 1] == RBRACE
      && if members == [] then AllSpace(raw, lo + 1, hi - 1) else IsMembers(raw, lo + 1, hi - 1, members)
  }

  /** A value with white space around it. */
  ghost predicate IsElement(raw: seq<Byte>, lo: nat, hi: nat, v: Value)
    requires lo <= hi <= |raw|
    decreases v, 1
  {
    exists a, b | lo <= a <= b <= hi ::
      AllSpace(raw, lo, a) && IsText(raw, a, b, v) && AllSpace(raw, b, hi)
  }

  ghost predicate IsElements(raw: seq<Byte>, lo: nat, hi: nat, items: seq<Value>)
    requires lo <= hi <= |raw| && items != []
    decreases items, 0
  {
    exists k | lo <= k <= hi ::
      IsElement(raw, lo, k, items[0])
      && if |items| == 1 then k == hi
         else k < hi && raw[k] == COMMA && IsElements(raw, k + 1, hi, items[1..])
  }

  /** White space, key, white space, colon, value with white space. */
  ghost predicate IsMember(raw: seq<Byte>, lo: nat, hi: nat, m: Member)
    requires lo <= hi <= |raw|
    decreases m, 1
  {
    exists a, b, c | lo <= a <= b <= c < hi ::
      AllSpace(raw, lo, a) && IsString(raw, a, b, m.key) && AllSpace(raw, b, c) && raw[c] == COLON
      && IsElement(raw, c + 1, hi, m.value)
  }

  ghost predicate IsMembers(raw: seq<Byte>, lo: nat, hi: nat, members: seq<Member>)
    requires lo <= hi <= |raw| && members != []
    decreases members, 0
  {
    exists k | lo <= k <= hi ::
      IsMember(raw, lo, k, members[0])
      && if |members| == 1 then k == hi
         else k < hi && raw[k] == COMMA && IsMembers(raw, k + 1, hi, members[1..])
  }

  // ----- limits

  /** How many containers are nested inside one another at most. */
  function Nesting(v: Value): nat
    decreases v, 0
  {
    match v
    case Array(items) => 1 + ItemNesting(items)
    case Object(members) => 1 + MemberNesting(members)
    case _ => 0
  }

  function ItemNesting(items: seq<Value>): nat
    decreases items, 0
  {
    if items == [] then 0
    else
      var a, b := Nesting(items[0]), ItemNesting(items[1..]);
      if a > b then a else b
  }

  function MemberNesting(members: seq<Member>): nat
    decreases members, 0
  {
    if members == [] then 0
    else
      var a, b := Nesting(members[0].value), MemberNesting(members[1..]);
      if a > b then a else b
  }

  predicate KeyIn(members: seq<Member>, key: seq<Byte>) {
    exists i :: 0 <= i < |members| && members[i].key == key
  }

  predicate KeysDistinct(members: seq<Member>) {
    forall i, j :: 0 <= i < j < |members| ==> members[i].key != members[j].key
  }

  /** No object anywhere in the value repeats a decoded key. */
  predicate Distinct(v: Value)
    decreases v, 0
  {
    match v
    case Array(items) => ItemsDistinct(items)
    case Object(members) => KeysDistinct(members) && MembersDistinct(members)
    case _ => true
  }

  predicate ItemsDistinct(items: seq<Value>)
    decreases items, 0
  {
    items == [] || (Distinct(items[0]) && ItemsDistinct(items[1..]))
  }

  predicate MembersDistinct(members: seq<Member>)
    decreases members, 0
  {
    members == [] || (Distinct(members[0].value) && MembersDistinct(members[1..]))
  }

  const MAX_BYTES := 0x100000
  const MAX_DEPTH := 64

  /** What the strict reader must accept as v: one document within the limits. */
  ghost predicate IsDocument(raw: seq<Byte>, v: Value) {
    && |raw| <= MAX_BYTES && Utf8.Valid(raw)
    && IsElement(raw, 0, |raw|, v)
    && Nesting(v) <= MAX_DEPTH && Distinct(v)
  }
}
