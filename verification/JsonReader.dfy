/** The strict reader itself: a byte string and a moving position (frozenJSONReader). */
module JsonReader {
  import opened Common
  import opened Digits
  import Decimal
  import DecimalReader
  import Utf8
  import opened JsonText
  import opened JsonParse

  /** A read ends in a value and a position, or fails at an unspecified position. */
  predicate Reached<T(==)>(r: Option<(T, nat)>, x: Option<T>, pos: nat) {
    match r
    case None => x == None
    case Some((t, e)) => x == Some(t) && pos == e
  }

  class Reader {
    const raw: seq<Byte>
    var pos: nat

    constructor (raw: seq<Byte>)
      ensures this.raw == raw && pos == 0
    {
      this.raw := raw;
      pos := 0;
    }

    method SkipWhitespace()
      requires pos <= |raw|
      modifies this
      ensures pos == SkipSpace(raw, old(pos))
    {
      while pos < |raw| && IsSpace(raw[pos])
        invariant old(pos) <= pos <= |raw| && SkipSpace(raw, pos) == SkipSpace(raw, old(pos))
      {
        pos := pos + 1;
      }
    }

    method Take(b: Byte) returns (taken: bool)
      requires pos <= |raw|
      modifies this
      ensures taken <==> old(pos) < |raw| && raw[old(pos)] == b
      ensures pos == if taken then old(pos) + 1 else old(pos)
    {
      taken := pos < |raw| && raw[pos] == b;
      if taken {
        pos := pos + 1;
      }
    }

    /** Four hex digits as one unit; the position only matters on success. */
    method HexRune() returns (unit: Option<int>)
      requires pos <= |raw|
      modifies this
      ensures unit == Hex4(raw, old(pos), |raw|)
      ensures old(pos) <= pos <= |raw| && (unit.Some? ==> pos == old(pos) + 4)
    {
      ghost var start := pos;
      var result := 0;
      var i := 0;
      while i < 4
        invariant 0 <= i <= 4 && pos == start + i <= |raw|
        invariant HexPrefix(raw, start, i) == Some(result)
      {
        if pos == |raw| {
          return None;
        }
        var b := raw[pos];
        pos := pos + 1;
        var d := HexDigit(b);
        if d.None? {
          HexStops(raw, start, i);
          return None;
        }
        result := result * 16 + d.value;
        i := i + 1;
      }
      HexWhole(raw, start);
      return Some(result);
    }

    /** A double-quoted string with its escapes. */
    method Quoted() returns (text: Option<seq<Byte>>)
      requires pos <= |raw|
      modifies this
      ensures old(pos) <= pos <= |raw|
      ensures Reached(ReadQuoted(raw, old(pos)), text, pos)
    {
      var quote := Take(QUOTE);
      if !quote {
        return None;
      }
      hide EscapePiece;
      ghost var start := pos;
      var decoded: seq<Byte> := [];
      PrefixedNil(ReadBody(raw, pos));
      while pos < |raw|
        invariant old(pos) < start <= pos <= |raw|
        invariant ReadBody(raw, start) == Prefixed(decoded, ReadBody(raw, pos))
        decreases |raw| - pos
      {
        var b := raw[pos];
        pos := pos + 1;
        if b == QUOTE {
          assert decoded + [] == decoded;
          return Some(decoded);
        } else if b < 0x20 {
          return None;
        } else if b != BACKSLASH {
          PrefixedAppend(decoded, [b], ReadBody(raw, pos));
          decoded := decoded + [b];
        } else {
          var piece := Escape();
          if piece.None? {
            return None;
          }
          PrefixedAppend(decoded, piece.value, ReadBody(raw, pos));
          decoded := decoded + piece.value;
        }
      }
      return None;
    }

    /** The rest of an escape, its backslash already taken. */
    method Escape() returns (text: Option<seq<Byte>>)
      requires 0 < pos <= |raw| && raw[pos - 1] == BACKSLASH
      modifies this
      ensures old(pos) <= pos <= |raw|
      ensures match EscapePiece(raw, old(pos) - 1, |raw|)
              case None => text == None
              case Some(p) => text == Some(p.text) && pos == old(pos) - 1 + p.width
    {
      hide Utf8.Encode, HexDigit;
      if pos == |raw| {
        return None;
      }
      var e := raw[pos];
      pos := pos + 1;
      if SimpleEscape(e).Some? {
        return Some([SimpleEscape(e).value]);
      }
      if e != LETTER_U {
        return None;
      }
      var unit := HexRune();
      if unit.None? {
        return None;
      }
      if Utf8.HighSurrogate(unit.value) {
        var slash := Take(BACKSLASH);
        if !slash {
          return None;
        }
        var u := Take(LETTER_U);
        if !u {
          return None;
        }
        var low := HexRune();
        if low.None? || !Utf8.LowSurrogate(low.value) {
          return None;
        }
        return Some(Utf8.Encode(Utf8.FromPair(unit.value, low.value)));
      } else if Utf8.LowSurrogate(unit.value) {
        return None;
      }
      return Some(Utf8.Encode(unit.value));
    }

    method Literal() returns (v: Option<Value>)
      requires pos <= |raw|
      modifies this
      ensures old(pos) <= pos <= |raw| && Reached(ReadLiteral(raw, old(pos)), v, pos)
    {
      if StartsWith(raw, pos, TRUE_TEXT) {
        pos := pos + |TRUE_TEXT|;
        return Some(Bool(true));
      } else if StartsWith(raw, pos, FALSE_TEXT) {
        pos := pos + |FALSE_TEXT|;
        return Some(Bool(false));
      } else if StartsWith(raw, pos, NULL_TEXT) {
        pos := pos + |NULL_TEXT|;
        return Some(Null);
      }
      return None;
    }

    /** The number bytes from here on, refused as soon as they exceed 1024. */
    method NumberToken() returns (v: Option<Value>)
      requires pos <= |raw|
      modifies this
      ensures old(pos) <= pos <= |raw| && Reached(ReadNumber(raw, old(pos)), v, pos)
    {
      var start := pos;
      while pos < |raw| && IsNumberByte(raw[pos])
        invariant start <= pos <= |raw| && NumberEnd(raw, pos) == NumberEnd(raw, start)
        invariant pos - start <= Decimal.MAX_BYTES
      {
        pos := pos + 1;
        if pos - start > Decimal.MAX_BYTES {
          DecimalReader.TooLong(raw[start..NumberEnd(raw, start)]);
          return None;
        }
      }
      hide Decimal.ReadParts;
      var parts := DecimalReader.NumberParts(raw[start..pos]);
      if parts.None? {
        return None;
      }
      return Some(Number(raw[start..pos]));
    }

    method NextValue(depth: nat) returns (v: Option<Value>)
      requires pos <= |raw|
      modifies this
      ensures old(pos) <= pos <= |raw| && Reached(ReadValue(raw, old(pos), depth), v, pos)
      decreases |raw| - pos, 0
    {
      hide ReadArray, ReadObject, ReadQuoted, ReadLiteral, ReadNumber, SkipSpace, IsSpace;
      SkipWhitespace();
      if pos == |raw| {
        return None;
      }
      if raw[pos] == LBRACE || raw[pos] == LBRACKET {
        if depth >= MAX_DEPTH {
          return None;
        }
        var brace := Take(LBRACE);
        if brace {
          v := NextObject(depth + 1);
          return;
        }
        pos := pos + 1;
        v := NextArray(depth + 1);
      } else if raw[pos] == QUOTE {
        var text := Quoted();
        v := if text.Some? then Some(Str(text.value)) else None;
      } else if raw[pos] == 116 || raw[pos] == 102 || raw[pos] == 110 {
        v := Literal();
      } else {
        v := NumberToken();
      }
    }

    method NextArray(depth: nat) returns (v: Option<Value>)
      requires pos <= |raw|
      modifies this
      ensures old(pos) <= pos <= |raw| && Reached(ReadArray(raw, old(pos), depth), v, pos)
      decreases |raw| - pos, 2
    {
      hide ReadValue, SkipSpace, IsSpace;
      SkipWhitespace();
      ghost var p := pos;
      var done := Take(RBRACKET);
      if done {
        return Some(Array([]));
      }
      var items: seq<Value> := [];
      while true
        invariant p <= pos <= |raw|
        invariant ReadElements(raw, p, depth, []) == ReadElements(raw, pos, depth, items)
        decreases |raw| - pos
      {
        var item := NextValue(depth);
        if item.None? {
          return None;
        }
        items := items + [item.value];
        SkipWhitespace();
        done := Take(RBRACKET);
        if done {
          return Some(Array(items));
        }
        var comma := Take(COMMA);
        if !comma {
          return None;
        }
      }
    }

    method NextMember(depth: nat) returns (m: Option<Member>)
      requires pos <= |raw|
      modifies this
      ensures old(pos) <= pos <= |raw| && Reached(ReadMember(raw, old(pos), depth), m, pos)
      decreases |raw| - pos, 1
    {
      hide ReadValue, ReadQuoted, SkipSpace, IsSpace;
      SkipWhitespace();
      var key := Quoted();
      if key.None? {
        return None;
      }
      SkipWhitespace();
      var colon := Take(COLON);
      if !colon {
        return None;
      }
      var value := NextValue(depth);
      if value.None? {
        return None;
      }
      return Some(Member(key.value, value.value));
    }

    method NextObject(depth: nat) returns (v: Option<Value>)
      requires pos <= |raw|
      modifies this
      ensures old(pos) <= pos <= |raw| && Reached(ReadObject(raw, old(pos), depth), v, pos)
      decreases |raw| - pos, 2
    {
      hide ReadMember, SkipSpace, IsSpace, KeyIn;
      SkipWhitespace();
      ghost var p := pos;
      var done := Take(RBRACE);
      if done {
        return Some(Object([]));
      }
      var members: seq<Member> := [];
      while true
        invariant p <= pos <= |raw|
        invariant ReadMembers(raw, p, depth, []) == ReadMembers(raw, pos, depth, members)
        decreases |raw| - pos
      {
        var m := NextMember(depth);
        if m.None? || KeyIn(members, m.value.key) {
          return None;
        }
        members := members + [m.value];
        SkipWhitespace();
        done := Take(RBRACE);
        if done {
          return Some(Object(members));
        }
        var comma := Take(COMMA);
        if !comma {
          return None;
        }
      }
    }
  }

  /**
    strictFrozenJSON: it terminates on every byte string, and returns v exactly when the
    bytes are a document of v (JsonTheorems.DocumentExact).
  */
  method StrictJSON(raw: seq<Byte>) returns (v: Option<Value>)
    ensures v == ReadDocument(raw)
  {
    if |raw| > MAX_BYTES || !Utf8.Valid(raw) {
      return None;
    }
    hide ReadValue, SkipSpace, Utf8.Valid;
    var r := new Reader(raw);
    v := r.NextValue(0);
    if v.None? {
      return;
    }
    r.SkipWhitespace();
    if r.pos != |raw| {
      return None;
    }
  }

  /** What a body reads to once `decoded` has been read before it. */
  function Prefixed(decoded: seq<Byte>, r: Option<(seq<Byte>, nat)>): Option<(seq<Byte>, nat)> {
    match r
    case None => None
    case Some((rest, e)) => Some((decoded + rest, e))
  }

  lemma PrefixedNil(r: Option<(seq<Byte>, nat)>)
    ensures Prefixed([], r) == r
  {
    if r.Some? {
      assert [] + r.value.0 == r.value.0;
    }
  }

  lemma PrefixedAppend(d: seq<Byte>, p: seq<Byte>, r: Option<(seq<Byte>, nat)>)
    ensures Prefixed(d, Prefixed(p, r)) == Prefixed(d + p, r)
  {
    if r.Some? {
      assert d + (p + r.value.0) == (d + p) + r.value.0;
    }
  }

  /** The first i of four hex digits accumulated. */
  function HexPrefix(raw: seq<Byte>, start: nat, i: nat): Option<int>
    requires start + i <= |raw|
  {
    if i == 0 then Some(0)
    else
      var p, d := HexPrefix(raw, start, i - 1), HexDigit(raw[start + i - 1]);
      if p.None? || d.None? then None else Some(p.value * 16 + d.value)
  }

  lemma HexStops(raw: seq<Byte>, start: nat, i: nat)
    requires i < 4 && start + i < |raw| && HexDigit(raw[start + i]).None?
    ensures Hex4(raw, start, |raw|).None?
  {
    assert i == 0 || i == 1 || i == 2 || i == 3;
  }

  lemma HexWhole(raw: seq<Byte>, start: nat)
    requires start + 4 <= |raw|
    ensures HexPrefix(raw, start, 4) == Hex4(raw, start, |raw|)
  {
    assert HexPrefix(raw, start, 1) == HexDigit(raw[start]);
    assert HexPrefix(raw, start, 2).Some? <==> HexDigit(raw[start]).Some? && HexDigit(raw[start + 1]).Some?;
  }
}
