/**
  The strict reader accepts exactly the texts of RFC 8259 within its limits, and reads
  from each the one value it denotes.
*/
module JsonTheorems {
  import opened Common
  import opened Digits
  import Decimal
  import Utf8
  import opened JsonText
  import opened JsonParse

  // ----- white space and first bytes

  lemma {:induction false} SkipExact(raw: seq<Byte>, pos: nat, a: nat)
    requires pos <= a <= |raw| && AllSpace(raw, pos, a) && (a < |raw| ==> !IsSpace(raw[a]))
    ensures SkipSpace(raw, pos) == a
    decreases a - pos
  {
    if pos < a {
      SkipExact(raw, pos + 1, a);
    }
  }

  /** Reading a value starts after its leading white space. */
  lemma SkipTwice(raw: seq<Byte>, pos: nat, depth: nat)
    requires pos <= |raw|
    ensures ReadValue(raw, SkipSpace(raw, pos), depth) == ReadValue(raw, pos, depth)
  {
    SkipExact(raw, SkipSpace(raw, pos), SkipSpace(raw, pos));
    hide ReadArray, ReadObject, ReadQuoted, ReadLiteral, ReadNumber;
  }

  lemma DigitBytes(d: seq<Byte>)
    requires AllDigits(d)
    ensures forall i :: 0 <= i < |d| ==> IsNumberByte(d[i])
  {
  }

  /** An accepted number token is a nonempty run of number bytes. */
  lemma NumberBytes(token: seq<Byte>)
    requires Decimal.Accepted(token)
    ensures token != [] && forall i :: 0 <= i < |token| ==> IsNumberByte(token[i])
  {
    var s :| Decimal.Spells(s, token) && s.Allowed();
    DigitBytes(s.integer);
    DigitBytes(s.frac);
    assert forall i :: 0 <= i < |s.SignText()| ==> IsNumberByte(s.SignText()[i]);
    assert forall i :: 0 <= i < |s.FracText()| ==> IsNumberByte(s.FracText()[i]);
    if s.exp.Some? {
      DigitBytes(s.exp.value.digits);
    }
    assert forall i :: 0 <= i < |s.ExpText()| ==> IsNumberByte(s.ExpText()[i]);
    hide Decimal.Shape.SignText, Decimal.Shape.FracText, Decimal.Shape.ExpText;
    assert token == s.SignText() + s.integer + s.FracText() + s.ExpText();
  }

  /** The byte a text starts with tells what kind of value follows. */
  lemma TextStart(raw: seq<Byte>, lo: nat, hi: nat, v: Value)
    requires lo <= hi <= |raw| && IsText(raw, lo, hi, v)
    ensures lo < hi && !IsSpace(raw[lo]) && raw[lo] != RBRACKET && raw[lo] != RBRACE
    ensures match v
            case Null => raw[lo] == 110
            case Bool(b) => raw[lo] == if b then 116 else 102
            case Number(_) => IsNumberByte(raw[lo])
            case Str(_) => raw[lo] == QUOTE
            case Array(_) => raw[lo] == LBRACKET
            case Object(_) => raw[lo] == LBRACE
  {
    hide IsElements, IsMembers, Decimal.Accepted, Unescape;
    match v
    case Null => assert raw[lo] == raw[lo..hi][0];
    case Bool(b) => assert raw[lo] == raw[lo..hi][0];
    case Number(token) =>
      NumberBytes(token);
      assert raw[lo] == raw[lo..hi][0];
    case _ =>
  }

  // ----- soundness

  lemma LiteralSound(raw: seq<Byte>, pos: nat)
    requires pos <= |raw| && ReadLiteral(raw, pos).Some?
    ensures var (v, e) := ReadLiteral(raw, pos).value;
            IsText(raw, pos, e, v) && Nesting(v) == 0 && Distinct(v)
  {
  }

  lemma NumberSound(raw: seq<Byte>, pos: nat)
    requires pos <= |raw| && ReadNumber(raw, pos).Some?
    ensures var (v, e) := ReadNumber(raw, pos).value;
            IsText(raw, pos, e, v) && Nesting(v) == 0 && Distinct(v)
  {
    Decimal.ReadPartsExact(raw[pos..NumberEnd(raw, pos)]);
    hide Decimal.Accepted, Decimal.ReadParts;
  }

  lemma {:induction false} ValueSound(raw: seq<Byte>, pos: nat, depth: nat)
    requires pos <= |raw| && depth <= MAX_DEPTH && ReadValue(raw, pos, depth).Some?
    ensures var (v, e) := ReadValue(raw, pos, depth).value;
            var p := SkipSpace(raw, pos);
            p <= e && IsText(raw, p, e, v) && Nesting(v) + depth <= MAX_DEPTH && Distinct(v)
    decreases |raw| - pos, 0
  {
    hide ReadArray, ReadObject, ReadQuoted, ReadLiteral, ReadNumber, IsElements, IsMembers, Unescape;
    var p := SkipSpace(raw, pos);
    if raw[p] == LBRACE {
      ObjectSound(raw, p + 1, depth + 1);
    } else if raw[p] == LBRACKET {
      ArraySound(raw, p + 1, depth + 1);
    } else if raw[p] == QUOTE {
      var (text, e) := ReadQuoted(raw, p).value;
      QuotedExact(raw, p, e, text);
    } else if raw[p] == 116 || raw[p] == 102 || raw[p] == 110 {
      LiteralSound(raw, p);
    } else {
      NumberSound(raw, p);
    }
  }

  lemma {:induction false} ArraySound(raw: seq<Byte>, pos: nat, depth: nat)
    requires pos <= |raw| && depth <= MAX_DEPTH && ReadArray(raw, pos, depth).Some?
    ensures var (v, e) := ReadArray(raw, pos, depth).value;
            && v.Array? && raw[e - 1] == RBRACKET
            && (if v.items == [] then AllSpace(raw, pos, e - 1) else IsElements(raw, pos, e - 1, v.items))
            && ItemNesting(v.items) + depth <= MAX_DEPTH && ItemsDistinct(v.items)
    decreases |raw| - pos, 3
  {
    hide ReadElements, IsElements;
    var p := SkipSpace(raw, pos);
    if !(p < |raw| && raw[p] == RBRACKET) {
      ElementsSound(raw, p, depth, []);
      var (items, e) := ReadElements(raw, p, depth, []).value;
      assert items[0..] == items;
      WidenElements(raw, pos, p, e - 1, items);
    }
  }

  lemma WidenElements(raw: seq<Byte>, pos: nat, p: nat, hi: nat, items: seq<Value>)
    requires pos <= p <= hi <= |raw| && items != []
    requires AllSpace(raw, pos, p) && IsElements(raw, p, hi, items)
    ensures IsElements(raw, pos, hi, items)
  {
    hide IsText;
    var k :| p <= k <= hi && IsElement(raw, p, k, items[0])
             && if |items| == 1 then k == hi
                else k < hi && raw[k] == COMMA && IsElements(raw, k + 1, hi, items[1..]);
    var a, b :| p <= a <= b <= k && AllSpace(raw, p, a) && IsText(raw, a, b, items[0]) && AllSpace(raw, b, k);
    assert AllSpace(raw, pos, a);
    assert IsElement(raw, pos, k, items[0]);
  }

  lemma {:induction false} ElementSound(raw: seq<Byte>, pos: nat, depth: nat)
    requires pos <= |raw| && depth <= MAX_DEPTH && ReadValue(raw, pos, depth).Some?
    ensures var (v, e) := ReadValue(raw, pos, depth).value;
            && e <= SkipSpace(raw, e) && IsElement(raw, pos, SkipSpace(raw, e), v)
            && Nesting(v) + depth <= MAX_DEPTH && Distinct(v)
    decreases |raw| - pos, 1
  {
    hide ReadValue, IsText, Nesting, Distinct;
    ValueSound(raw, pos, depth);
    var (v, e) := ReadValue(raw, pos, depth).value;
    var a, q := SkipSpace(raw, pos), SkipSpace(raw, e);
    assert AllSpace(raw, pos, a) && IsText(raw, a, e, v) && AllSpace(raw, e, q);
  }

  /** The items read after acc, when the first of them is x. */
  lemma TailAfter<T>(items: seq<T>, acc: seq<T>, x: T)
    requires |acc| < |items| && items[..|acc| + 1] == acc + [x]
    ensures items[..|acc|] == acc
    ensures items[|acc|..][0] == x && items[|acc|..][1..] == items[|acc| + 1..]
    ensures items[|acc|..] == [x] + items[|acc| + 1..]
  {
    assert items[..|acc|] == items[..|acc| + 1][..|acc|];
    assert items[|acc|] == items[..|acc| + 1][|acc|];
  }

  lemma AddKey(acc: seq<Member>, m: Member)
    requires KeysDistinct(acc) && !KeyIn(acc, m.key)
    ensures KeysDistinct(acc + [m])
  {
  }

  lemma NewKey(acc: seq<Member>, members: seq<Member>)
    requires members != [] && KeysDistinct(acc + members)
    ensures !KeyIn(acc, members[0].key)
    ensures acc + members == (acc + [members[0]]) + members[1..]
  {
    var all := acc + members;
    assert all[|acc|] == members[0];
    assert forall i :: 0 <= i < |acc| ==> all[i] == acc[i];
  }

  lemma {:induction false} ElementsSound(raw: seq<Byte>, pos: nat, depth: nat, acc: seq<Value>)
    requires pos <= |raw| && depth <= MAX_DEPTH && ReadElements(raw, pos, depth, acc).Some?
    ensures var (items, e) := ReadElements(raw, pos, depth, acc).value;
            && |acc| < |items| && items[..|acc|] == acc && pos <= e - 1 && raw[e - 1] == RBRACKET
            && var read := items[|acc|..];
               IsElements(raw, pos, e - 1, read)
               && ItemNesting(read) + depth <= MAX_DEPTH && ItemsDistinct(read)
    decreases |raw| - pos, 2
  {
    hide ReadValue, Nesting, Distinct, IsElement, SkipSpace;
    ElementSound(raw, pos, depth);
    var (v, e1) := ReadValue(raw, pos, depth).value;
    var q := SkipSpace(raw, e1);
    var (items, e) := ReadElements(raw, pos, depth, acc).value;
    if raw[q] == RBRACKET {
      TailAfter(items, acc, v);
    } else {
      ElementsSound(raw, q + 1, depth, acc + [v]);
      TailAfter(items, acc, v);
    }
  }

  lemma {:induction false} ObjectSound(raw: seq<Byte>, pos: nat, depth: nat)
    requires pos <= |raw| && depth <= MAX_DEPTH && ReadObject(raw, pos, depth).Some?
    ensures var (v, e) := ReadObject(raw, pos, depth).value;
            && v.Object? && raw[e - 1] == RBRACE
            && (if v.members == [] then AllSpace(raw, pos, e - 1) else IsMembers(raw, pos, e - 1, v.members))
            && MemberNesting(v.members) + depth <= MAX_DEPTH
            && KeysDistinct(v.members) && MembersDistinct(v.members)
    decreases |raw| - pos, 3
  {
    hide ReadMembers, IsMembers;
    var p := SkipSpace(raw, pos);
    if !(p < |raw| && raw[p] == RBRACE) {
      MembersSound(raw, p, depth, []);
      var (members, e) := ReadMembers(raw, p, depth, []).value;
      assert members[0..] == members;
      WidenMembers(raw, pos, p, e - 1, members);
    }
  }

  lemma WidenMembers(raw: seq<Byte>, pos: nat, p: nat, hi: nat, members: seq<Member>)
    requires pos <= p <= hi <= |raw| && members != []
    requires AllSpace(raw, pos, p) && IsMembers(raw, p, hi, members)
    ensures IsMembers(raw, pos, hi, members)
  {
    hide IsString, IsElement;
    var k :| p <= k <= hi && IsMember(raw, p, k, members[0])
             && if |members| == 1 then k == hi
                else k < hi && raw[k] == COMMA && IsMembers(raw, k + 1, hi, members[1..]);
    var m := members[0];
    var a, b, c :| p <= a <= b <= c < k
                   && AllSpace(raw, p, a) && IsString(raw, a, b, m.key) && AllSpace(raw, b, c) && raw[c] == COLON
                   && IsElement(raw, c + 1, k, m.value);
    assert AllSpace(raw, pos, a);
    assert IsMember(raw, pos, k, m);
  }

  lemma {:induction false} MemberSound(raw: seq<Byte>, pos: nat, depth: nat)
    requires pos <= |raw| && depth <= MAX_DEPTH && ReadMember(raw, pos, depth).Some?
    ensures var (m, e) := ReadMember(raw, pos, depth).value;
            && e <= SkipSpace(raw, e) && IsMember(raw, pos, SkipSpace(raw, e), m)
            && Nesting(m.value) + depth <= MAX_DEPTH && Distinct(m.value)
    decreases |raw| - pos, 1
  {
    hide ReadValue, ReadQuoted, IsText, Nesting, Distinct, IsString;
    var (m, e) := ReadMember(raw, pos, depth).value;
    var a := SkipSpace(raw, pos);
    var k := ReadQuoted(raw, a).value.1;
    var c, q := SkipSpace(raw, k), SkipSpace(raw, e);
    QuotedExact(raw, a, k, m.key);
    ValueSound(raw, c + 1, depth);
    assert IsElement(raw, c + 1, q, m.value);
    assert AllSpace(raw, pos, a) && IsString(raw, a, k, m.key) && AllSpace(raw, k, c);
  }

  lemma {:induction false} MembersSound(raw: seq<Byte>, pos: nat, depth: nat, acc: seq<Member>)
    requires pos <= |raw| && depth <= MAX_DEPTH && ReadMembers(raw, pos, depth, acc).Some?
    requires KeysDistinct(acc)
    ensures var (members, e) := ReadMembers(raw, pos, depth, acc).value;
            && |acc| < |members| && members[..|acc|] == acc && pos <= e - 1 && raw[e - 1] == RBRACE
            && KeysDistinct(members)
            && var read := members[|acc|..];
               IsMembers(raw, pos, e - 1, read)
               && MemberNesting(read) + depth <= MAX_DEPTH && MembersDistinct(read)
    decreases |raw| - pos, 2
  {
    hide ReadMember, Nesting, Distinct, IsMember, KeysDistinct, KeyIn, SkipSpace;
    MemberSound(raw, pos, depth);
    var (m, e1) := ReadMember(raw, pos, depth).value;
    var q := SkipSpace(raw, e1);
    var (members, e) := ReadMembers(raw, pos, depth, acc).value;
    AddKey(acc, m);
    if raw[q] == RBRACE {
      TailAfter(members, acc, m);
    } else {
      MembersSound(raw, q + 1, depth, acc + [m]);
      TailAfter(members, acc, m);
    }
  }

  // ----- completeness

  /** A number text must end where the number bytes end; other texts end themselves. */
  predicate Stops(raw: seq<Byte>, e: nat, v: Value) {
    v.Number? && e < |raw| ==> !IsNumberByte(raw[e])
  }

  lemma {:induction false} NumberEndAt(raw: seq<Byte>, pos: nat, e: nat)
    requires pos <= e <= |raw| && (forall i :: pos <= i < e ==> IsNumberByte(raw[i]))
    requires e < |raw| ==> !IsNumberByte(raw[e])
    ensures NumberEnd(raw, pos) == e
    decreases e - pos
  {
    if pos < e {
      NumberEndAt(raw, pos + 1, e);
    }
  }

  lemma NumberComplete(raw: seq<Byte>, a: nat, e: nat, v: Value)
    requires a <= e <= |raw| && v.Number? && IsText(raw, a, e, v) && Stops(raw, e, v)
    ensures ReadNumber(raw, a) == Some((v, e))
  {
    NumberBytes(v.token);
    Decimal.ReadPartsExact(v.token);
    hide Decimal.Accepted, Decimal.ReadParts;
    forall i | a <= i < e ensures IsNumberByte(raw[i]) {
      assert raw[i] == raw[a..e][i - a];
    }
    NumberEndAt(raw, a, e);
  }

  lemma LiteralComplete(raw: seq<Byte>, a: nat, e: nat, v: Value)
    requires a <= e <= |raw| && (v.Null? || v.Bool?) && IsText(raw, a, e, v)
    ensures ReadLiteral(raw, a) == Some((v, e))
  {
    TextStart(raw, a, e, v);
    assert |raw[a..e]| == e - a;
    assert raw[a] == raw[a..e][0];
    assert StartsWith(raw, a, TRUE_TEXT) ==> raw[a] == raw[a..a + 4][0];
    assert StartsWith(raw, a, FALSE_TEXT) ==> raw[a] == raw[a..a + 5][0];
  }

  lemma {:induction false} ValueComplete(raw: seq<Byte>, pos: nat, a: nat, e: nat, v: Value, depth: nat)
    requires pos <= a <= e <= |raw| && AllSpace(raw, pos, a) && IsText(raw, a, e, v) && Stops(raw, e, v)
    requires Nesting(v) + depth <= MAX_DEPTH && Distinct(v)
    ensures ReadValue(raw, pos, depth) == Some((v, e))
    decreases v, 0
  {
    hide ReadArray, ReadObject, ReadQuoted, ReadLiteral, ReadNumber, IsElements, IsMembers, Unescape;
    TextStart(raw, a, e, v);
    SkipExact(raw, pos, a);
    match v
    case Null => LiteralComplete(raw, a, e, v);
    case Bool(_) => LiteralComplete(raw, a, e, v);
    case Number(_) => NumberComplete(raw, a, e, v);
    case Str(text) => QuotedExact(raw, a, e, text);
    case Array(items) => ArrayComplete(raw, a + 1, e - 1, items, depth + 1);
    case Object(members) => ObjectComplete(raw, a + 1, e - 1, members, depth + 1);
  }

  lemma {:induction false} ArrayComplete(raw: seq<Byte>, lo: nat, hi: nat, items: seq<Value>, depth: nat)
    requires lo <= hi < |raw| && raw[hi] == RBRACKET
    requires if items == [] then AllSpace(raw, lo, hi) else IsElements(raw, lo, hi, items)
    requires ItemNesting(items) + depth <= MAX_DEPTH && ItemsDistinct(items)
    ensures ReadArray(raw, lo, depth) == Some((Array(items), hi + 1))
    decreases items, 3
  {
    hide IsText, ReadElements;
    if items == [] {
      SkipExact(raw, lo, hi);
    } else {
      FirstElement(raw, lo, hi, items);
      ElementsComplete(raw, lo, hi, items, depth, []);
      ElementsSkip(raw, lo, depth, []);
      assert [] + items == items;
    }
  }

  lemma ElementsSkip(raw: seq<Byte>, lo: nat, depth: nat, acc: seq<Value>)
    requires lo <= |raw|
    ensures ReadElements(raw, SkipSpace(raw, lo), depth, acc) == ReadElements(raw, lo, depth, acc)
  {
    hide ReadValue;
    SkipTwice(raw, lo, depth);
  }

  /** A nonempty body does not start with the closing bracket. */
  lemma FirstElement(raw: seq<Byte>, lo: nat, hi: nat, items: seq<Value>)
    requires lo <= hi <= |raw| && items != [] && IsElements(raw, lo, hi, items)
    ensures SkipSpace(raw, lo) < |raw| && raw[SkipSpace(raw, lo)] != RBRACKET
  {
    hide IsText;
    var k :| lo <= k <= hi && IsElement(raw, lo, k, items[0]);
    var a, b :| lo <= a <= b <= k && AllSpace(raw, lo, a) && IsText(raw, a, b, items[0]) && AllSpace(raw, b, k);
    TextStart(raw, a, b, items[0]);
    SkipExact(raw, lo, a);
  }

  /** One element up to a comma or a closing bracket at k. */
  lemma {:induction false} ElementComplete(raw: seq<Byte>, lo: nat, k: nat, v: Value, depth: nat)
    requires lo <= k < |raw| && (raw[k] == COMMA || raw[k] == RBRACKET || raw[k] == RBRACE)
    requires IsElement(raw, lo, k, v) && Nesting(v) + depth <= MAX_DEPTH && Distinct(v)
    ensures ReadValue(raw, lo, depth).Some?
    ensures var (w, e) := ReadValue(raw, lo, depth).value;
            w == v && e <= k && SkipSpace(raw, e) == k
    decreases v, 1
  {
    hide IsText, ReadValue, Nesting, Distinct;
    var a, b :| lo <= a <= b <= k && AllSpace(raw, lo, a) && IsText(raw, a, b, v) && AllSpace(raw, b, k);
    assert IsSpace(raw[b]) || b == k;
    ValueComplete(raw, lo, a, b, v, depth);
    SkipExact(raw, b, k);
  }

  lemma {:induction false} ElementsComplete(raw: seq<Byte>, lo: nat, hi: nat, items: seq<Value>, depth: nat,
                                            acc: seq<Value>)
    requires lo <= hi < |raw| && raw[hi] == RBRACKET && items != [] && IsElements(raw, lo, hi, items)
    requires ItemNesting(items) + depth <= MAX_DEPTH && ItemsDistinct(items)
    ensures ReadElements(raw, lo, depth, acc) == Some((acc + items, hi + 1))
    decreases items, 2
  {
    hide IsElement, ReadValue, Nesting, Distinct;
    var k :| lo <= k <= hi && IsElement(raw, lo, k, items[0])
             && if |items| == 1 then k == hi
                else k < hi && raw[k] == COMMA && IsElements(raw, k + 1, hi, items[1..]);
    ElementComplete(raw, lo, k, items[0], depth);
    if |items| == 1 {
      assert acc + [items[0]] == acc + items;
    } else {
      ElementsComplete(raw, k + 1, hi, items[1..], depth, acc + [items[0]]);
      assert (acc + [items[0]]) + items[1..] == acc + items;
    }
  }

  lemma {:induction false} ObjectComplete(raw: seq<Byte>, lo: nat, hi: nat, members: seq<Member>, depth: nat)
    requires lo <= hi < |raw| && raw[hi] == RBRACE
    requires if members == [] then AllSpace(raw, lo, hi) else IsMembers(raw, lo, hi, members)
    requires MemberNesting(members) + depth <= MAX_DEPTH && MembersDistinct(members) && KeysDistinct(members)
    ensures ReadObject(raw, lo, depth) == Some((Object(members), hi + 1))
    decreases members, 3
  {
    hide IsString, ReadMembers;
    if members == [] {
      SkipExact(raw, lo, hi);
    } else {
      FirstMember(raw, lo, hi, members);
      assert [] + members == members;
      MembersComplete(raw, lo, hi, members, depth, []);
      MembersSkip(raw, lo, depth, []);
    }
  }

  lemma MembersSkip(raw: seq<Byte>, lo: nat, depth: nat, acc: seq<Member>)
    requires lo <= |raw|
    ensures ReadMembers(raw, SkipSpace(raw, lo), depth, acc) == ReadMembers(raw, lo, depth, acc)
  {
    hide ReadValue, ReadQuoted, KeyIn;
    SkipExact(raw, SkipSpace(raw, lo), SkipSpace(raw, lo));
  }

  lemma FirstMember(raw: seq<Byte>, lo: nat, hi: nat, members: seq<Member>)
    requires lo <= hi <= |raw| && members != [] && IsMembers(raw, lo, hi, members)
    ensures SkipSpace(raw, lo) < |raw| && raw[SkipSpace(raw, lo)] != RBRACE
  {
    hide IsElement, Unescape;
    var k :| lo <= k <= hi && IsMember(raw, lo, k, members[0]);
    var m := members[0];
    var a, b, c :| lo <= a <= b <= c < k
                   && AllSpace(raw, lo, a) && IsString(raw, a, b, m.key) && AllSpace(raw, b, c) && raw[c] == COLON
                   && IsElement(raw, c + 1, k, m.value);
    SkipExact(raw, lo, a);
  }

  /** One member up to a comma or a closing brace at k. */
  lemma {:induction false} MemberComplete(raw: seq<Byte>, lo: nat, k: nat, m: Member, depth: nat)
    requires lo <= k < |raw| && (raw[k] == COMMA || raw[k] == RBRACE)
    requires IsMember(raw, lo, k, m) && Nesting(m.value) + depth <= MAX_DEPTH && Distinct(m.value)
    ensures ReadMember(raw, lo, depth).Some?
    ensures var (w, e) := ReadMember(raw, lo, depth).value;
            w == m && e <= k && SkipSpace(raw, e) == k
    decreases m, 1
  {
    hide IsElement, IsString, ReadValue, ReadQuoted, Nesting, Distinct, AllSpace, SkipSpace;
    var a, b, c :| lo <= a <= b <= c < k
                   && AllSpace(raw, lo, a) && IsString(raw, a, b, m.key) && AllSpace(raw, b, c) && raw[c] == COLON
                   && IsElement(raw, c + 1, k, m.value);
    KeyPlace(raw, lo, a, b, c, m.key);
    ElementComplete(raw, c + 1, k, m.value, depth);
  }

  lemma {:induction false} MembersComplete(raw: seq<Byte>, lo: nat, hi: nat, members: seq<Member>, depth: nat,
                                           acc: seq<Member>)
    requires lo <= hi < |raw| && raw[hi] == RBRACE && members != [] && IsMembers(raw, lo, hi, members)
    requires MemberNesting(members) + depth <= MAX_DEPTH && MembersDistinct(members) && KeysDistinct(acc + members)
    ensures ReadMembers(raw, lo, depth, acc) == Some((acc + members, hi + 1))
    decreases members, 2
  {
    hide IsMember, ReadMember, Nesting, Distinct, KeysDistinct, KeyIn, SkipSpace;
    var k :| lo <= k <= hi && IsMember(raw, lo, k, members[0])
             && if |members| == 1 then k == hi
                else k < hi && raw[k] == COMMA && IsMembers(raw, k + 1, hi, members[1..]);
    var m := members[0];
    MemberComplete(raw, lo, k, m, depth);
    NewKey(acc, members);
    if |members| == 1 {
      assert acc + [m] == acc + members;
    } else {
      MembersComplete(raw, k + 1, hi, members[1..], depth, acc + [m]);
    }
  }

  lemma KeyPlace(raw: seq<Byte>, lo: nat, a: nat, b: nat, c: nat, key: seq<Byte>)
    requires lo <= a <= b <= c < |raw| && AllSpace(raw, lo, a) && IsString(raw, a, b, key)
    requires AllSpace(raw, b, c) && raw[c] == COLON
    ensures SkipSpace(raw, lo) == a && ReadQuoted(raw, a) == Some((key, b)) && SkipSpace(raw, b) == c
  {
    hide Unescape, ReadQuoted;
    QuotedExact(raw, a, b, key);
    SkipExact(raw, lo, a);
    SkipExact(raw, b, c);
  }

  // ----- the document

  /** The reader accepts exactly the documents, and reads the value each denotes. */
  lemma DocumentExact(raw: seq<Byte>, v: Value)
    ensures ReadDocument(raw) == Some(v) <==> IsDocument(raw, v)
  {
    hide ReadValue, IsText, Nesting, Distinct, Utf8.Valid;
    if ReadDocument(raw) == Some(v) {
      ValueSound(raw, 0, 0);
      var e := ReadValue(raw, 0, 0).value.1;
      assert AllSpace(raw, 0, SkipSpace(raw, 0)) && IsText(raw, SkipSpace(raw, 0), e, v) && AllSpace(raw, e, |raw|);
    }
    if IsDocument(raw, v) {
      var a, b :| 0 <= a <= b <= |raw| && AllSpace(raw, 0, a) && IsText(raw, a, b, v) && AllSpace(raw, b, |raw|);
      assert b < |raw| ==> IsSpace(raw[b]);
      ValueComplete(raw, 0, a, b, v, 0);
      SkipExact(raw, b, |raw|);
    }
  }

  /** A document denotes one value only. */
  lemma DocumentUnique(raw: seq<Byte>, v: Value, w: Value)
    requires IsDocument(raw, v) && IsDocument(raw, w)
    ensures v == w
  {
    hide ReadDocument, IsDocument;
    DocumentExact(raw, v);
    DocumentExact(raw, w);
  }
}
