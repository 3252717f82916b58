/** JSON values and a reader for JSON texts, after sections 2 to 7 of RFC 8259. */
module JsonText {
  import opened Prelude

  /**
   Values the updater's formatter can meet. A number is its decimal text; `NonFinite` is a JavaScript
   number that has no JSON text, `Undefined` a missing value. Objects list their members in order.
   */
  datatype Json =
    | JNull
    | Undefined
    | JBool(b: bool)
    | JNum(text: string)
    | NonFinite(text: string)
    | JStr(s: string)
    | JArr(items: seq<Json>)
    | JObj(members: seq<Member>)

  datatype Member = Member(key: string, value: Json)

  datatype Parsed<T> = Fail | Got(value: T, rest: string)

  // ---------- section 2: white space ----------

  predicate IsWs(c: char) {
    c == ' ' || c == '\t' || c == '\n' || c == '\r'
  }

  predicate AllWs(s: string) {
    forall c <- s :: IsWs(c)
  }

  function SkipWs(s: string): (r: string)
    ensures |r| <= |s| && (r != [] ==> !IsWs(r[0]))
  {
    if s != [] && IsWs(s[0]) then SkipWs(s[1..]) else s
  }

  predicate Starts(s: string, c: char) {
    s != [] && s[0] == c
  }

  // ---------- section 6: numbers ----------

  predicate IsDigit(c: char) {
    '0' <= c <= '9'
  }

  /** How many characters at the front of `s` are digits. */
  function Digits(s: string): (n: nat)
    ensures n <= |s|
  {
    if s != [] && IsDigit(s[0]) then 1 + Digits(s[1..]) else 0
  }

  function IntLen(s: string): (n: nat)
    ensures n <= |s|
  {
    if Starts(s, '0') then 1 else Digits(s)
  }

  function FracLen(s: string): (n: nat)
    ensures n <= |s|
  {
    if Starts(s, '.') && Digits(s[1..]) > 0 then 1 + Digits(s[1..]) else 0
  }

  function ExpLen(s: string): (n: nat)
    ensures n <= |s|
  {
    if Starts(s, 'e') || Starts(s, 'E') then
      var sign := if Starts(s[1..], '+') || Starts(s[1..], '-') then 1 else 0;
      var d := Digits(s[1 + sign..]);
      if d > 0 then 1 + sign + d else 0
    else 0
  }

  /** Fraction and exponent, either of which may be missing. */
  function TailLen(s: string): (n: nat)
    ensures n <= |s|
  {
    FracLen(s) + ExpLen(s[FracLen(s)..])
  }

  function UnsignedLen(s: string): (n: nat)
    ensures n <= |s|
  {
    if IntLen(s) == 0 then 0 else IntLen(s) + TailLen(s[IntLen(s)..])
  }

  /** The length of the longest number at the front of `s`, 0 if there is none. */
  function NumLen(s: string): (n: nat)
    ensures n <= |s|
  {
    if Starts(s, '-') then (if UnsignedLen(s[1..]) == 0 then 0 else 1 + UnsignedLen(s[1..]))
    else UnsignedLen(s)
  }

  // ---------- section 7: strings ----------

  function HexValue(c: char): (v: nat)
    ensures v <= 16
  {
    if '0' <= c <= '9' then c as int - '0' as int
    else if 'a' <= c <= 'f' then c as int - 'a' as int + 10
    else if 'A' <= c <= 'F' then c as int - 'A' as int + 10
    else 16
  }

  /** The value of four hexadecimal digits; 0x10000 if `s` does not start with four. */
  function Hex4(s: string): (v: nat)
    ensures v <= 0x10000
  {
    if |s| < 4 || exists i :: 0 <= i < 4 && HexValue(s[i]) == 16 then 0x10000
    else HexValue(s[0]) * 4096 + HexValue(s[1]) * 256 + HexValue(s[2]) * 16 + HexValue(s[3])
  }

  predicate IsHigh(v: nat) { 0xD800 <= v < 0xDC00 }
  predicate IsLow(v: nat) { 0xDC00 <= v < 0xE000 }

  /** What follows a backslash: the character meant, and how many characters say so. */
  function Unescape(s: string): Option<(char, nat)> {
    if s == [] then None
    else match s[0]
      case '"' => Some(('"', 1))
      case '\\' => Some(('\\', 1))
      case '/' => Some(('/', 1))
      case 'b' => Some(('\U{8}', 1))
      case 'f' => Some(('\U{c}', 1))
      case 'n' => Some(('\n', 1))
      case 'r' => Some(('\r', 1))
      case 't' => Some(('\t', 1))
      case 'u' => UnescapeUnicode(s)
      case _ => None
  }

  function UnescapeUnicode(s: string): Option<(char, nat)>
    requires s != []
  {
    var v := Hex4(s[1..]);
    if v == 0x10000 || IsLow(v) then None
    else if !IsHigh(v) then Some((v as char, 5))
    else if |s| < 11 || s[5] != '\\' || s[6] != 'u' || !IsLow(Hex4(s[7..])) then None
    else Some(((0x10000 + (v - 0xD800) * 0x400 + (Hex4(s[7..]) - 0xDC00)) as char, 11))
  }

  /** An escape lies inside the text, and no quote is part of it unless it is the escape of a quote. */
  lemma {:induction false} UnescapeShape(s: string)
    requires Unescape(s).Some?
    ensures 1 <= Unescape(s).value.1 <= |s|
    ensures forall j :: 0 <= j < Unescape(s).value.1 && s[j] == '"' ==> j == 0 && Unescape(s).value.0 == '"'
  {
    if s[0] == 'u' {
      assert forall i :: 0 <= i < 4 ==> HexValue(s[1..][i]) < 16;
      assert forall i :: 1 <= i < 5 ==> s[i] == s[1..][i - 1];
      if Unescape(s).value.1 == 11 {
        assert forall i :: 0 <= i < 4 ==> HexValue(s[7..][i]) < 16;
        assert forall i :: 7 <= i < 11 ==> s[i] == s[7..][i - 7];
      }
    }
  }

  /** The characters up to the closing quote; the opening one is already read. */
  function ReadString(s: string): (r: Parsed<string>)
    ensures r.Got? ==> |r.rest| < |s|
    decreases |s|
  {
    if s == [] || s[0] < ' ' then Fail
    else if s[0] == '"' then Got("", s[1..])
    else if s[0] == '\\' then
      var e := Unescape(s[1..]);
      if e.None? then Fail
      else
        UnescapeShape(s[1..]);
        Prefixed(e.value.0, ReadString(s[1 + e.value.1..]))
    else Prefixed(s[0], ReadString(s[1..]))
  }

  function Prefixed(c: char, r: Parsed<string>): Parsed<string> {
    if r.Fail? then Fail else Got([c] + r.value, r.rest)
  }

  // ---------- sections 3 to 5: values, objects, arrays ----------

  function ReadWord(s: string, word: string, v: Json): (r: Parsed<Json>)
    requires word != []
    ensures r.Got? ==> |r.rest| < |s|
  {
    if word <= s then Got(v, s[|word|..]) else Fail
  }

  function ReadNum(s: string): (r: Parsed<Json>)
    ensures r.Got? ==> |r.rest| < |s|
  {
    if NumLen(s) > 0 then Got(JNum(s[..NumLen(s)]), s[NumLen(s)..]) else Fail
  }

  function ReadValue(text: string): (r: Parsed<Json>)
    ensures r.Got? ==> |r.rest| < |text|
    decreases |text|, 5
  {
    ReadAt(SkipWs(text))
  }

  /** A value at the very front of the text; its first character says of which kind. */
  function ReadAt(s: string): (r: Parsed<Json>)
    ensures r.Got? ==> |r.rest| < |s|
    decreases |s|, 4
  {
    if s == [] then Fail
    else if s[0] == 'n' then ReadWord(s, "null", JNull)
    else if s[0] == 't' then ReadWord(s, "true", JBool(true))
    else if s[0] == 'f' then ReadWord(s, "false", JBool(false))
    else if s[0] == '"' then ReadQuoted(s)
    else if s[0] == '[' then ReadArrayAt(s)
    else if s[0] == '{' then ReadObjectAt(s)
    else ReadNum(s)
  }

  function ReadQuoted(s: string): (r: Parsed<Json>)
    requires s != []
    ensures r.Got? ==> |r.rest| < |s|
  {
    var r := ReadString(s[1..]);
    if r.Fail? then Fail else Got(JStr(r.value), r.rest)
  }

  function ReadArrayAt(s: string): (r: Parsed<Json>)
    requires s != []
    ensures r.Got? ==> |r.rest| < |s|
    decreases |s|, 3
  {
    if Starts(SkipWs(s[1..]), ']') then Got(JArr([]), SkipWs(s[1..])[1..])
    else
      var r := ReadItems(s[1..]);
      if r.Fail? then Fail else Got(JArr(r.value), r.rest)
  }

  function ReadObjectAt(s: string): (r: Parsed<Json>)
    requires s != []
    ensures r.Got? ==> |r.rest| < |s|
    decreases |s|, 3
  {
    if Starts(SkipWs(s[1..]), '}') then Got(JObj([]), SkipWs(s[1..])[1..])
    else
      var r := ReadMembers(s[1..]);
      if r.Fail? then Fail else Got(JObj(r.value), r.rest)
  }

  function ReadItems(text: string): (r: Parsed<seq<Json>>)
    ensures r.Got? ==> |r.rest| < |text|
    decreases |text|, 6
  {
    var v := ReadValue(text);
    if v.Fail? then Fail
    else
      var s := SkipWs(v.rest);
      if Starts(s, ']') then Got([v.value], s[1..])
      else if Starts(s, ',') then
        var more := ReadItems(s[1..]);
        if more.Fail? then Fail else Got([v.value] + more.value, more.rest)
      else Fail
  }

  function ReadMember(text: string): (r: Parsed<Member>)
    ensures r.Got? ==> |r.rest| < |text|
    decreases |text|, 7
  {
    var s := SkipWs(text);
    if !Starts(s, '"') then Fail
    else
      var k := ReadString(s[1..]);
      if k.Fail? then Fail else ReadMemberValue(k.value, SkipWs(k.rest))
  }

  function ReadMemberValue(key: string, s: string): (r: Parsed<Member>)
    ensures r.Got? ==> |r.rest| < |s|
    decreases |s|, 6
  {
    if !Starts(s, ':') then Fail
    else
      var v := ReadValue(s[1..]);
      if v.Fail? then Fail else Got(Member(key, v.value), v.rest)
  }

  function ReadMembers(text: string): (r: Parsed<seq<Member>>)
    ensures r.Got? ==> |r.rest| < |text|
    decreases |text|, 8
  {
    var m := ReadMember(text);
    if m.Fail? then Fail
    else
      var s := SkipWs(m.rest);
      if Starts(s, '}') then Got([m.value], s[1..])
      else if Starts(s, ',') then
        var more := ReadMembers(s[1..]);
        if more.Fail? then Fail else Got([m.value] + more.value, more.rest)
      else Fail
  }

  /** A whole JSON text is one value with white space around it. */
  function ReadText(s: string): Option<Json> {
    var r := ReadValue(s);
    if r.Got? && SkipWs(r.rest) == [] then Some(r.value) else None
  }

  // ---------- facts ----------

  lemma {:induction false} SkipOver(ws: string, s: string)
    requires AllWs(ws)
    ensures SkipWs(ws + s) == SkipWs(s)
  {
    if ws == [] {
      assert ws + s == s;
    } else {
      SkipOver(ws[1..], s);
      assert (ws + s)[1..] == ws[1..] + s;
    }
  }

  lemma {:induction false} SkipNone(s: string)
    requires s != [] && !IsWs(s[0])
    ensures SkipWs(s) == s
  {}

  lemma {:induction false} AtFront(s: string)
    requires s != [] && !IsWs(s[0])
    ensures ReadValue(s) == ReadAt(s)
  {
    SkipNone(s);
  }

  lemma {:induction false} ReadOver(ws: string, s: string)
    requires AllWs(ws)
    ensures ReadValue(ws + s) == ReadValue(s)
    ensures ReadMember(ws + s) == ReadMember(s)
    ensures ReadItems(ws + s) == ReadItems(s)
    ensures ReadMembers(ws + s) == ReadMembers(s)
  {
    SkipOver(ws, s);
  }

  /** What may follow a number without being taken for a part of it. */
  predicate Stops(s: string) {
    s != [] ==> !IsDigit(s[0]) && s[0] != '.' && s[0] != 'e' && s[0] != 'E' && s[0] != '+' && s[0] != '-'
  }

  lemma {:induction false} DigitsAppend(t: string, rest: string)
    requires rest != [] ==> !IsDigit(rest[0])
    ensures Digits(t + rest) == Digits(t)
  {
    if t == [] {
      assert t + rest == rest;
    } else if IsDigit(t[0]) {
      DigitsAppend(t[1..], rest);
      assert (t + rest)[1..] == t[1..] + rest;
    }
  }

  lemma {:induction false} ExpAppend(t: string, rest: string)
    requires Stops(rest)
    ensures ExpLen(t + rest) == ExpLen(t)
  {
    if t == [] {
      assert t + rest == rest;
    } else {
      assert (t + rest)[1..] == t[1..] + rest;
      var sign := if Starts(t[1..], '+') || Starts(t[1..], '-') then 1 else 0;
      DigitsAppend(t[1 + sign..], rest);
      assert (t + rest)[1 + sign..] == t[1 + sign..] + rest;
    }
  }

  lemma {:induction false} FracAppend(t: string, rest: string)
    requires Stops(rest)
    ensures FracLen(t + rest) == FracLen(t)
  {
    if t == [] {
      assert t + rest == rest;
    } else {
      DigitsAppend(t[1..], rest);
      assert (t + rest)[1..] == t[1..] + rest;
    }
  }

  lemma {:induction false} TailAppend(t: string, rest: string)
    requires Stops(rest)
    ensures TailLen(t + rest) == TailLen(t)
  {
    FracAppend(t, rest);
    var f := FracLen(t);
    assert (t + rest)[f..] == t[f..] + rest;
    ExpAppend(t[f..], rest);
  }

  lemma {:induction false} IntAppend(t: string, rest: string)
    requires Stops(rest)
    ensures IntLen(t + rest) == IntLen(t)
  {
    DigitsAppend(t, rest);
  }

  lemma {:induction false} UnsignedAppend(t: string, rest: string)
    requires Stops(rest)
    ensures UnsignedLen(t + rest) == UnsignedLen(t)
  {
    IntAppend(t, rest);
    var i := IntLen(t);
    assert (t + rest)[i..] == t[i..] + rest;
    TailAppend(t[i..], rest);
  }

  lemma {:induction false} SignedAppend(t: string, rest: string)
    requires Stops(rest) && Starts(t, '-')
    ensures NumLen(t + rest) == NumLen(t)
  {
    UnsignedAppend(t[1..], rest);
    assert (t + rest)[1..] == t[1..] + rest;
  }

  lemma {:induction false} NumAppend(t: string, rest: string)
    requires Stops(rest)
    ensures NumLen(t + rest) == NumLen(t)
  {
    if Starts(t, '-') {
      SignedAppend(t, rest);
    } else {
      assert !Starts(t + rest, '-');
      UnsignedAppend(t, rest);
    }
  }


  // ---------- one reading step at a time ----------

  lemma {:induction false} ItemsLast(text: string, v: Json, after: string, rest: string)
    requires ReadValue(text) == Got(v, after + ("]" + rest)) && AllWs(after)
    ensures ReadItems(text) == Got([v], rest)
  {
    SkipOver(after, "]" + rest);
  }

  lemma {:induction false} ItemsNext(text: string, v: Json, gap: string, next: string)
    requires ReadValue(text) == Got(v, "," + (gap + next)) && AllWs(gap)
    ensures var more := ReadItems(next);
      ReadItems(text) == if more.Fail? then Fail else Got([v] + more.value, more.rest)
  {
    assert ("," + (gap + next))[1..] == gap + next;
    ReadOver(gap, next);
  }

  lemma {:induction false} MembersLast(text: string, m: Member, after: string, rest: string)
    requires ReadMember(text) == Got(m, after + ("}" + rest)) && AllWs(after)
    ensures ReadMembers(text) == Got([m], rest)
  {
    SkipOver(after, "}" + rest);
  }

  lemma {:induction false} MembersNext(text: string, m: Member, gap: string, next: string)
    requires ReadMember(text) == Got(m, "," + (gap + next)) && AllWs(gap)
    ensures var more := ReadMembers(next);
      ReadMembers(text) == if more.Fail? then Fail else Got([m] + more.value, more.rest)
  {
    assert ("," + (gap + next))[1..] == gap + next;
    ReadOver(gap, next);
  }

  lemma {:induction false} MemberOpen(indent: string, inner: string)
    requires AllWs(indent)
    ensures var k := ReadString(inner);
      ReadMember(indent + ("\"" + inner)) == if k.Fail? then Fail else ReadMemberValue(k.value, SkipWs(k.rest))
  {
    SkipOver(indent, "\"" + inner);
    SkipNone("\"" + inner);
    assert ("\"" + inner)[1..] == inner;
  }

  lemma {:induction false} ColonValue(key: string, value: string)
    ensures var v := ReadValue(value);
      ReadMemberValue(key, ": " + value) == if v.Fail? then Fail else Got(Member(key, v.value), v.rest)
  {
    assert (": " + value)[1..] == " " + value;
    ReadOver(" ", value);
  }

  /** A member whose key was read in full up to the colon. */
  lemma {:induction false} MemberValue(indent: string, inner: string, key: string, value: string)
    requires AllWs(indent) && ReadString(inner) == Got(key, ": " + value)
    ensures var v := ReadValue(value);
      ReadMember(indent + ("\"" + inner)) == if v.Fail? then Fail else Got(Member(key, v.value), v.rest)
  {
    MemberOpen(indent, inner);
    SkipNone(": " + value);
    ColonValue(key, value);
  }

  lemma {:induction false} ArrayItems(lead: string, body: string)
    requires AllWs(lead) && !Starts(SkipWs(body), ']')
    ensures var r := ReadItems(body);
      ReadValue("[" + (lead + body)) == if r.Fail? then Fail else Got(JArr(r.value), r.rest)
  {
    var t := "[" + (lead + body);
    AtFront(t);
    assert ReadAt(t) == ReadArrayAt(t);
    assert t[1..] == lead + body;
    SkipOver(lead, body);
    ReadOver(lead, body);
  }

  lemma {:induction false} ObjectMembers(lead: string, body: string)
    requires AllWs(lead) && !Starts(SkipWs(body), '}')
    ensures var r := ReadMembers(body);
      ReadValue("{" + (lead + body)) == if r.Fail? then Fail else Got(JObj(r.value), r.rest)
  {
    var t := "{" + (lead + body);
    AtFront(t);
    assert ReadAt(t) == ReadObjectAt(t);
    assert t[1..] == lead + body;
    SkipOver(lead, body);
    ReadOver(lead, body);
  }

  lemma {:induction false} EmptyBrackets(rest: string)
    ensures ReadValue("[]" + rest) == Got(JArr([]), rest)
    ensures ReadValue("{}" + rest) == Got(JObj([]), rest)
  {
    var a, o := "[]" + rest, "{}" + rest;
    AtFront(a);
    AtFront(o);
    assert a[1..] == "]" + rest && o[1..] == "}" + rest;
    SkipNone("]" + rest);
    SkipNone("}" + rest);
    assert ReadAt(a) == ReadArrayAt(a) && ReadAt(o) == ReadObjectAt(o);
  }

  lemma {:induction false} QuotedValue(inner: string, s: string, rest: string)
    requires ReadString(inner) == Got(s, rest)
    ensures ReadValue("\"" + inner) == Got(JStr(s), rest)
  {
    assert ("\"" + inner)[1..] == inner;
  }

  lemma {:induction false} NumFirst(t: string)
    requires NumLen(t) > 0
    ensures t[0] == '-' || IsDigit(t[0])
  {}

  lemma {:induction false} NotANumber(t: string)
    requires t != [] && (t[0] == 'N' || t[0] == 'I' || (|t| > 1 && t[0] == '-' && t[1] == 'I'))
    ensures NumLen(t) == 0
  {
    if t[0] == '-' {
      assert t[1..][0] == 'I' && IntLen(t[1..]) == 0;
    } else {
      assert IntLen(t) == 0;
    }
  }

  lemma {:induction false} NumberAt(s: string)
    requires s != [] && s[0] != 'n' && s[0] != 't' && s[0] != 'f' && s[0] != '"' && s[0] != '[' && s[0] != '{'
    ensures ReadAt(s) == ReadNum(s)
  {}

  lemma {:induction false} ReadNumber(s: string)
    requires s != [] && (s[0] == '-' || IsDigit(s[0]) || s[0] == 'N' || s[0] == 'I')
    ensures ReadValue(s) == ReadNum(s)
  {
    AtFront(s);
    NumberAt(s);
  }

  lemma {:induction false} NumberValue(t: string, rest: string)
    requires NumLen(t) == |t| > 0 && Stops(rest)
    ensures ReadValue(t + rest) == Got(JNum(t), rest)
  {
    NumAppend(t, rest);
    NumFirst(t);
    ReadNumber(t + rest);
    assert (t + rest)[..|t|] == t && (t + rest)[|t|..] == rest;
  }

  lemma {:induction false} WordValues(rest: string)
    ensures ReadValue("null" + rest) == Got(JNull, rest)
    ensures ReadValue("true" + rest) == Got(JBool(true), rest)
    ensures ReadValue("false" + rest) == Got(JBool(false), rest)
  {}
}
