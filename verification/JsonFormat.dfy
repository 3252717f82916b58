/** The OpenRPC updater's `JsonFormatter` and line-ending rewrite. */
module JsonFormat {
  import opened Prelude
  import opened JsonText

  /** The indentation unit and the line ending; the source formats with two spaces and "\n". */
  datatype Layout = Layout(indent: string, eol: string)

  predicate ValidLayout(lay: Layout) {
    AllWs(lay.indent) && AllWs(lay.eol)
  }

  function Repeat(s: string, n: nat): string {
    if n == 0 then "" else s + Repeat(s, n - 1)
  }

  function HexDigit(n: nat): char
    requires n < 16
  {
    if n < 10 then ('0' as int + n) as char else ('a' as int + n - 10) as char
  }

  /** `JSON.stringify` on one character of a string. */
  function EscapeChar(c: char): string {
    if c == '"' then "\\\""
    else if c == '\\' then "\\\\"
    else if c == '\U{8}' then "\\b"
    else if c == '\U{c}' then "\\f"
    else if c == '\n' then "\\n"
    else if c == '\r' then "\\r"
    else if c == '\t' then "\\t"
    else if c < ' ' then ['\\', 'u', '0', '0', HexDigit(c as int / 16), HexDigit(c as int % 16)]
    else [c]
  }

  function Escape(s: string): string {
    if s == [] then "" else EscapeChar(s[0]) + Escape(s[1..])
  }

  /** A string's length in UTF-16 code units, which is what JavaScript compares with 40. */
  function JsLength(s: string): nat {
    if s == [] then 0 else (if s[0] as int > 0xFFFF then 2 else 1) + JsLength(s[1..])
  }

  predicate IsCompactable(v: Json) {
    match v
    case JStr(s) => JsLength(s) < 40
    case JNum(_) => true
    case NonFinite(_) => true
    case JBool(_) => true
    case _ => false
  }

  predicate UsesCompact(items: seq<Json>) {
    |items| <= 8 && forall v <- items :: IsCompactable(v)
  }

  function Format(v: Json, lay: Layout, level: nat): string
    decreases v, 1
  {
    match v
    case JNull => "null"
    case Undefined => "null"
    case JBool(b) => if b then "true" else "false"
    case JNum(text) => text
    case NonFinite(text) => text
    case JStr(s) => "\"" + Escape(s) + "\""
    case JArr(items) =>
      if items == [] then "[]"
      else if UsesCompact(items) then "[" + FormatItems(items, lay, level + 1, "", " ") + "]"
      else
        "[" + lay.eol + FormatItems(items, lay, level + 1, Repeat(lay.indent, level + 1), lay.eol)
        + lay.eol + Repeat(lay.indent, level) + "]"
    case JObj(members) =>
      if members == [] then "{}"
      else "{" + lay.eol + FormatMembers(members, lay, level + 1) + lay.eol + Repeat(lay.indent, level) + "}"
  }

  /** Items joined by a comma and `gap`, each with `before` in front. */
  function FormatItems(items: seq<Json>, lay: Layout, level: nat, before: string, gap: string): string
    requires items != []
    decreases items, 0
  {
    before + Format(items[0], lay, level)
    + (if |items| == 1 then "" else "," + gap + FormatItems(items[1..], lay, level, before, gap))
  }

  function FormatMember(m: Member, lay: Layout, level: nat): string
    decreases m, 1
  {
    Repeat(lay.indent, level) + "\"" + m.key + "\": " + Format(m.value, lay, level)
  }

  function FormatMembers(members: seq<Member>, lay: Layout, level: nat): string
    requires members != []
    decreases members, 0
  {
    FormatMember(members[0], lay, level)
    + (if |members| == 1 then "" else "," + lay.eol + FormatMembers(members[1..], lay, level))
  }

  // ---------- which values have a JSON text ----------

  /** Numbers are what `String(number)` writes. */
  predicate WellFormed(v: Json) {
    match v
    case JNum(text) => NumLen(text) == |text| > 0
    case NonFinite(text) => text == "NaN" || text == "Infinity" || text == "-Infinity"
    case JArr(items) => forall i :: 0 <= i < |items| ==> WellFormed(items[i])
    case JObj(members) => forall i :: 0 <= i < |members| ==> WellFormed(members[i].value)
    case _ => true
  }

  predicate IsPlain(c: char) {
    c >= ' ' && c != '"' && c != '\\'
  }

  /** A key that `JSON.stringify` would write unchanged; the formatter writes every key unchanged. */
  predicate CleanKey(k: string) {
    forall i :: 0 <= i < |k| ==> IsPlain(k[i])
  }

  /** No key needs escaping, nothing is undefined and no number is NaN or infinite. */
  predicate Clean(v: Json) {
    match v
    case Undefined => false
    case NonFinite(_) => false
    case JArr(items) => forall i :: 0 <= i < |items| ==> Clean(items[i])
    case JObj(members) => forall i :: 0 <= i < |members| ==> CleanKey(members[i].key) && Clean(members[i].value)
    case _ => true
  }

  // ---------- strings ----------

  lemma {:induction false} ShortEscape(e: char, c: char, s: string)
    requires Unescape([e] + s) == Some((c, 1))
    ensures ReadString(['\\', e] + s) == Prefixed(c, ReadString(s))
  {
    var t := ['\\', e] + s;
    assert t[1..] == [e] + s && t[2..] == s;
  }

  lemma {:induction false} HexEscape(a: char, b: char, s: string)
    requires HexValue(a) < 16 && HexValue(b) < 16
    ensures ReadString(['\\', 'u', '0', '0', a, b] + s)
         == Prefixed((HexValue(a) * 16 + HexValue(b)) as char, ReadString(s))
  {
    var t := ['\\', 'u', '0', '0', a, b] + s;
    assert t[1..][1..] == ['0', '0', a, b] + s;
    assert Hex4(t[1..][1..]) == HexValue(a) * 16 + HexValue(b);
    assert t[6..] == s;
  }

  lemma {:induction false} NoEscape(c: char, s: string)
    requires IsPlain(c)
    ensures ReadString([c] + s) == Prefixed(c, ReadString(s))
  {
    assert ([c] + s)[1..] == s;
  }

  lemma {:induction false} HexDigits(n: nat)
    requires n < 32
    ensures HexValue(HexDigit(n / 16)) * 16 + HexValue(HexDigit(n % 16)) == n
    ensures HexValue(HexDigit(n / 16)) < 16 && HexValue(HexDigit(n % 16)) < 16
  {}

  lemma {:induction false} ShortForm(c: char, s: string)
    requires |EscapeChar(c)| == 2
    ensures EscapeChar(c) == ['\\', EscapeChar(c)[1]] && Unescape([EscapeChar(c)[1]] + s) == Some((c, 1))
  {}

  lemma {:induction false} LongForm(c: char)
    requires !IsPlain(c) && |EscapeChar(c)| != 2
    ensures c < ' ' && EscapeChar(c) == ['\\', 'u', '0', '0', HexDigit(c as int / 16), HexDigit(c as int % 16)]
  {}

  lemma {:induction false} EscapeOne(c: char, s: string)
    ensures ReadString(EscapeChar(c) + s) == Prefixed(c, ReadString(s))
  {
    if IsPlain(c) {
      assert EscapeChar(c) == [c];
      NoEscape(c, s);
    } else if |EscapeChar(c)| == 2 {
      ShortForm(c, s);
      ShortEscape(EscapeChar(c)[1], c, s);
    } else {
      LongForm(c);
      HexDigits(c as int);
      HexEscape(HexDigit(c as int / 16), HexDigit(c as int % 16), s);
    }
  }

  lemma {:induction false} EscapeHead(s: string, rest: string)
    requires s != []
    ensures Escape(s) + "\"" + rest == EscapeChar(s[0]) + (Escape(s[1..]) + "\"" + rest)
  {}

  lemma {:induction false} ClosingQuote(rest: string)
    ensures ReadString("\"" + rest) == Got("", rest)
  {
    assert ("\"" + rest)[1..] == rest;
  }

  lemma {:induction false} StringRoundTrip(s: string, rest: string)
    ensures ReadString(Escape(s) + "\"" + rest) == Got(s, rest)
  {
    if s == [] {
      ClosingQuote(rest);
      assert "" + "\"" + rest == "\"" + rest;
    } else {
      EscapeHead(s, rest);
      EscapeOne(s[0], Escape(s[1..]) + "\"" + rest);
      StringRoundTrip(s[1..], rest);
      assert [s[0]] + s[1..] == s;
    }
  }

  lemma {:induction false} KeyRoundTrip(k: string, rest: string)
    requires CleanKey(k)
    ensures ReadString(k + "\"" + rest) == Got(k, rest)
  {
    var t := k + "\"" + rest;
    if k == [] {
      assert t == "\"" + rest;
    } else {
      KeyRoundTrip(k[1..], rest);
      assert t[1..] == k[1..] + "\"" + rest;
      assert IsPlain(k[0]) && t[0] == k[0];
      assert k == [k[0]] + k[1..];
    }
  }

  // ---------- round trip, clean values ----------

  lemma {:induction false} RepeatWs(s: string, n: nat)
    requires AllWs(s)
    ensures AllWs(Repeat(s, n))
  {
    if n > 0 {
      RepeatWs(s, n - 1);
    }
  }

  predicate StartsValue(t: string) {
    t != [] && !IsWs(t[0]) && t[0] != ']' && t[0] != '}'
  }

  lemma {:induction false} BracketFirst(v: Json, lay: Layout, level: nat)
    requires v.JArr? || v.JObj?
    ensures var t := Format(v, lay, level); t != [] && t[0] == if v.JArr? then '[' else '{'
  {}

  /** A value's text never starts with white space or a closing bracket. */
  lemma {:induction false} FirstChar(v: Json, lay: Layout, level: nat)
    requires WellFormed(v)
    ensures StartsValue(Format(v, lay, level))
  {
    if v.JNum? {
      NumFirst(v.text);
    } else if v.JArr? || v.JObj? {
      BracketFirst(v, lay, level);
    }
  }
}
