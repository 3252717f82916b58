/** The layout the formatter is for: which arrays stay on one line, and how every line is indented. */
module JsonLayout {
  import opened Prelude
  import opened JsonText
  import opened JsonFormat
  import opened JsonRoundTrip
  import opened JsonEol

  /** Two spaces a level and "\n", as `formatJson` is called. */
  const LAY := Layout("  ", "\n")

  /** No key needs escaping. */
  predicate CleanKeys(v: Json) {
    match v
    case JArr(items) => forall i :: 0 <= i < |items| ==> CleanKeys(items[i])
    case JObj(members) => forall i :: 0 <= i < |members| ==> CleanKey(members[i].key) && CleanKeys(members[i].value)
    case _ => true
  }

  // ---------- which arrays stay on one line ----------

  /** A string's length in UTF-16 code units: characters beyond the basic plane take two. */
  ghost function Units(s: string): nat {
    |s| + |Astral(s)|
  }

  ghost function Astral(s: string): set<nat> {
    set i: nat | i < |s| && s[i] as int > 0xFFFF
  }

  lemma {:induction false} AstralAppend(s: string, c: char)
    ensures Astral(s + [c]) == Astral(s) + (if c as int > 0xFFFF then {|s|} else {}) && |s| !in Astral(s)
  {}

  lemma {:induction false} LengthAppend(s: string, c: char)
    ensures JsLength(s + [c]) == JsLength(s) + (if c as int > 0xFFFF then 2 else 1)
  {
    if s != [] {
      LengthAppend(s[1..], c);
      assert (s + [c])[1..] == s[1..] + [c];
    }
  }

  lemma {:induction false} LengthInUnits(s: string)
    ensures JsLength(s) == Units(s)
  {
    if s == [] {
      assert Astral(s) == {};
    } else {
      var init, last := s[..|s| - 1], s[|s| - 1];
      assert s == init + [last];
      LengthInUnits(init);
      LengthAppend(init, last);
      AstralAppend(init, last);
    }
  }

  /** A number, a boolean, or a string of fewer than 40 code units. */
  ghost predicate IsShort(v: Json) {
    v.JNum? || v.NonFinite? || v.JBool? || (v.JStr? && Units(v.s) < 40)
  }

  ghost predicate OnOneLine(items: seq<Json>) {
    items == [] || (|items| <= 8 && forall i :: 0 <= i < |items| ==> IsShort(items[i]))
  }

  lemma {:induction false} CompactIff(items: seq<Json>)
    requires items != []
    ensures UsesCompact(items) <==> OnOneLine(items)
  {
    forall v | v in items ensures IsCompactable(v) <==> IsShort(v) {
      if v.JStr? {
        LengthInUnits(v.s);
      }
    }
  }

  ghost function Breaks(t: string): nat {
    if t == [] then 0 else (if t[0] == '\n' then 1 else 0) + Breaks(t[1..])
  }

  /** How many lines end inside a value's text. */
  ghost function LineBreaks(v: Json): nat
    decreases v, 1
  {
    match v
    case JArr(items) => if OnOneLine(items) then 0 else |items| + 1 + ItemBreaks(items)
    case JObj(members) => if members == [] then 0 else |members| + 1 + MemberBreaks(members)
    case _ => 0
  }

  ghost function ItemBreaks(items: seq<Json>): nat
    decreases items, 0
  {
    if items == [] then 0 else LineBreaks(items[0]) + ItemBreaks(items[1..])
  }

  ghost function MemberBreaks(ms: seq<Member>): nat
    decreases ms, 0
  {
    if ms == [] then 0 else LineBreaks(ms[0].value) + MemberBreaks(ms[1..])
  }

  lemma {:induction false} NoBreaks(t: string)
    requires NoNewline(t)
    ensures Breaks(t) == 0
  {
    if t != [] {
      NoBreaks(t[1..]);
    }
  }

  lemma {:induction false} AnyBreak(t: string)
    ensures Breaks(t) > 0 <==> '\n' in t
  {
    if t != [] {
      AnyBreak(t[1..]);
      assert t == [t[0]] + t[1..];
    }
  }

  lemma {:induction false} BreaksAdd(a: string, b: string)
    ensures Breaks(a + b) == Breaks(a) + Breaks(b)
  {
    if a == [] {
      assert a + b == b;
    } else {
      BreaksAdd(a[1..], b);
      assert (a + b)[1..] == a[1..] + b;
    }
  }

  lemma {:induction false} OneBreak()
    ensures Breaks("\n") == 1 && Breaks("") == 0
  {
    assert "\n"[1..] == "";
  }

  lemma {:induction false} Breaks3(a: string, b: string, c: string)
    ensures Breaks(a + b + c) == Breaks(a) + Breaks(b) + Breaks(c)
  {
    BreaksAdd(a + b, c);
    BreaksAdd(a, b);
  }

  lemma {:induction false} LeafBreaks(v: Json, level: nat)
    requires WellFormed(v) && !v.JArr? && !v.JObj?
    ensures Breaks(Format(v, LAY, level)) == 0
  {
    if v.JStr? {
      EscapeHasNoNewline(v.s);
    } else if v.JNum? {
      NumberHasNoNewline(v.text);
    }
    NoBreaks(Format(v, LAY, level));
  }

  lemma {:induction false} ItemsBreaks(items: seq<Json>, level: nat, before: string, gap: string, g: nat)
    requires items != [] && NoNewline(before) && Breaks(gap) == g <= 1
    requires forall i :: 0 <= i < |items| ==> WellFormed(items[i]) && CleanKeys(items[i])
    ensures Breaks(FormatItems(items, LAY, level, before, gap)) == ItemBreaks(items) + (if g == 0 then 0 else |items| - 1)
    decreases items, 1
  {
    var first := Format(items[0], LAY, level);
    NoBreaks(before);
    ValueBreaks(items[0], level);
    OneBreak();
    if |items| == 1 {
      Breaks3(before, first, "");
      assert ItemBreaks(items[1..]) == 0;
    } else {
      var more := FormatItems(items[1..], LAY, level, before, gap);
      ItemsBreaks(items[1..], level, before, gap, g);
      NoBreaks(",");
      Breaks3(",", gap, more);
      Breaks3(before, first, "," + gap + more);
    }
  }

  lemma {:induction false} MemberTextBreaks(m: Member, level: nat)
    requires CleanKey(m.key) && WellFormed(m.value) && CleanKeys(m.value)
    ensures Breaks(FormatMember(m, LAY, level)) == LineBreaks(m.value)
    decreases m, 3
  {
    var front := Repeat(LAY.indent, level) + "\"" + m.key + "\": ";
    RepeatHasNoNewline(LAY.indent, level);
    assert NoNewline(m.key) by {
      assert forall i :: 0 <= i < |m.key| ==> IsPlain(m.key[i]);
    }
    NoBreaks(front);
    ValueBreaks(m.value, level);
    BreaksAdd(front, Format(m.value, LAY, level));
  }

  lemma {:induction false} MembersBreaks(ms: seq<Member>, level: nat)
    requires ms != []
    requires forall i :: 0 <= i < |ms| ==> CleanKey(ms[i].key) && WellFormed(ms[i].value) && CleanKeys(ms[i].value)
    ensures Breaks(FormatMembers(ms, LAY, level)) == MemberBreaks(ms) + |ms| - 1
    decreases ms, 1
  {
    var first := FormatMember(ms[0], LAY, level);
    MemberTextBreaks(ms[0], level);
    OneBreak();
    if |ms| == 1 {
      BreaksAdd(first, "");
      assert MemberBreaks(ms[1..]) == 0;
    } else {
      var more := FormatMembers(ms[1..], LAY, level);
      MembersBreaks(ms[1..], level);
      NoBreaks(",");
      Breaks3(",", "\n", more);
      BreaksAdd(first, "," + "\n" + more);
    }
  }

  lemma {:induction false} BlockBreaks(open: string, body: string, cur: string, close: string)
    requires NoNewline(open) && NoNewline(cur) && NoNewline(close)
    ensures Breaks(open + "\n" + body + "\n" + cur + close) == Breaks(body) + 2
  {
    NoBreaks(open);
    NoBreaks(cur);
    NoBreaks(close);
    OneBreak();
    Breaks3(open, "\n", body);
    Breaks3(open + "\n" + body, "\n", cur);
    BreaksAdd(open + "\n" + body + "\n" + cur, close);
  }

  lemma {:induction false} ShortBreaks(items: seq<Json>)
    requires forall i :: 0 <= i < |items| ==> IsShort(items[i])
    ensures ItemBreaks(items) == 0
  {
    if items != [] {
      ShortBreaks(items[1..]);
    }
  }

  lemma {:induction false} ArrayBreaks(items: seq<Json>, level: nat)
    requires items != [] && forall i :: 0 <= i < |items| ==> WellFormed(items[i]) && CleanKeys(items[i])
    ensures Breaks(Format(JArr(items), LAY, level)) == LineBreaks(JArr(items))
    decreases items, 3
  {
    CompactIff(items);
    if UsesCompact(items) {
      CompactBreaks(items, level);
    } else {
      ExpandedBreaks(items, level);
    }
  }

  lemma {:induction false} CompactBreaks(items: seq<Json>, level: nat)
    requires items != [] && forall i :: 0 <= i < |items| ==> WellFormed(items[i]) && CleanKeys(items[i]) && IsShort(items[i])
    ensures Breaks("[" + FormatItems(items, LAY, level + 1, "", " ") + "]") == 0
    decreases items, 2
  {
    NoBreaks(" ");
    ItemsBreaks(items, level + 1, "", " ", 0);
    ShortBreaks(items);
    NoBreaks("[");
    NoBreaks("]");
    Breaks3("[", FormatItems(items, LAY, level + 1, "", " "), "]");
  }

  lemma {:induction false} ExpandedBreaks(items: seq<Json>, level: nat)
    requires items != [] && forall i :: 0 <= i < |items| ==> WellFormed(items[i]) && CleanKeys(items[i])
    ensures Breaks("[" + "\n" + FormatItems(items, LAY, level + 1, Repeat(LAY.indent, level + 1), "\n")
                   + "\n" + Repeat(LAY.indent, level) + "]") == ItemBreaks(items) + |items| + 1
    decreases items, 2
  {
    var before := Repeat(LAY.indent, level + 1);
    RepeatHasNoNewline(LAY.indent, level);
    RepeatHasNoNewline(LAY.indent, level + 1);
    OneBreak();
    ItemsBreaks(items, level + 1, before, "\n", 1);
    BlockBreaks("[", FormatItems(items, LAY, level + 1, before, "\n"), Repeat(LAY.indent, level), "]");
  }

  /** A value's text has exactly the line breaks its layout asks for. */
  lemma {:induction false} ValueBreaks(v: Json, level: nat)
    requires WellFormed(v) && CleanKeys(v)
    ensures Breaks(Format(v, LAY, level)) == LineBreaks(v)
    decreases v, 4
  {
    if v.JArr? && v.items != [] {
      ArrayBreaks(v.items, level);
    } else if v.JObj? && v.members != [] {
      ObjectBreaks(v.members, level);
    } else if v.JArr? || v.JObj? {
      NoBreaks("[]");
      NoBreaks("{}");
    } else {
      LeafBreaks(v, level);
    }
  }

  lemma {:induction false} ObjectBreaks(ms: seq<Member>, level: nat)
    requires ms != []
    requires forall i :: 0 <= i < |ms| ==> CleanKey(ms[i].key) && WellFormed(ms[i].value) && CleanKeys(ms[i].value)
    ensures Breaks(Format(JObj(ms), LAY, level)) == MemberBreaks(ms) + |ms| + 1
    decreases ms, 3
  {
    RepeatHasNoNewline(LAY.indent, level);
    MembersBreaks(ms, level + 1);
    BlockBreaks("{", FormatMembers(ms, LAY, level + 1), Repeat(LAY.indent, level), "}");
  }

  /**
   An array stays on one line exactly when it is empty, or has at most 8 items that are all numbers,
   booleans or strings of fewer than 40 code units.
   */
  lemma {:induction false} OneLineIff(items: seq<Json>, level: nat)
    requires WellFormed(JArr(items)) && CleanKeys(JArr(items))
    ensures '\n' !in Format(JArr(items), LAY, level) <==>
      items == [] || (|items| <= 8 && forall v <- items ::
        v.JNum? || v.NonFinite? || v.JBool?
        || (v.JStr? && |v.s| + |set i: nat | i < |v.s| && v.s[i] as int > 0xFFFF| < 40))
  {
    ValueBreaks(JArr(items), level);
    AnyBreak(Format(JArr(items), LAY, level));
    forall v | v in items ensures v.JStr? ==> Astral(v.s) == set i: nat | i < |v.s| && v.s[i] as int > 0xFFFF {}
  }

  /** What a value without structure is written as. */
  lemma {:induction false} ScalarTexts(v: Json, lay: Layout, level: nat)
    ensures v.JNull? || v.Undefined? ==> Format(v, lay, level) == "null"
    ensures v.JNum? || v.NonFinite? ==> Format(v, lay, level) == v.text
    ensures v.JStr? && CleanKey(v.s) ==> Format(v, lay, level) == "\"" + v.s + "\""
  {
    if v.JStr? && CleanKey(v.s) {
      PlainUnchanged(v.s);
    }
  }

  /** A string that needs no escape is written as it is. */
  lemma {:induction false} PlainUnchanged(s: string)
    requires CleanKey(s)
    ensures Escape(s) == s
  {
    if s != [] {
      assert IsPlain(s[0]);
      PlainUnchanged(s[1..]);
    }
  }

  // ---------- strings are escaped as little as possible ----------

  predicate HasShortEscape(c: char) {
    c == '"' || c == '\\' || c == '\U{8}' || c == '\U{c}' || c == '\n' || c == '\r' || c == '\t'
  }

  ghost function ShortAt(s: string): set<nat> {
    set i: nat | i < |s| && HasShortEscape(s[i])
  }

  ghost function LongAt(s: string): set<nat> {
    set i: nat | i < |s| && s[i] < ' ' && !HasShortEscape(s[i])
  }

  lemma {:induction false} EscapesAppend(s: string, c: char)
    ensures ShortAt(s + [c]) == ShortAt(s) + (if HasShortEscape(c) then {|s|} else {}) && |s| !in ShortAt(s)
    ensures LongAt(s + [c]) == LongAt(s) + (if c < ' ' && !HasShortEscape(c) then {|s|} else {}) && |s| !in LongAt(s)
  {}

  lemma {:induction false} EscapeCharLength(c: char)
    ensures |EscapeChar(c)| == if HasShortEscape(c) then 2 else if c < ' ' then 6 else 1
  {}

  /** Each string is written with a two-character escape where there is one, and as itself where it can be. */
  lemma {:induction false} EscapedLength(s: string)
    ensures |Escape(s)| == |s| + |ShortAt(s)| + 5 * |LongAt(s)|
  {
    if s == [] {
      assert ShortAt(s) == {} && LongAt(s) == {};
    } else {
      var init, c := s[..|s| - 1], s[|s| - 1];
      assert s == init + [c];
      EscapedLength(init);
      EscapeAppend(init, c);
      EscapesAppend(init, c);
      EscapeCharLength(c);
    }
  }

  lemma {:induction false} EscapeAppend(s: string, c: char)
    ensures Escape(s + [c]) == Escape(s) + EscapeChar(c)
  {
    if s == [] {
      assert [c][1..] == "" && Escape("") == "";
    } else {
      EscapeAppend(s[1..], c);
      assert (s + [c])[1..] == s[1..] + [c];
      Assoc(EscapeChar(s[0]), Escape(s[1..]), EscapeChar(c));
    }
  }

  // ---------- line endings ----------

  ghost predicate NoReturn(t: string) {
    '\r' !in t
  }

  lemma {:induction false} EscapeNoReturn(s: string)
    ensures NoReturn(Escape(s))
  {
    if s != [] {
      EscapeNoReturn(s[1..]);
    }
  }

  lemma {:induction false} RepeatNoReturn(n: nat)
    ensures NoReturn(Repeat(LAY.indent, n))
  {
    if n > 0 {
      RepeatNoReturn(n - 1);
    }
  }

  lemma {:induction false} NumberNoReturn(t: string)
    requires NumLen(t) == |t|
    ensures NoReturn(t)
  {
    forall i | 0 <= i < |t| ensures t[i] != '\r' {
      NumberChars(t, i);
    }
  }

  lemma {:induction false} ItemsNoReturn(items: seq<Json>, level: nat, before: string, gap: string)
    requires items != [] && NoReturn(before) && NoReturn(gap)
    requires forall i :: 0 <= i < |items| ==> WellFormed(items[i]) && CleanKeys(items[i])
    ensures NoReturn(FormatItems(items, LAY, level, before, gap))
    decreases items, 0
  {
    NoReturns(items[0], level);
    if |items| > 1 {
      ItemsNoReturn(items[1..], level, before, gap);
    }
  }

  lemma {:induction false} MembersNoReturn(ms: seq<Member>, level: nat)
    requires ms != []
    requires forall i :: 0 <= i < |ms| ==> CleanKey(ms[i].key) && WellFormed(ms[i].value) && CleanKeys(ms[i].value)
    ensures NoReturn(FormatMembers(ms, LAY, level))
    decreases ms, 0
  {
    NoReturns(ms[0].value, level);
    RepeatNoReturn(level);
    assert NoReturn(ms[0].key) by {
      assert forall i :: 0 <= i < |ms[0].key| ==> IsPlain(ms[0].key[i]);
    }
    if |ms| > 1 {
      MembersNoReturn(ms[1..], level);
    }
  }

  lemma {:induction false} BlockNoReturn(open: string, body: string, cur: string, close: string)
    requires NoReturn(open) && NoReturn(body) && NoReturn(cur) && NoReturn(close)
    ensures NoReturn(open + "\n" + body + "\n" + cur + close) && NoReturn(open + body + close)
  {}

  lemma {:induction false} LeafNoReturn(v: Json, level: nat)
    requires WellFormed(v) && !v.JArr? && !v.JObj?
    ensures NoReturn(Format(v, LAY, level))
  {
    if v.JStr? {
      EscapeNoReturn(v.s);
      BlockNoReturn("\"", Escape(v.s), "", "\"");
    } else if v.JNum? {
      NumberNoReturn(v.text);
    }
  }

  lemma {:induction false} ArrayNoReturn(items: seq<Json>, level: nat)
    requires items != [] && forall i :: 0 <= i < |items| ==> WellFormed(items[i]) && CleanKeys(items[i])
    ensures NoReturn(Format(JArr(items), LAY, level))
    decreases items, 1
  {
    RepeatNoReturn(level);
    RepeatNoReturn(level + 1);
    if UsesCompact(items) {
      ItemsNoReturn(items, level + 1, "", " ");
      BlockNoReturn("[", FormatItems(items, LAY, level + 1, "", " "), "", "]");
    } else {
      var before := Repeat(LAY.indent, level + 1);
      ItemsNoReturn(items, level + 1, before, "\n");
      BlockNoReturn("[", FormatItems(items, LAY, level + 1, before, "\n"), Repeat(LAY.indent, level), "]");
    }
  }

  lemma {:induction false} ObjectNoReturn(ms: seq<Member>, level: nat)
    requires ms != []
    requires forall i :: 0 <= i < |ms| ==> CleanKey(ms[i].key) && WellFormed(ms[i].value) && CleanKeys(ms[i].value)
    ensures NoReturn(Format(JObj(ms), LAY, level))
    decreases ms, 1
  {
    RepeatNoReturn(level);
    MembersNoReturn(ms, level + 1);
    BlockNoReturn("{", FormatMembers(ms, LAY, level + 1), Repeat(LAY.indent, level), "}");
  }

  lemma {:induction false} NoReturns(v: Json, level: nat)
    requires WellFormed(v) && CleanKeys(v)
    ensures NoReturn(Format(v, LAY, level))
    decreases v, 2
  {
    if v.JArr? && v.items != [] {
      ArrayNoReturn(v.items, level);
    } else if v.JObj? && v.members != [] {
      ObjectNoReturn(v.members, level);
    } else if !v.JArr? && !v.JObj? {
      LeafNoReturn(v, level);
    }
  }

  lemma {:induction false} KeepsBreaks(t: string)
    ensures Rewrite(t, "\n") == t
  {
    if t != [] {
      KeepsBreaks(t[1..]);
    }
  }

  /** Each line break gets a carriage return in front of it, and nothing else changes. */
  lemma {:induction false} AddsReturns(t: string)
    requires NoReturn(t)
    ensures var r := Rewrite(t, "\r\n");
      && (forall i :: 0 <= i < |r| && r[i] == '\n' ==> i > 0 && r[i - 1] == '\r')
      && (forall i :: 0 <= i < |r| && r[i] == '\r' ==> i + 1 < |r| && r[i + 1] == '\n')
      && |r| == |t| + Breaks(t)
  {
    if t != [] {
      var rest := Rewrite(t[1..], "\r\n");
      AddsReturns(t[1..]);
      var r := RewriteChar(t[0], "\r\n") + rest;
      var k := |RewriteChar(t[0], "\r\n")|;
      assert t[0] in t;
      assert forall i :: k <= i < |r| ==> r[i] == rest[i - k];
    }
  }

  /**
   The endings written follow the original file: if it has "\r\n" anywhere, every line break is one;
   otherwise the text is the formatted one.
   */
  lemma {:induction false} EndingsFollowOriginal(v: Json, original: string)
    requires original != "" && WellFormed(v) && CleanKeys(v)
    ensures var w := Written(v, original);
      if exists i :: 0 <= i < |original| - 1 && original[i] == '\r' && original[i + 1] == '\n' then
        && |w| == |Format(v, LAY, 0)| + Breaks(Format(v, LAY, 0))
        && (forall i :: 0 <= i < |w| && w[i] == '\n' ==> i > 0 && w[i - 1] == '\r')
        && (forall i :: 0 <= i < |w| && w[i] == '\r' ==> i + 1 < |w| && w[i + 1] == '\n')
      else w == Format(v, LAY, 0)
  {
    NoReturns(v, 0);
    KeepsBreaks(Format(v, LAY, 0));
    AddsReturns(Format(v, LAY, 0));
  }
}
