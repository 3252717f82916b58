/** How the formatter spaces and indents: every line by its open brackets, and no other white space. */
module JsonIndent {
  import opened Prelude
  import opened JsonText
  import opened JsonFormat
  import opened JsonRoundTrip
  import opened JsonEol
  import opened JsonLayout

  // ---------- a scanner for the layout ----------

  /** How many spaces stand at the front. */
  function Spaces(t: string): (n: nat)
    ensures n <= |t|
  {
    if t != [] && t[0] == ' ' then 1 + Spaces(t[1..]) else 0
  }

  predicate Closes(t: string) {
    t != [] && (t[0] == ']' || t[0] == '}')
  }

  /**
   Read from left to right with `d` brackets open: each line starts with two spaces for every open
   bracket, one bracket less if it starts by closing one; a comma is followed by one space or a line
   break, a colon by one space; and there is no other white space outside strings.
   */
  predicate Tidy(t: string, d: int)
    decreases |t|, 0
  {
    if t == [] then true
    else if t[0] == '"' then TidyString(t[1..], d)
    else if t[0] == '[' || t[0] == '{' then Tidy(t[1..], d + 1)
    else if t[0] == ']' || t[0] == '}' then Tidy(t[1..], d - 1)
    else if t[0] == ',' then
      |t| > 1 && (if t[1] == ' ' then Tidy(t[2..], d) else t[1] == '\n' && Tidy(t[1..], d))
    else if t[0] == ':' then |t| > 1 && t[1] == ' ' && Tidy(t[2..], d)
    else if t[0] == '\n' then TidyLine(t[1..], d)
    else !IsWs(t[0]) && Tidy(t[1..], d)
  }

  /** Right behind a line break. */
  predicate TidyLine(t: string, d: int)
    decreases |t|, 1
  {
    var rest := t[Spaces(t)..];
    Spaces(t) == 2 * (if Closes(rest) then d - 1 else d) && Tidy(rest, d)
  }

  /** Inside a string, up to its closing quote. */
  predicate TidyString(t: string, d: int)
    decreases |t|, 0
  {
    if t == [] then false
    else if t[0] == '"' then Tidy(t[1..], d)
    else if t[0] == '\\' then |t| > 1 && TidyString(t[2..], d)
    else TidyString(t[1..], d)
  }

  // ---------- pieces ----------

  predicate Neutral(c: char) {
    c != '"' && c != '[' && c != ']' && c != '{' && c != '}' && c != ',' && c != ':' && !IsWs(c)
  }

  lemma {:induction false} PassNeutral(a: string, rest: string, d: int)
    requires forall i :: 0 <= i < |a| ==> Neutral(a[i])
    ensures Tidy(a + rest, d) <==> Tidy(rest, d)
  {
    if a == [] {
      assert a + rest == rest;
    } else {
      PassNeutral(a[1..], rest, d);
      assert (a + rest)[1..] == a[1..] + rest;
    }
  }

  lemma {:induction false} PassQuiet(a: string, rest: string, d: int)
    requires forall i :: 0 <= i < |a| ==> a[i] != '"' && a[i] != '\\'
    ensures TidyString(a + rest, d) <==> TidyString(rest, d)
  {
    if a == [] {
      assert a + rest == rest;
    } else {
      PassQuiet(a[1..], rest, d);
      assert (a + rest)[1..] == a[1..] + rest;
    }
  }

  lemma {:induction false} PassEscape(e: char, rest: string, d: int)
    ensures TidyString(['\\', e] + rest, d) <==> TidyString(rest, d)
  {
    assert (['\\', e] + rest)[2..] == rest;
  }

  lemma {:induction false} PassChar(c: char, rest: string, d: int)
    ensures TidyString(EscapeChar(c) + rest, d) <==> TidyString(rest, d)
  {
    if IsPlain(c) {
      assert EscapeChar(c) == [c];
      PassQuiet([c], rest, d);
    } else if |EscapeChar(c)| == 2 {
      ShortForm(c, rest);
      PassEscape(EscapeChar(c)[1], rest, d);
    } else {
      LongForm(c);
      var digits := ['0', '0', HexDigit(c as int / 16), HexDigit(c as int % 16)];
      assert EscapeChar(c) + rest == ['\\', 'u'] + (digits + rest);
      PassEscape('u', digits + rest, d);
      PassQuiet(digits, rest, d);
    }
  }

  lemma {:induction false} PassEscaped(s: string, rest: string, d: int)
    ensures TidyString(Escape(s) + rest, d) <==> TidyString(rest, d)
  {
    if s == [] {
      assert Escape(s) + rest == rest;
    } else {
      PassChar(s[0], Escape(s[1..]) + rest, d);
      PassEscaped(s[1..], rest, d);
      Assoc(EscapeChar(s[0]), Escape(s[1..]), rest);
    }
  }

  lemma {:induction false} CloseString(rest: string, d: int)
    ensures TidyString("\"" + rest, d) <==> Tidy(rest, d)
  {
    assert ("\"" + rest)[1..] == rest;
  }

  lemma {:induction false} OpenString(inner: string, d: int)
    ensures Tidy("\"" + inner, d) <==> TidyString(inner, d)
  {
    assert ("\"" + inner)[1..] == inner;
  }

  lemma {:induction false} PassString(s: string, rest: string, d: int)
    ensures Tidy("\"" + Escape(s) + "\"" + rest, d) <==> Tidy(rest, d)
  {
    Quoted("\"", Escape(s), "\"", rest);
    OpenString(Escape(s) + "\"" + rest, d);
    Assoc(Escape(s), "\"", rest);
    PassEscaped(s, "\"" + rest, d);
    CloseString(rest, d);
  }

  lemma {:induction false} PassOpen(rest: string, d: int)
    ensures Tidy("[" + rest, d) <==> Tidy(rest, d + 1)
    ensures Tidy("{" + rest, d) <==> Tidy(rest, d + 1)
  {
    assert ("[" + rest)[1..] == rest && ("{" + rest)[1..] == rest;
  }

  lemma {:induction false} PassClose(rest: string, d: int)
    ensures Tidy("]" + rest, d) <==> Tidy(rest, d - 1)
    ensures Tidy("}" + rest, d) <==> Tidy(rest, d - 1)
  {
    assert ("]" + rest)[1..] == rest && ("}" + rest)[1..] == rest;
  }

  lemma {:induction false} PassComma(rest: string, d: int)
    ensures Tidy("," + (" " + rest), d) <==> Tidy(rest, d)
    ensures Tidy("," + ("\n" + rest), d) <==> Tidy("\n" + rest, d)
  {
    assert ("," + (" " + rest))[2..] == rest && ("," + ("\n" + rest))[1..] == "\n" + rest;
  }

  lemma {:induction false} PassColon(rest: string, d: int)
    ensures Tidy(": " + rest, d) <==> Tidy(rest, d)
  {
    assert (": " + rest)[2..] == rest;
  }

  lemma {:induction false} TwoSpaces(t: string)
    ensures Spaces("  " + t) == 2 + Spaces(t)
  {
    assert ("  " + t)[1..][1..] == t;
  }

  lemma {:induction false} IndentSpaces(k: nat, rest: string)
    requires rest != [] && rest[0] != ' '
    ensures |Repeat("  ", k)| == 2 * k && Spaces(Repeat("  ", k) + rest) == 2 * k
  {
    if k == 0 {
      assert Repeat("  ", k) + rest == rest;
    } else {
      IndentSpaces(k - 1, rest);
      TwoSpaces(Repeat("  ", k - 1) + rest);
      Assoc("  ", Repeat("  ", k - 1), rest);
    }
  }

  /** A line that starts with `k` indents. */
  lemma {:induction false} PassLine(k: nat, rest: string, d: int)
    requires rest != [] && rest[0] != ' '
    ensures Tidy("\n" + (Repeat("  ", k) + rest), d) <==> k == (if Closes(rest) then d - 1 else d) && Tidy(rest, d)
  {
    var line := Repeat("  ", k) + rest;
    assert ("\n" + line)[1..] == line;
    IndentSpaces(k, rest);
    assert line[2 * k..] == rest;
  }

  // ---------- values ----------

  lemma {:induction false} NumberIsNeutral(t: string)
    requires NumLen(t) == |t|
    ensures forall i :: 0 <= i < |t| ==> Neutral(t[i])
  {
    forall i | 0 <= i < |t| ensures Neutral(t[i]) {
      NumberChars(t, i);
    }
  }

  lemma {:induction false} TidyLeaf(v: Json, level: nat, rest: string, d: int)
    requires WellFormed(v) && !v.JArr? && !v.JObj?
    ensures Tidy(Format(v, LAY, level) + rest, d) <==> Tidy(rest, d)
  {
    if v.JStr? {
      PassString(v.s, rest, d);
    } else {
      if v.JNum? {
        NumberIsNeutral(v.text);
      }
      PassNeutral(Format(v, LAY, level), rest, d);
    }
  }

  lemma {:induction false} SplitCompact(items: seq<Json>, level: nat, rest: string)
    requires items != []
    ensures FormatItems(items, LAY, level, "", " ") + rest == Format(items[0], LAY, level) + (
      if |items| == 1 then rest else "," + (" " + (FormatItems(items[1..], LAY, level, "", " ") + rest)))
  {
    var first := Format(items[0], LAY, level);
    if |items| == 1 {
      assert "" + first + "" + rest == first + rest;
    } else {
      var more := FormatItems(items[1..], LAY, level, "", " ");
      assert "" + first + ("," + " " + more) + rest == first + ("," + (" " + (more + rest)));
    }
  }

  lemma {:induction false} TidyCompact(items: seq<Json>, level: nat, rest: string, d: int)
    requires items != [] && forall i :: 0 <= i < |items| ==> WellFormed(items[i]) && !items[i].JArr? && !items[i].JObj?
    ensures Tidy(FormatItems(items, LAY, level, "", " ") + rest, d) <==> Tidy(rest, d)
  {
    SplitCompact(items, level, rest);
    if |items| == 1 {
      TidyLeaf(items[0], level, rest, d);
    } else {
      var more := FormatItems(items[1..], LAY, level, "", " ") + rest;
      TidyLeaf(items[0], level, "," + (" " + more), d);
      PassComma(more, d);
      TidyCompact(items[1..], level, rest, d);
    }
  }

  lemma {:induction false} SplitExpanded(items: seq<Json>, level: nat, before: string, rest: string)
    requires items != []
    ensures "\n" + (FormatItems(items, LAY, level, before, "\n") + rest) == "\n" + (before + (Format(items[0], LAY, level) + (
      if |items| == 1 then rest else "," + ("\n" + (FormatItems(items[1..], LAY, level, before, "\n") + rest)))))
  {
    var first := Format(items[0], LAY, level);
    if |items| == 1 {
      assert before + first + "" + rest == before + (first + rest);
    } else {
      var more := FormatItems(items[1..], LAY, level, before, "\n");
      assert before + first + ("," + "\n" + more) + rest == before + (first + ("," + ("\n" + (more + rest))));
    }
  }

  lemma {:induction false} TidyExpanded(items: seq<Json>, level: nat, rest: string)
    requires items != [] && forall i :: 0 <= i < |items| ==> WellFormed(items[i]) && CleanKeys(items[i])
    ensures Tidy("\n" + (FormatItems(items, LAY, level, Repeat("  ", level), "\n") + rest), level) <==> Tidy(rest, level)
    decreases items, 1
  {
    var before, first := Repeat("  ", level), Format(items[0], LAY, level);
    SplitExpanded(items, level, before, rest);
    FirstChar(items[0], LAY, level);
    if |items| == 1 {
      PassLine(level, first + rest, level);
      TidyValue(items[0], level, rest);
    } else {
      var more := FormatItems(items[1..], LAY, level, before, "\n") + rest;
      PassLine(level, first + ("," + ("\n" + more)), level);
      TidyValue(items[0], level, "," + ("\n" + more));
      PassComma(more, level);
      TidyExpanded(items[1..], level, rest);
    }
  }

  lemma {:induction false} TidyMember(m: Member, level: nat, rest: string)
    requires CleanKey(m.key) && WellFormed(m.value) && CleanKeys(m.value)
    ensures Tidy("\n" + (FormatMember(m, LAY, level) + rest), level) <==> Tidy(rest, level)
    decreases m, 3
  {
    var value := Format(m.value, LAY, level) + rest;
    var quoted := "\"" + (m.key + "\"" + (": " + value));
    SplitMember(m, LAY, level, rest);
    PassLine(level, quoted, level);
    OpenString(m.key + "\"" + (": " + value), level);
    Assoc(m.key, "\"", ": " + value);
    assert forall i :: 0 <= i < |m.key| ==> IsPlain(m.key[i]);
    PassQuiet(m.key, "\"" + (": " + value), level);
    CloseString(": " + value, level);
    PassColon(value, level);
    TidyValue(m.value, level, rest);
  }

  lemma {:induction false} SplitMemberLines(ms: seq<Member>, level: nat, rest: string)
    requires ms != []
    ensures FormatMembers(ms, LAY, level) + rest == FormatMember(ms[0], LAY, level) + (
      if |ms| == 1 then rest else "," + ("\n" + (FormatMembers(ms[1..], LAY, level) + rest)))
  {
    var first := FormatMember(ms[0], LAY, level);
    if |ms| == 1 {
      assert first + "" + rest == first + rest;
    } else {
      var more := FormatMembers(ms[1..], LAY, level);
      assert first + ("," + "\n" + more) + rest == first + ("," + ("\n" + (more + rest)));
    }
  }

  lemma {:induction false} TidyMembers(ms: seq<Member>, level: nat, rest: string)
    requires ms != []
    requires forall i :: 0 <= i < |ms| ==> CleanKey(ms[i].key) && WellFormed(ms[i].value) && CleanKeys(ms[i].value)
    ensures Tidy("\n" + (FormatMembers(ms, LAY, level) + rest), level) <==> Tidy(rest, level)
    decreases ms, 1
  {
    SplitMemberLines(ms, level, rest);
    if |ms| == 1 {
      TidyMember(ms[0], level, rest);
    } else {
      var more := FormatMembers(ms[1..], LAY, level) + rest;
      TidyMember(ms[0], level, "," + ("\n" + more));
      PassComma(more, level);
      TidyMembers(ms[1..], level, rest);
    }
  }

  lemma {:induction false} BlockText(open: string, body: string, cur: string, close: string, rest: string)
    ensures open + "\n" + body + "\n" + cur + close + rest == open + ("\n" + (body + ("\n" + (cur + (close + rest)))))
  {}

  /** The closing line of a block one level up. */
  lemma {:induction false} TidyClosing(level: nat, close: string, rest: string)
    requires close == "]" || close == "}"
    ensures Tidy("\n" + (Repeat("  ", level) + (close + rest)), level + 1) <==> Tidy(rest, level)
  {
    PassLine(level, close + rest, level + 1);
    PassClose(rest, level + 1);
  }

  lemma {:induction false} TidyCompactArray(items: seq<Json>, level: nat, rest: string)
    requires items != [] && forall i :: 0 <= i < |items| ==> WellFormed(items[i]) && !items[i].JArr? && !items[i].JObj?
    ensures Tidy("[" + FormatItems(items, LAY, level + 1, "", " ") + "]" + rest, level) <==> Tidy(rest, level)
  {
    var body := FormatItems(items, LAY, level + 1, "", " ");
    Quoted("[", body, "]", rest);
    Assoc(body, "]", rest);
    PassOpen(body + ("]" + rest), level);
    TidyCompact(items, level + 1, "]" + rest, level + 1);
    PassClose(rest, level + 1);
  }

  lemma {:induction false} TidyExpandedArray(items: seq<Json>, level: nat, rest: string)
    requires items != [] && forall i :: 0 <= i < |items| ==> WellFormed(items[i]) && CleanKeys(items[i])
    ensures var body := FormatItems(items, LAY, level + 1, Repeat("  ", level + 1), "\n");
      Tidy("[" + "\n" + body + "\n" + Repeat("  ", level) + "]" + rest, level) <==> Tidy(rest, level)
    decreases items, 2
  {
    var body, cur := FormatItems(items, LAY, level + 1, Repeat("  ", level + 1), "\n"), Repeat("  ", level);
    var closing := "\n" + (cur + ("]" + rest));
    BlockText("[", body, cur, "]", rest);
    PassOpen("\n" + (body + closing), level);
    TidyExpanded(items, level + 1, closing);
    TidyClosing(level, "]", rest);
  }

  lemma {:induction false} TidyArray(items: seq<Json>, level: nat, rest: string)
    requires items != [] && forall i :: 0 <= i < |items| ==> WellFormed(items[i]) && CleanKeys(items[i])
    ensures Tidy(Format(JArr(items), LAY, level) + rest, level) <==> Tidy(rest, level)
    decreases items, 3
  {
    if UsesCompact(items) {
      forall i | 0 <= i < |items| ensures !items[i].JArr? && !items[i].JObj? {
        assert items[i] in items && IsCompactable(items[i]);
      }
      TidyCompactArray(items, level, rest);
    } else {
      TidyExpandedArray(items, level, rest);
    }
  }

  lemma {:induction false} TidyObject(ms: seq<Member>, level: nat, rest: string)
    requires ms != []
    requires forall i :: 0 <= i < |ms| ==> CleanKey(ms[i].key) && WellFormed(ms[i].value) && CleanKeys(ms[i].value)
    ensures Tidy(Format(JObj(ms), LAY, level) + rest, level) <==> Tidy(rest, level)
    decreases ms, 2
  {
    var body, cur := FormatMembers(ms, LAY, level + 1), Repeat("  ", level);
    var closing := "\n" + (cur + ("}" + rest));
    BlockText("{", body, cur, "}", rest);
    PassOpen("\n" + (body + closing), level);
    TidyMembers(ms, level + 1, closing);
    TidyClosing(level, "}", rest);
  }

  lemma {:induction false} TidyEmpty(rest: string, d: int)
    ensures Tidy("[]" + rest, d) <==> Tidy(rest, d)
    ensures Tidy("{}" + rest, d) <==> Tidy(rest, d)
  {
    assert "[]" + rest == "[" + ("]" + rest) && "{}" + rest == "{" + ("}" + rest);
    PassOpen("]" + rest, d);
    PassOpen("}" + rest, d);
    PassClose(rest, d + 1);
  }

  lemma {:induction false} TidyValue(v: Json, level: nat, rest: string)
    requires WellFormed(v) && CleanKeys(v)
    ensures Tidy(Format(v, LAY, level) + rest, level) <==> Tidy(rest, level)
    decreases v, 4
  {
    if v.JArr? && v.items != [] {
      TidyArray(v.items, level, rest);
    } else if v.JObj? && v.members != [] {
      TidyObject(v.members, level, rest);
    } else if v.JArr? || v.JObj? {
      TidyEmpty(rest, level);
    } else {
      TidyLeaf(v, level, rest, level);
    }
  }

  /** Every formatted text is tidy: lines indented by their brackets, and white space nowhere else. */
  lemma {:induction false} FormatIsTidy(v: Json, level: nat)
    requires WellFormed(v) && CleanKeys(v)
    ensures Tidy(Format(v, LAY, level), level)
  {
    var t := Format(v, LAY, level);
    TidyValue(v, level, "");
    assert t + "" == t;
  }
}
