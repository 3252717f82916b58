/** `writeJson`: the formatted text with its line endings adapted to the original file. */
module JsonEol {
  import opened Prelude
  import opened JsonText
  import opened JsonFormat
  import opened JsonRoundTrip

  /** `text.replace(/\n/g, eol)`. */
  function Rewrite(s: string, eol: string): string {
    if s == [] then "" else RewriteChar(s[0], eol) + Rewrite(s[1..], eol)
  }

  predicate HasCrLf(s: string) {
    exists i :: 0 <= i < |s| - 1 && s[i] == '\r' && s[i + 1] == '\n'
  }

  /** What `writeJson` writes over a file that held `original`; an empty one takes another path. */
  function Written(v: Json, original: string): string
    requires original != ""
  {
    Rewrite(Format(v, Layout("  ", "\n"), 0), if HasCrLf(original) then "\r\n" else "\n")
  }

  predicate NoNewline(s: string) {
    forall i :: 0 <= i < |s| ==> s[i] != '\n'
  }

  function RewriteChar(c: char, eol: string): string {
    if c == '\n' then eol else [c]
  }

  lemma {:induction false} Assoc(a: string, b: string, c: string)
    ensures a + (b + c) == a + b + c
  {}

  lemma {:induction false} RewriteHead(c: char, s: string, eol: string)
    ensures Rewrite([c] + s, eol) == RewriteChar(c, eol) + Rewrite(s, eol)
  {
    assert ([c] + s)[1..] == s;
  }

  lemma {:induction false} RewriteConcat(a: string, b: string, eol: string)
    ensures Rewrite(a + b, eol) == Rewrite(a, eol) + Rewrite(b, eol)
  {
    if a == [] {
      assert a + b == b;
    } else {
      RewriteConcat(a[1..], b, eol);
      RewriteHead(a[0], a[1..] + b, eol);
      HeadAndTail(a);
      Assoc([a[0]], a[1..], b);
      Assoc(RewriteChar(a[0], eol), Rewrite(a[1..], eol), Rewrite(b, eol));
    }
  }

  lemma {:induction false} RewriteNone(s: string, eol: string)
    requires NoNewline(s)
    ensures Rewrite(s, eol) == s
  {
    if s != [] {
      RewriteNone(s[1..], eol);
    }
  }

  lemma {:induction false} RewriteEol(eol: string)
    ensures Rewrite("\n", eol) == eol
  {
    assert "\n"[1..] == "";
    assert Rewrite("", eol) == "";
  }

  // ---------- no newline but the layout's own ----------

  predicate InNumber(c: char) {
    IsDigit(c) || c == '.' || c == 'e' || c == 'E' || c == '+' || c == '-'
  }

  lemma {:induction false} DigitChars(s: string, i: nat)
    requires i < Digits(s)
    ensures IsDigit(s[i])
  {
    if i > 0 {
      DigitChars(s[1..], i - 1);
    }
  }

  lemma {:induction false} ExpChars(s: string, i: nat)
    requires i < ExpLen(s)
    ensures InNumber(s[i])
  {
    var sign := if Starts(s[1..], '+') || Starts(s[1..], '-') then 1 else 0;
    if i > sign {
      DigitChars(s[1 + sign..], i - 1 - sign);
    }
  }

  lemma {:induction false} TailChars(s: string, i: nat)
    requires i < TailLen(s)
    ensures InNumber(s[i])
  {
    if i >= FracLen(s) {
      ExpChars(s[FracLen(s)..], i - FracLen(s));
    } else if i > 0 {
      DigitChars(s[1..], i - 1);
    }
  }

  lemma {:induction false} UnsignedChars(s: string, i: nat)
    requires i < UnsignedLen(s)
    ensures InNumber(s[i])
  {
    if i >= IntLen(s) {
      TailChars(s[IntLen(s)..], i - IntLen(s));
    } else if !Starts(s, '0') {
      DigitChars(s, i);
    }
  }

  lemma {:induction false} NumberChars(s: string, i: nat)
    requires i < NumLen(s)
    ensures InNumber(s[i])
  {
    if !Starts(s, '-') {
      UnsignedChars(s, i);
    } else if i > 0 {
      UnsignedChars(s[1..], i - 1);
    }
  }

  lemma {:induction false} NumberHasNoNewline(t: string)
    requires NumLen(t) == |t|
    ensures NoNewline(t)
  {
    forall i | 0 <= i < |t| ensures t[i] != '\n' {
      NumberChars(t, i);
    }
  }

  lemma {:induction false} EscapeHasNoNewline(s: string)
    ensures NoNewline(Escape(s))
  {
    if s != [] {
      EscapeHasNoNewline(s[1..]);
    }
  }

  lemma {:induction false} RepeatHasNoNewline(s: string, n: nat)
    requires NoNewline(s)
    ensures NoNewline(Repeat(s, n))
  {
    if n > 0 {
      RepeatHasNoNewline(s, n - 1);
    }
  }

  // ---------- rewriting is formatting with the other line ending ----------

  lemma {:induction false} RewriteLeaf(v: Json, lay: Layout, level: nat, eol: string)
    requires WellFormed(v) && Clean(v) && !v.JArr? && !v.JObj?
    ensures Rewrite(Format(v, lay, level), eol) == Format(v, lay, level)
  {
    if v.JStr? {
      EscapeHasNoNewline(v.s);
    } else if v.JNum? {
      NumberHasNoNewline(v.text);
    }
    RewriteNone(Format(v, lay, level), eol);
  }

  /** Two texts of which the second is the first, rewritten. */
  ghost predicate Rewrites(a: string, b: string, eol: string) {
    Rewrite(a, eol) == b
  }

  lemma {:induction false} Rewrites3(a: string, b: string, c: string, a': string, b': string, c': string, eol: string)
    requires Rewrites(a, a', eol) && Rewrites(b, b', eol) && Rewrites(c, c', eol)
    ensures Rewrites(a + b + c, a' + b' + c', eol)
  {
    RewriteConcat(a + b, c, eol);
    RewriteConcat(a, b, eol);
  }

  lemma {:induction false} RewriteItems(items: seq<Json>, indent: string, level: nat, eol: string,
                                        before: string, gap: string, gap': string)
    requires items != [] && NoNewline(indent) && NoNewline(before) && Rewrites(gap, gap', eol)
    requires forall i :: 0 <= i < |items| ==> WellFormed(items[i]) && Clean(items[i])
    ensures Rewrites(FormatItems(items, Layout(indent, "\n"), level, before, gap),
                     FormatItems(items, Layout(indent, eol), level, before, gap'), eol)
    decreases items, 1
  {
    var lay, lay' := Layout(indent, "\n"), Layout(indent, eol);
    RewriteNone(before, eol);
    RewriteValue(items[0], indent, level, eol);
    var more, more' := "", "";
    if |items| > 1 {
      RewriteItems(items[1..], indent, level, eol, before, gap, gap');
      more, more' := FormatItems(items[1..], lay, level, before, gap), FormatItems(items[1..], lay', level, before, gap');
      RewriteNone(",", eol);
      Rewrites3(",", gap, more, ",", gap', more', eol);
      more, more' := "," + gap + more, "," + gap' + more';
    } else {
      RewriteNone("", eol);
    }
    Rewrites3(before, Format(items[0], lay, level), more, before, Format(items[0], lay', level), more', eol);
  }

  lemma {:induction false} RewriteMember(m: Member, indent: string, level: nat, eol: string)
    requires NoNewline(indent) && CleanKey(m.key) && WellFormed(m.value) && Clean(m.value)
    ensures Rewrites(FormatMember(m, Layout(indent, "\n"), level), FormatMember(m, Layout(indent, eol), level), eol)
    decreases m, 3
  {
    var lay, lay' := Layout(indent, "\n"), Layout(indent, eol);
    var front := Repeat(indent, level) + "\"" + m.key + "\": ";
    RepeatHasNoNewline(indent, level);
    assert NoNewline(m.key) by {
      assert forall i :: 0 <= i < |m.key| ==> IsPlain(m.key[i]);
    }
    RewriteNone(front, eol);
    RewriteValue(m.value, indent, level, eol);
    RewriteConcat(front, Format(m.value, lay, level), eol);
  }

  lemma {:induction false} RewriteMembers(ms: seq<Member>, indent: string, level: nat, eol: string)
    requires ms != [] && NoNewline(indent)
    requires forall i :: 0 <= i < |ms| ==> CleanKey(ms[i].key) && WellFormed(ms[i].value) && Clean(ms[i].value)
    ensures Rewrites(FormatMembers(ms, Layout(indent, "\n"), level), FormatMembers(ms, Layout(indent, eol), level), eol)
    decreases ms, 1
  {
    var lay, lay' := Layout(indent, "\n"), Layout(indent, eol);
    RewriteMember(ms[0], indent, level, eol);
    var head, head' := FormatMember(ms[0], lay, level), FormatMember(ms[0], lay', level);
    if |ms| == 1 {
      assert head + "" == head && head' + "" == head';
    } else {
      RewriteMembers(ms[1..], indent, level, eol);
      RewriteNone(",", eol);
      RewriteEol(eol);
      var more, more' := FormatMembers(ms[1..], lay, level), FormatMembers(ms[1..], lay', level);
      Rewrites3(",", "\n", more, ",", eol, more', eol);
      RewriteConcat(head, "," + "\n" + more, eol);
    }
  }

  /** An opening bracket, a body, a closing line. */
  lemma {:induction false} RewriteBlock(open: string, body: string, body': string, closing: string, eol: string)
    requires NoNewline(open) && NoNewline(closing) && Rewrites(body, body', eol)
    ensures Rewrites(open + "\n" + body + "\n" + closing, open + eol + body' + eol + closing, eol)
  {
    RewriteNone(open, eol);
    RewriteNone(closing, eol);
    RewriteEol(eol);
    Rewrites3(open, "\n", body, open, eol, body', eol);
    Rewrites3(open + "\n" + body, "\n", closing, open + eol + body', eol, closing, eol);
  }

  lemma {:induction false} SplitClosing(open: string, eol: string, body: string, cur: string, close: string)
    ensures open + eol + body + eol + (cur + close) == open + eol + body + eol + cur + close
  {}

  lemma {:induction false} RewriteBrackets(open: string, body: string, body': string, cur: string, close: string, eol: string)
    requires NoNewline(open) && NoNewline(cur) && NoNewline(close) && Rewrites(body, body', eol)
    ensures Rewrites(open + "\n" + body + "\n" + cur + close, open + eol + body' + eol + cur + close, eol)
  {
    RewriteBlock(open, body, body', cur + close, eol);
    SplitClosing(open, "\n", body, cur, close);
    SplitClosing(open, eol, body', cur, close);
  }

  lemma {:induction false} RewriteArray(items: seq<Json>, indent: string, level: nat, eol: string)
    requires items != [] && NoNewline(indent)
    requires forall i :: 0 <= i < |items| ==> WellFormed(items[i]) && Clean(items[i])
    ensures Rewrites(Format(JArr(items), Layout(indent, "\n"), level), Format(JArr(items), Layout(indent, eol), level), eol)
    decreases items, 2
  {
    var lay, lay', cur := Layout(indent, "\n"), Layout(indent, eol), Repeat(indent, level);
    if UsesCompact(items) {
      RewriteNone(" ", eol);
      RewriteItems(items, indent, level + 1, eol, "", " ", " ");
      RewriteNone("[", eol);
      RewriteNone("]", eol);
      Rewrites3("[", FormatItems(items, lay, level + 1, "", " "), "]",
                "[", FormatItems(items, lay', level + 1, "", " "), "]", eol);
    } else {
      var before := Repeat(indent, level + 1);
      RepeatHasNoNewline(indent, level);
      RepeatHasNoNewline(indent, level + 1);
      RewriteEol(eol);
      RewriteItems(items, indent, level + 1, eol, before, "\n", eol);
      RewriteBrackets("[", FormatItems(items, lay, level + 1, before, "\n"),
                      FormatItems(items, lay', level + 1, before, eol), cur, "]", eol);
    }
  }

  lemma {:induction false} RewriteObject(ms: seq<Member>, indent: string, level: nat, eol: string)
    requires ms != [] && NoNewline(indent)
    requires forall i :: 0 <= i < |ms| ==> CleanKey(ms[i].key) && WellFormed(ms[i].value) && Clean(ms[i].value)
    ensures Rewrites(Format(JObj(ms), Layout(indent, "\n"), level), Format(JObj(ms), Layout(indent, eol), level), eol)
    decreases ms, 2
  {
    var lay, lay', cur := Layout(indent, "\n"), Layout(indent, eol), Repeat(indent, level);
    RepeatHasNoNewline(indent, level);
    RewriteMembers(ms, indent, level + 1, eol);
    RewriteBrackets("{", FormatMembers(ms, lay, level + 1), FormatMembers(ms, lay', level + 1), cur, "}", eol);
  }

  /** Rewriting the line endings of a formatted text is formatting with the other line ending. */
  lemma {:induction false} RewriteValue(v: Json, indent: string, level: nat, eol: string)
    requires WellFormed(v) && Clean(v) && NoNewline(indent)
    ensures Rewrites(Format(v, Layout(indent, "\n"), level), Format(v, Layout(indent, eol), level), eol)
    decreases v, 3
  {
    if v.JArr? && v.items != [] {
      RewriteArray(v.items, indent, level, eol);
    } else if v.JObj? && v.members != [] {
      RewriteObject(v.members, indent, level, eol);
    } else if v.JArr? || v.JObj? {
      RewriteNone("[]", eol);
      RewriteNone("{}", eol);
    } else {
      RewriteLeaf(v, Layout(indent, "\n"), level, eol);
    }
  }

  /** What is written over the original file reads back as the value, with either line ending. */
  lemma {:induction false} WrittenReadsBack(v: Json, original: string)
    requires WellFormed(v) && Clean(v) && original != ""
    ensures ReadText(Written(v, original)) == Some(v)
  {
    var eol := if HasCrLf(original) then "\r\n" else "\n";
    RewriteValue(v, "  ", 0, eol);
    FormatRoundTrip(v, Layout("  ", eol), 0);
  }
}
