/** Reading back what the formatter writes: exactly the clean values survive. */
module JsonRoundTrip {
  import opened Prelude
  import opened JsonText
  import opened JsonFormat

  // ---------- clean values are read back ----------

  lemma {:induction false} Quoted(open: string, body: string, close: string, rest: string)
    ensures open + body + close + rest == open + (body + close + rest)
  {}

  lemma {:induction false} StringValueRoundTrip(s: string, rest: string)
    ensures ReadValue("\"" + Escape(s) + "\"" + rest) == Got(JStr(s), rest)
  {
    StringRoundTrip(s, rest);
    QuotedValue(Escape(s) + "\"" + rest, s, rest);
    Quoted("\"", Escape(s), "\"", rest);
  }

  lemma {:induction false} LeafRoundTrip(v: Json, lay: Layout, level: nat, rest: string)
    requires WellFormed(v) && Clean(v) && !v.JArr? && !v.JObj? && Stops(rest)
    ensures ReadValue(Format(v, lay, level) + rest) == Got(v, rest)
  {
    if v.JStr? {
      StringValueRoundTrip(v.s, rest);
    } else if v.JNum? {
      NumberValue(v.text, rest);
    } else {
      WordValues(rest);
    }
  }

  lemma {:induction false} WsStops(ws: string, s: string)
    requires AllWs(ws) && Stops(s)
    ensures Stops(ws + s)
  {
    if ws != [] {
      assert IsWs(ws[0]);
    } else {
      assert ws + s == s;
    }
  }

  /** What follows the first item: the other items, if any, then white space and the bracket. */
  ghost function AfterItem(items: seq<Json>, lay: Layout, level: nat,
                           before: string, gap: string, after: string, rest: string): string
    requires items != []
  {
    if |items| == 1 then after + ("]" + rest)
    else "," + (gap + (FormatItems(items[1..], lay, level, before, gap) + after + "]" + rest))
  }

  lemma {:induction false} SplitItems(items: seq<Json>, lay: Layout, level: nat,
                                      before: string, gap: string, after: string, rest: string)
    requires items != [] && AllWs(after)
    ensures FormatItems(items, lay, level, before, gap) + after + "]" + rest
         == before + (Format(items[0], lay, level) + AfterItem(items, lay, level, before, gap, after, rest))
    ensures Stops(AfterItem(items, lay, level, before, gap, after, rest))
  {
    WsStops(after, "]" + rest);
    if |items| > 1 {
      var more := FormatItems(items[1..], lay, level, before, gap);
      assert "," + gap + more + after + "]" + rest == "," + (gap + (more + after + "]" + rest));
    }
  }

  lemma {:induction false} HeadAndTail<T>(s: seq<T>)
    requires s != []
    ensures s == [s[0]] + s[1..]
  {}

  lemma {:induction false} Alone<T>(s: seq<T>)
    requires |s| == 1
    ensures s == [s[0]]
  {}

  lemma {:induction false} ItemsRoundTrip(items: seq<Json>, lay: Layout, level: nat,
                                          before: string, gap: string, after: string, rest: string)
    requires items != [] && (forall i :: 0 <= i < |items| ==> WellFormed(items[i]) && Clean(items[i]))
    requires ValidLayout(lay) && AllWs(before) && AllWs(gap) && AllWs(after)
    ensures ReadItems(FormatItems(items, lay, level, before, gap) + after + "]" + rest) == Got(items, rest)
    decreases items, 1
  {
    var tail := AfterItem(items, lay, level, before, gap, after, rest);
    var text := before + (Format(items[0], lay, level) + tail);
    SplitItems(items, lay, level, before, gap, after, rest);
    ReadOver(before, Format(items[0], lay, level) + tail);
    ValueRoundTrip(items[0], lay, level, tail);
    if |items| == 1 {
      ItemsLast(text, items[0], after, rest);
      Alone(items);
    } else {
      ItemsRoundTrip(items[1..], lay, level, before, gap, after, rest);
      ItemsNext(text, items[0], gap, FormatItems(items[1..], lay, level, before, gap) + after + "]" + rest);
      HeadAndTail(items);
    }
  }

  lemma {:induction false} SplitMember(m: Member, lay: Layout, level: nat, rest: string)
    ensures FormatMember(m, lay, level) + rest
         == Repeat(lay.indent, level) + ("\"" + (m.key + "\"" + (": " + (Format(m.value, lay, level) + rest))))
  {}

  lemma {:induction false} MemberRoundTrip(m: Member, lay: Layout, level: nat, rest: string)
    requires CleanKey(m.key) && WellFormed(m.value) && Clean(m.value) && ValidLayout(lay) && Stops(rest)
    ensures ReadMember(FormatMember(m, lay, level) + rest) == Got(m, rest)
    decreases m, 3
  {
    var value := Format(m.value, lay, level) + rest;
    SplitMember(m, lay, level, rest);
    RepeatWs(lay.indent, level);
    KeyRoundTrip(m.key, ": " + value);
    MemberValue(Repeat(lay.indent, level), m.key + "\"" + (": " + value), m.key, value);
    ValueRoundTrip(m.value, lay, level, rest);
  }

  ghost function AfterMember(ms: seq<Member>, lay: Layout, level: nat, after: string, rest: string): string
    requires ms != []
  {
    if |ms| == 1 then after + ("}" + rest)
    else "," + (lay.eol + (FormatMembers(ms[1..], lay, level) + after + "}" + rest))
  }

  lemma {:induction false} SplitMembers(ms: seq<Member>, lay: Layout, level: nat, after: string, rest: string)
    requires ms != [] && AllWs(after)
    ensures FormatMembers(ms, lay, level) + after + "}" + rest
         == FormatMember(ms[0], lay, level) + AfterMember(ms, lay, level, after, rest)
    ensures Stops(AfterMember(ms, lay, level, after, rest))
  {
    WsStops(after, "}" + rest);
    if |ms| > 1 {
      var more := FormatMembers(ms[1..], lay, level);
      assert "," + lay.eol + more + after + "}" + rest == "," + (lay.eol + (more + after + "}" + rest));
    }
  }

  lemma {:induction false} MembersRoundTrip(ms: seq<Member>, lay: Layout, level: nat, after: string, rest: string)
    requires ms != [] && ValidLayout(lay) && AllWs(after)
    requires forall i :: 0 <= i < |ms| ==> CleanKey(ms[i].key) && WellFormed(ms[i].value) && Clean(ms[i].value)
    ensures ReadMembers(FormatMembers(ms, lay, level) + after + "}" + rest) == Got(ms, rest)
    decreases ms, 1
  {
    var tail := AfterMember(ms, lay, level, after, rest);
    var text := FormatMember(ms[0], lay, level) + tail;
    SplitMembers(ms, lay, level, after, rest);
    MemberRoundTrip(ms[0], lay, level, tail);
    if |ms| == 1 {
      MembersLast(text, ms[0], after, rest);
      Alone(ms);
    } else {
      MembersRoundTrip(ms[1..], lay, level, after, rest);
      MembersNext(text, ms[0], lay.eol, FormatMembers(ms[1..], lay, level) + after + "}" + rest);
      HeadAndTail(ms);
    }
  }

  /** The three layouts of an array are one: only the white space around and between the items differs. */
  lemma {:induction false} ArrayLayout(items: seq<Json>, lay: Layout, level: nat)
      returns (lead: string, before: string, gap: string, after: string)
    requires items != [] && ValidLayout(lay)
    ensures AllWs(lead) && AllWs(before) && AllWs(gap) && AllWs(after)
    ensures Format(JArr(items), lay, level)
         == "[" + lead + FormatItems(items, lay, level + 1, before, gap) + after + "]"
  {
    RepeatWs(lay.indent, level);
    RepeatWs(lay.indent, level + 1);
    if UsesCompact(items) {
      lead, before, gap, after := "", "", " ", "";
      var body := FormatItems(items, lay, level + 1, "", " ");
      assert "[" + "" + body + "" + "]" == "[" + body + "]";
    } else {
      lead, before, gap, after := lay.eol, Repeat(lay.indent, level + 1), lay.eol, lay.eol + Repeat(lay.indent, level);
      var body := FormatItems(items, lay, level + 1, before, gap);
      assert "[" + lead + body + after + "]" == "[" + lay.eol + body + lay.eol + Repeat(lay.indent, level) + "]";
    }
  }

  lemma {:induction false} ItemsStart(items: seq<Json>, lay: Layout, level: nat,
                                      before: string, gap: string, after: string, rest: string)
    requires items != [] && WellFormed(items[0]) && AllWs(before) && AllWs(after)
    ensures !Starts(SkipWs(FormatItems(items, lay, level, before, gap) + after + "]" + rest), ']')
  {
    var head := Format(items[0], lay, level) + AfterItem(items, lay, level, before, gap, after, rest);
    SplitItems(items, lay, level, before, gap, after, rest);
    SkipOver(before, head);
    FirstChar(items[0], lay, level);
    SkipNone(head);
  }

  /** Reading a non-empty array is reading its items. */
  lemma {:induction false} ReadArray(items: seq<Json>, lay: Layout, level: nat,
                                     lead: string, before: string, gap: string, after: string, rest: string)
    requires items != [] && WellFormed(items[0])
    requires AllWs(lead) && AllWs(before) && AllWs(gap) && AllWs(after)
    requires Format(JArr(items), lay, level)
          == "[" + lead + FormatItems(items, lay, level + 1, before, gap) + after + "]"
    ensures var r := ReadItems(FormatItems(items, lay, level + 1, before, gap) + after + "]" + rest);
      ReadValue(Format(JArr(items), lay, level) + rest) == if r.Fail? then Fail else Got(JArr(r.value), r.rest)
  {
    var body := FormatItems(items, lay, level + 1, before, gap);
    ItemsStart(items, lay, level + 1, before, gap, after, rest);
    ArrayItems(lead, body + after + "]" + rest);
    Bracketed("[", lead, body, after, "]", rest);
  }

  lemma {:induction false} Bracketed(open: string, lead: string, body: string, after: string, close: string, rest: string)
    ensures open + lead + body + after + close + rest == open + (lead + (body + after + close + rest))
  {}

  lemma {:induction false} MembersStart(ms: seq<Member>, lay: Layout, level: nat, after: string, rest: string)
    requires ms != [] && ValidLayout(lay) && AllWs(after)
    ensures !Starts(SkipWs(FormatMembers(ms, lay, level) + after + "}" + rest), '}')
  {
    var tail := AfterMember(ms, lay, level, after, rest);
    RepeatWs(lay.indent, level);
    SplitMembers(ms, lay, level, after, rest);
    SplitMember(ms[0], lay, level, tail);
    var quoted := "\"" + (ms[0].key + "\"" + (": " + (Format(ms[0].value, lay, level) + tail)));
    SkipOver(Repeat(lay.indent, level), quoted);
    SkipNone(quoted);
  }

  ghost function Closing(lay: Layout, level: nat): string {
    lay.eol + Repeat(lay.indent, level)
  }

  /** Reading a non-empty object is reading its members. */
  lemma {:induction false} ReadObject(ms: seq<Member>, lay: Layout, level: nat, rest: string)
    requires ms != [] && ValidLayout(lay)
    ensures AllWs(Closing(lay, level))
    ensures var r := ReadMembers(FormatMembers(ms, lay, level + 1) + Closing(lay, level) + "}" + rest);
      ReadValue(Format(JObj(ms), lay, level) + rest) == if r.Fail? then Fail else Got(JObj(r.value), r.rest)
  {
    RepeatWs(lay.indent, level);
    var body, after := FormatMembers(ms, lay, level + 1), Closing(lay, level);
    MembersStart(ms, lay, level + 1, after, rest);
    ObjectMembers(lay.eol, body + after + "}" + rest);
    Bracketed("{", lay.eol, body, after, "}", rest);
    assert Format(JObj(ms), lay, level) == "{" + lay.eol + body + after + "}" by {
      assert "{" + lay.eol + body + lay.eol + Repeat(lay.indent, level) + "}" == "{" + lay.eol + body + after + "}";
    }
  }

  lemma {:induction false} ValueRoundTrip(v: Json, lay: Layout, level: nat, rest: string)
    requires WellFormed(v) && Clean(v) && ValidLayout(lay) && Stops(rest)
    ensures ReadValue(Format(v, lay, level) + rest) == Got(v, rest)
    decreases v, 2
  {
    if v.JArr? && v.items != [] {
      var lead, before, gap, after := ArrayLayout(v.items, lay, level);
      ReadArray(v.items, lay, level, lead, before, gap, after, rest);
      ItemsRoundTrip(v.items, lay, level + 1, before, gap, after, rest);
    } else if v.JObj? && v.members != [] {
      ReadObject(v.members, lay, level, rest);
      MembersRoundTrip(v.members, lay, level + 1, Closing(lay, level), rest);
    } else if v.JArr? || v.JObj? {
      EmptyBrackets(rest);
    } else {
      LeafRoundTrip(v, lay, level, rest);
    }
  }

  // ---------- other values are not ----------

  /** How many characters of the text the first character read takes. */
  ghost function Taken(raw: string): (n: nat)
    requires ReadString(raw).Got? && raw[0] != '"'
    ensures 1 <= n <= |raw| && (raw[0] != '\\' ==> n == 1)
    ensures forall j :: 1 <= j < n && raw[j] == '"' ==> j == 1 && raw[0] == '\\' && Starts(ReadString(raw).value, '"')
    ensures ReadString(raw[n..]).Got? && ReadString(raw).value == ReadString(raw).value[..1] + ReadString(raw[n..]).value
  {
    if raw[0] == '\\' then
      UnescapeShape(raw[1..]);
      assert forall j :: 1 <= j < |raw| ==> raw[j] == raw[1..][j - 1];
      1 + Unescape(raw[1..]).value.1
    else 1
  }

  /** A quote among the characters taken can only have been taken as part of an earlier escaped quote. */
  lemma {:induction false} QuoteComesEarlier(raw: string, j: nat) returns (i: nat)
    requires ReadString(raw).Got? && j < |ReadString(raw).value| && j < |raw| && raw[j] == '"'
    ensures i < j && ReadString(raw).value[i] == '"'
    decreases |raw|
  {
    var taken := Taken(raw);
    if j < taken {
      i := 0;
    } else {
      var i' := QuoteComesEarlier(raw[taken..], j - taken);
      i := i' + 1;
    }
  }

  lemma {:induction false} NoQuoteAt(key: string, rest: string, j: nat)
    requires ReadString(key + "\"" + rest).Got? && ReadString(key + "\"" + rest).value == key && j < |key|
    ensures key[j] != '"'
    decreases j
  {
    if key[j] == '"' {
      var i := QuoteComesEarlier(key + "\"" + rest, j);
      NoQuoteAt(key, rest, i);
    }
  }

  ghost predicate NoQuote(s: string) {
    forall i :: 0 <= i < |s| ==> s[i] != '"'
  }

  lemma {:induction false} DropFront(k: string, rest: string, n: nat)
    requires n <= |k|
    ensures (k + "\"" + rest)[n..] == k[n..] + "\"" + rest
  {}

  lemma {:induction false} NoQuoteBehind(p: string, front: string, q: string)
    requires NoQuote(p) && p == front + q
    ensures NoQuote(q)
  {
    forall i | 0 <= i < |q| ensures q[i] != '"' {
      assert q[i] == p[|front| + i];
    }
  }

  lemma {:induction false} TakenWithin(k: string, raw: string)
    requires |k| < |raw| && k != [] && raw[0] == k[0] && raw[|k|] == '"' && k[0] != '"'
    requires ReadString(raw).Got? && NoQuote(ReadString(raw).value)
    ensures Taken(raw) <= |k| && NoQuote(ReadString(raw[Taken(raw)..]).value)
  {
    var p := ReadString(raw).value;
    NoQuoteBehind(p, p[..1], ReadString(raw[Taken(raw)..]).value);
  }

  /** Without quotes the reader stops at the key's own closing quote, and each escape costs a character. */
  lemma {:induction false} EscapesShorten(k: string, rest: string)
    requires NoQuote(k) && ReadString(k + "\"" + rest).Got? && NoQuote(ReadString(k + "\"" + rest).value)
    ensures |ReadString(k + "\"" + rest).value| <= |k|
    ensures |ReadString(k + "\"" + rest).value| == |k| ==> CleanKey(k)
    decreases |k|
  {
    var raw := k + "\"" + rest;
    if k == [] {
      assert raw[0] == '"';
    } else {
      TakenWithin(k, raw);
      var n := Taken(raw);
      DropFront(k, rest, n);
      EscapesShorten(k[n..], rest);
      if |ReadString(raw).value| == |k| {
        TakenPlain(raw);
        assert n == 1 && IsPlain(k[0]);
        assert forall i :: 1 <= i < |k| ==> k[i] == k[1..][i - 1];
      }
    }
  }

  lemma {:induction false} TakenPlain(raw: string)
    requires ReadString(raw).Got? && raw[0] != '"'
    ensures Taken(raw) == 1 ==> IsPlain(raw[0])
  {
    if raw[0] == '\\' {
      UnescapeShape(raw[1..]);
    }
  }

  /** A key that would need escaping is not read back as itself. */
  lemma {:induction false} DirtyKey(key: string, rest: string)
    requires ReadString(key + "\"" + rest).Got? && ReadString(key + "\"" + rest).value == key
    ensures CleanKey(key)
  {
    forall j | 0 <= j < |key| ensures key[j] != '"' {
      NoQuoteAt(key, rest, j);
    }
    EscapesShorten(key, rest);
  }

  /** The text is not read as this value, whatever follows it. */
  ghost predicate Lost<T>(r: Parsed<T>, v: T) {
    r.Got? ==> r.value != v
  }

  lemma {:induction false} LeafLost(v: Json, lay: Layout, level: nat, rest: string)
    requires WellFormed(v) && (v.Undefined? || v.NonFinite?)
    ensures Lost(ReadValue(Format(v, lay, level) + rest), v)
  {
    if v.Undefined? {
      WordValues(rest);
    } else {
      var t := v.text + rest;
      assert t[0] == v.text[0] && (v.text[0] == '-' ==> t[1] == 'I');
      NotANumber(t);
      ReadNumber(t);
    }
  }

  lemma {:induction false} ItemsHeadLost(text: string, items: seq<Json>)
    requires items != [] && Lost(ReadValue(text), items[0])
    ensures Lost(ReadItems(text), items)
  {}

  lemma {:induction false} ItemsTailLost(text: string, items: seq<Json>, gap: string, next: string)
    requires |items| > 1 && AllWs(gap) && ReadValue(text) == Got(items[0], "," + (gap + next))
    requires Lost(ReadItems(next), items[1..])
    ensures Lost(ReadItems(text), items)
  {
    ItemsNext(text, items[0], gap, next);
    if ReadItems(text).Got? {
      assert ReadItems(text).value[1..] == ReadItems(next).value;
    }
  }

  lemma {:induction false} MembersHeadLost(text: string, ms: seq<Member>)
    requires ms != [] && Lost(ReadMember(text), ms[0])
    ensures Lost(ReadMembers(text), ms)
  {}

  lemma {:induction false} MembersTailLost(text: string, ms: seq<Member>, gap: string, next: string)
    requires |ms| > 1 && AllWs(gap) && ReadMember(text) == Got(ms[0], "," + (gap + next))
    requires Lost(ReadMembers(next), ms[1..])
    ensures Lost(ReadMembers(text), ms)
  {
    MembersNext(text, ms[0], gap, next);
    if ReadMembers(text).Got? {
      assert ReadMembers(text).value[1..] == ReadMembers(next).value;
    }
  }

  ghost predicate SomeDirty(items: seq<Json>) {
    exists i :: 0 <= i < |items| && !Clean(items[i])
  }

  ghost predicate CleanMember(m: Member) {
    CleanKey(m.key) && Clean(m.value)
  }

  ghost predicate SomeDirtyMember(ms: seq<Member>) {
    exists i :: 0 <= i < |ms| && !CleanMember(ms[i])
  }

  lemma {:induction false} DirtyLater(items: seq<Json>)
    requires SomeDirty(items) && Clean(items[0])
    ensures |items| > 1 && SomeDirty(items[1..])
  {
    var i :| 0 <= i < |items| && !Clean(items[i]);
    assert items[1..][i - 1] == items[i];
  }

  lemma {:induction false} DirtyMemberLater(ms: seq<Member>)
    requires SomeDirtyMember(ms) && CleanMember(ms[0])
    ensures |ms| > 1 && SomeDirtyMember(ms[1..])
  {
    var i :| 0 <= i < |ms| && !CleanMember(ms[i]);
    assert ms[1..][i - 1] == ms[i];
  }

  lemma {:induction false} ItemsLost(items: seq<Json>, lay: Layout, level: nat,
                                     before: string, gap: string, after: string, rest: string)
    requires items != [] && (forall i :: 0 <= i < |items| ==> WellFormed(items[i]))
    requires ValidLayout(lay) && AllWs(before) && AllWs(gap) && AllWs(after)
    requires SomeDirty(items)
    ensures Lost(ReadItems(FormatItems(items, lay, level, before, gap) + after + "]" + rest), items)
    decreases items, 1
  {
    var tail := AfterItem(items, lay, level, before, gap, after, rest);
    var text := before + (Format(items[0], lay, level) + tail);
    SplitItems(items, lay, level, before, gap, after, rest);
    ReadOver(before, Format(items[0], lay, level) + tail);
    if !Clean(items[0]) {
      ValueLost(items[0], lay, level, tail);
      ItemsHeadLost(text, items);
    } else {
      DirtyLater(items);
      ValueRoundTrip(items[0], lay, level, tail);
      ItemsLost(items[1..], lay, level, before, gap, after, rest);
      ItemsTailLost(text, items, gap, FormatItems(items[1..], lay, level, before, gap) + after + "]" + rest);
    }
  }

  lemma {:induction false} MemberLost(m: Member, lay: Layout, level: nat, rest: string)
    requires WellFormed(m.value) && ValidLayout(lay) && !CleanMember(m)
    ensures Lost(ReadMember(FormatMember(m, lay, level) + rest), m)
    decreases m, 3
  {
    var value := Format(m.value, lay, level) + rest;
    var inner := m.key + "\"" + (": " + value);
    SplitMember(m, lay, level, rest);
    RepeatWs(lay.indent, level);
    if !CleanKey(m.key) {
      MemberOpen(Repeat(lay.indent, level), inner);
      if ReadString(inner).Got? && ReadString(inner).value == m.key {
        DirtyKey(m.key, ": " + value);
      }
    } else {
      KeyRoundTrip(m.key, ": " + value);
      MemberValue(Repeat(lay.indent, level), inner, m.key, value);
      ValueLost(m.value, lay, level, rest);
    }
  }

  lemma {:induction false} MembersLost(ms: seq<Member>, lay: Layout, level: nat, after: string, rest: string)
    requires ms != [] && ValidLayout(lay) && AllWs(after)
    requires forall i :: 0 <= i < |ms| ==> WellFormed(ms[i].value)
    requires SomeDirtyMember(ms)
    ensures Lost(ReadMembers(FormatMembers(ms, lay, level) + after + "}" + rest), ms)
    decreases ms, 1
  {
    var tail := AfterMember(ms, lay, level, after, rest);
    var text := FormatMember(ms[0], lay, level) + tail;
    SplitMembers(ms, lay, level, after, rest);
    if !CleanMember(ms[0]) {
      MemberLost(ms[0], lay, level, tail);
      MembersHeadLost(text, ms);
    } else {
      DirtyMemberLater(ms);
      MemberRoundTrip(ms[0], lay, level, tail);
      MembersLost(ms[1..], lay, level, after, rest);
      MembersTailLost(text, ms, lay.eol, FormatMembers(ms[1..], lay, level) + after + "}" + rest);
    }
  }

  lemma {:induction false} ValueLost(v: Json, lay: Layout, level: nat, rest: string)
    requires WellFormed(v) && !Clean(v) && ValidLayout(lay)
    ensures Lost(ReadValue(Format(v, lay, level) + rest), v)
    decreases v, 2
  {
    if v.JArr? {
      var lead, before, gap, after := ArrayLayout(v.items, lay, level);
      ReadArray(v.items, lay, level, lead, before, gap, after, rest);
      assert SomeDirty(v.items);
      ItemsLost(v.items, lay, level + 1, before, gap, after, rest);
    } else if v.JObj? {
      ReadObject(v.members, lay, level, rest);
      assert SomeDirtyMember(v.members) by {
        var i :| 0 <= i < |v.members| && !(CleanKey(v.members[i].key) && Clean(v.members[i].value));
        assert !CleanMember(v.members[i]);
      }
      MembersLost(v.members, lay, level + 1, Closing(lay, level), rest);
    } else {
      LeafLost(v, lay, level, rest);
    }
  }

  /** Printer round trip: at every nesting level, exactly the clean values are read back. */
  lemma {:induction false} FormatRoundTrip(v: Json, lay: Layout, level: nat)
    requires WellFormed(v) && ValidLayout(lay)
    ensures ReadText(Format(v, lay, level)) == Some(v) <==> Clean(v)
  {
    var t := Format(v, lay, level);
    assert t + "" == t;
    if Clean(v) {
      ValueRoundTrip(v, lay, level, "");
    } else {
      ValueLost(v, lay, level, "");
    }
  }
}
