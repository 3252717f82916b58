/**
 The `Forwarded` header of RFC 7239 (sections 4, 5.2 and 6): the mirror client writes the client
 address into it, the server reads an address out of it. Header text is taken as Latin-1.
 */
module ForwardedHeader {
  import opened Prelude

  predicate IsSpace(c: char) {
    c == ' ' || c == '\t' || c == '\n' || c == '\r' || c == '\U{b}' || c == '\U{c}' || c == '\U{a0}'
  }

  function TrimStart(s: string): string {
    if s != [] && IsSpace(s[0]) then TrimStart(s[1..]) else s
  }

  function TrimEnd(s: string): string {
    if s != [] && IsSpace(s[|s| - 1]) then TrimEnd(s[..|s| - 1]) else s
  }

  function Trim(s: string): string {
    TrimEnd(TrimStart(s))
  }

  function LowerChar(c: char): char {
    if 'A' <= c <= 'Z' then (c as int + 32) as char else c
  }

  function Lower(s: string): (r: string)
    ensures |r| == |s|
  {
    seq(|s|, i requires 0 <= i < |s| => LowerChar(s[i]))
  }

  /** The first index at or after `from` where `c` stands, or the length. */
  function IndexOf(s: string, c: char, from: nat): (i: nat)
    requires from <= |s|
    ensures from <= i <= |s| && (i < |s| ==> s[i] == c) && forall j :: from <= j < i ==> s[j] != c
    decreases |s| - from
  {
    if from == |s| || s[from] == c then from else IndexOf(s, c, from + 1)
  }

  /** The first index at or after `from` where `pat` begins, or the length. */
  function IndexOfText(s: string, pat: string, from: nat): (i: nat)
    requires from <= |s| && pat != []
    ensures from <= i <= |s| && (i < |s| ==> pat <= s[i..])
    decreases |s| - from
  {
    if from == |s| || pat <= s[from..] then from else IndexOfText(s, pat, from + 1)
  }

  predicate IsDelimiter(c: char) {
    c == ';' || c == ',' || c == ' ' || c == '\t'
  }

  /** Where an unquoted value ends. */
  function ValueEnd(s: string, from: nat): (i: nat)
    requires from <= |s|
    ensures from <= i <= |s|
    decreases |s| - from
  {
    if from == |s| || IsDelimiter(s[from]) then from else ValueEnd(s, from + 1)
  }

  predicate IsAddressChar(c: char) {
    ('a' <= c <= 'f') || ('A' <= c <= 'F') || ('0' <= c <= '9') || c == ':' || c == '.'
  }

  /** What the parser accepts as an address. */
  predicate IsAddress(ip: string) {
    1 <= |ip| <= 45 && forall i :: 0 <= i < |ip| ==> IsAddressChar(ip[i])
  }

  /** The brackets an IPv6 address may stand in inside quotes. */
  function Unbracket(ip: string): string {
    if |ip| >= 2 && ip[0] == '[' && ip[|ip| - 1] == ']' then ip[1..|ip| - 1] else ip
  }

  /** The raw value of the first `for=` parameter of an entry, or nothing if it is malformed. */
  function RawValue(entry: string): Option<string> {
    var at := IndexOfText(Lower(entry), "for=", 0);
    if at == |entry| || at + 4 >= |entry| then None
    else
      var start := at + 4;
      if entry[start] == '"' then
        var close := IndexOf(entry, '"', start + 1);
        if close == |entry| then None else Some(Unbracket(entry[start + 1..close]))
      else if entry[start] == '[' then
        var close := IndexOf(entry, ']', start + 1);
        if close == |entry| then None else Some(entry[start + 1..close])
      else Some(entry[start..ValueEnd(entry, start)])
  }

  /** `parseForwardedHeader` as a function of the header text. */
  function Parse(header: string): (r: Option<string>)
    ensures r.Some? ==> IsAddress(r.value)
  {
    if |header| > 1000 then None
    else
      var entry := Trim(header[..IndexOf(header, ',', 0)]);
      var raw := RawValue(entry);
      if raw.Some? && IsAddress(raw.value) then raw else None
  }

  /** The scanning loops of the source, for the unquoted value and for the two closing characters. */
  method ParseForwardedHeader(header: string) returns (r: Option<string>)
    ensures r == Parse(header)
    ensures r.Some? ==> 1 <= |r.value| <= 45 && forall i :: 0 <= i < |r.value| ==> IsAddressChar(r.value[i])
  {
    if |header| > 1000 {
      return None;
    }
    var entry := Trim(header[..IndexOf(header, ',', 0)]);
    if entry == "" {
      return None;
    }
    var forIndex := IndexOfText(Lower(entry), "for=", 0);
    if forIndex == |entry| {
      return None;
    }
    var valueStart := forIndex + 4;
    if valueStart >= |entry| {
      return None;
    }
    var ip;
    if entry[valueStart] == '"' {
      var closeQuote := IndexOf(entry, '"', valueStart + 1);
      if closeQuote == |entry| {
        return None;
      }
      ip := Unbracket(entry[valueStart + 1..closeQuote]);
    } else if entry[valueStart] == '[' {
      var closeBracket := IndexOf(entry, ']', valueStart + 1);
      if closeBracket == |entry| {
        return None;
      }
      ip := entry[valueStart + 1..closeBracket];
    } else {
      var endIndex := valueStart;
      while endIndex < |entry| && !IsDelimiter(entry[endIndex])
        invariant valueStart <= endIndex <= |entry|
        invariant ValueEnd(entry, endIndex) == ValueEnd(entry, valueStart)
      {
        endIndex := endIndex + 1;
      }
      ip := entry[valueStart..endIndex];
    }
    if !IsAddress(ip) {
      return None;
    }
    return Some(ip);
  }

  /** `formatIpForForwardedHeader`. */
  function FormatIp(ip: string): string {
    if ':' in ip && ip[0] != '[' then "[" + ip + "]" else ip
  }

  /** The header the mirror client sends. */
  function Header(ip: string): string {
    "for=\"" + FormatIp(ip) + "\""
  }

  lemma {:induction false} NoComma(s: string, from: nat)
    requires from <= |s| && forall i :: 0 <= i < |s| ==> s[i] != ','
    ensures IndexOf(s, ',', from) == |s|
  {}

  /** What stands between the quotes has neither quote nor comma, and unbrackets to the address. */
  lemma {:induction false} FormatIpShape(ip: string)
    requires IsAddress(ip)
    ensures var f := FormatIp(ip);
      && |f| <= 47 && (forall i :: 0 <= i < |f| ==> f[i] != '"' && f[i] != ',')
      && Unbracket(f) == ip
  {
    var f := FormatIp(ip);
    assert IsAddressChar(ip[0]);
    if ':' in ip {
      assert f == "[" + ip + "]" && f[1..|f| - 1] == ip;
      forall i | 0 <= i < |f| ensures f[i] != '"' && f[i] != ',' {
        assert 0 < i < |f| - 1 ==> f[i] == ip[i - 1] && IsAddressChar(ip[i - 1]);
      }
    } else {
      forall i | 0 <= i < |f| ensures f[i] != '"' && f[i] != ',' {
        assert IsAddressChar(ip[i]);
      }
    }
  }

  lemma {:induction false} QuotedHeader(f: string)
    requires |f| <= 47 && forall i :: 0 <= i < |f| ==> f[i] != '"' && f[i] != ','
    ensures var h := "for=\"" + f + "\""; |h| <= 1000 && Trim(h[..IndexOf(h, ',', 0)]) == h && RawValue(h) == Some(Unbracket(f))
  {
    var h := "for=\"" + f + "\"";
    NoComma(h, 0);
    assert h[..|h|] == h;
    assert !IsSpace(h[0]) && !IsSpace(h[|h| - 1]);
    assert TrimStart(h) == h && TrimEnd(h) == h;
    var l := Lower(h);
    assert l[0] == 'f' && l[1] == 'o' && l[2] == 'r' && l[3] == '=';
    assert "for=" <= l[0..] by { assert l[0..] == l && l[..4] == "for="; }
    assert IndexOfText(l, "for=", 0) == 0;
    assert h[4] == '"' && h[|h| - 1] == '"';
    assert forall i :: 5 <= i < |h| - 1 ==> h[i] == f[i - 5];
    assert IndexOf(h, '"', 5) == |h| - 1;
    assert h[5..|h| - 1] == f;
  }

  /** Forwarded header round trip: every address the client can send is read back unchanged. */
  lemma {:induction false} HeaderRoundTrip(ip: string)
    requires IsAddress(ip)
    ensures Parse(Header(ip)) == Some(ip)
  {
    FormatIpShape(ip);
    QuotedHeader(FormatIp(ip));
  }

  /** An address with a colon is put in brackets, any other is not. */
  lemma {:induction false} HeaderText(ip: string)
    requires IsAddress(ip)
    ensures Header(ip) == if exists i :: 0 <= i < |ip| && ip[i] == ':' then "for=\"[" + ip + "]\"" else "for=\"" + ip + "\""
  {
    assert IsAddressChar(ip[0]);
    if ':' in ip {
      assert "for=\"" + ("[" + ip + "]") + "\"" == "for=\"[" + ip + "]\"";
    }
  }

  // ---------- which headers give which address ----------

  /** What `trim` removes, of Latin-1. */
  ghost predicate Blank(c: char) {
    c == ' ' || '\t' <= c <= '\r' || c == '\U{a0}'
  }

  ghost predicate AllSpaces(s: string) {
    forall i :: 0 <= i < |s| ==> Blank(s[i])
  }

  /** What stands before the first comma, without the blanks around it. */
  ghost predicate IsFirstEntry(header: string, entry: string) {
    exists a, b, n ::
      && FirstComma(header, n) && header[..n] == a + entry + b && AllSpaces(a) && AllSpaces(b)
      && (entry != "" ==> !Blank(entry[0]) && !Blank(entry[|entry| - 1]))
  }

  ghost predicate FirstComma(header: string, n: int) {
    0 <= n <= |header| && (n < |header| ==> header[n] == ',') && forall i :: 0 <= i < n ==> header[i] != ','
  }

  /** "for=" in any case. */
  ghost predicate ForAt(s: string, i: int) {
    && 0 <= i && i + 4 <= |s|
    && (s[i] == 'f' || s[i] == 'F') && (s[i + 1] == 'o' || s[i + 1] == 'O') && (s[i + 2] == 'r' || s[i + 2] == 'R')
    && s[i + 3] == '='
  }

  ghost predicate FirstFor(s: string, i: int) {
    ForAt(s, i) && forall j :: 0 <= j < i ==> !ForAt(s, j)
  }

  /** Quoted up to the next quote, the brackets of an IPv6 address dropped. */
  ghost predicate QuotedValue(value: string, ip: string) {
    value != "" && value[0] == '"' && exists n :: NextIs(value, '"', n) && ip == WithoutBrackets(value[1..n])
  }

  /** The character stands at `n`, and nowhere between the first place and that one. */
  ghost predicate NextIs(value: string, c: char, n: int) {
    0 < n < |value| && value[n] == c && forall i :: 0 < i < n ==> value[i] != c
  }

  ghost function WithoutBrackets(q: string): string {
    if |q| >= 2 && q[0] == '[' && q[|q| - 1] == ']' then q[1..|q| - 1] else q
  }

  /** In brackets, up to the next closing one. */
  ghost predicate BracketedValue(value: string, ip: string) {
    value != "" && value[0] == '[' && exists n :: NextIs(value, ']', n) && ip == value[1..n]
  }

  /** Bare, up to the next semicolon, comma, space or tab. */
  ghost predicate BareValue(value: string, ip: string) {
    && value != "" && value[0] != '"' && value[0] != '['
    && exists n :: 0 <= n <= |value| && ip == value[..n]
         && (n < |value| ==> value[n] == ';' || value[n] == ',' || value[n] == ' ' || value[n] == '\t')
         && forall i :: 0 <= i < n ==> value[i] != ';' && value[i] != ',' && value[i] != ' ' && value[i] != '\t'
  }

  lemma {:induction false} TrimStartOver(a: string, s: string)
    requires AllSpaces(a)
    ensures TrimStart(a + s) == TrimStart(s)
  {
    if a == [] {
      assert a + s == s;
    } else {
      TrimStartOver(a[1..], s);
      assert (a + s)[1..] == a[1..] + s;
    }
  }

  lemma {:induction false} TrimEndOver(s: string, b: string)
    requires AllSpaces(b)
    ensures TrimEnd(s + b) == TrimEnd(s)
  {
    if b == [] {
      assert s + b == s;
    } else {
      TrimEndOver(s, b[..|b| - 1]);
      assert (s + b)[..|s + b| - 1] == s + b[..|b| - 1];
    }
  }

  lemma {:induction false} TrimmedAs(a: string, entry: string, b: string)
    requires AllSpaces(a) && AllSpaces(b) && (entry != "" ==> !Blank(entry[0]) && !Blank(entry[|entry| - 1]))
    ensures Trim(a + entry + b) == entry
  {
    assert a + entry + b == a + (entry + b);
    TrimStartOver(a, entry + b);
    if entry == "" {
      assert entry + b == b + "";
      TrimStartOver(b, "");
    } else {
      assert TrimStart(entry + b) == entry + b;
      TrimEndOver(entry, b);
      assert TrimEnd(entry) == entry;
    }
  }

  lemma {:induction false} TrimStartParts(s: string) returns (a: string)
    ensures AllSpaces(a) && s == a + TrimStart(s) && (TrimStart(s) != "" ==> !Blank(TrimStart(s)[0]))
  {
    a := "";
    if s != [] && Blank(s[0]) {
      a := TrimStartParts(s[1..]);
      a := [s[0]] + a;
    }
  }

  lemma {:induction false} TrimEndParts(s: string) returns (b: string)
    ensures AllSpaces(b) && s == TrimEnd(s) + b && (TrimEnd(s) != "" ==> !Blank(TrimEnd(s)[|TrimEnd(s)| - 1]))
  {
    b := "";
    if s != [] && Blank(s[|s| - 1]) {
      b := TrimEndParts(s[..|s| - 1]);
      b := b + [s[|s| - 1]];
    }
  }

  lemma {:induction false} FirstEntryIff(header: string, entry: string)
    ensures IsFirstEntry(header, entry) <==> entry == Trim(header[..IndexOf(header, ',', 0)])
  {
    var n := IndexOf(header, ',', 0);
    if IsFirstEntry(header, entry) {
      var a, b, m :| FirstComma(header, m) && header[..m] == a + entry + b && AllSpaces(a) && AllSpaces(b)
        && (entry != "" ==> !Blank(entry[0]) && !Blank(entry[|entry| - 1]));
      assert m == n;
      TrimmedAs(a, entry, b);
    }
    if entry == Trim(header[..n]) {
      var a := TrimStartParts(header[..n]);
      var b := TrimEndParts(TrimStart(header[..n]));
      assert header[..n] == a + entry + b;
      assert FirstComma(header, n);
      if entry != "" {
        assert TrimStart(header[..n])[0] == entry[0];
      }
    }
  }

  lemma {:induction false} ForIff(s: string, i: nat)
    ensures ForAt(s, i) <==> i < |s| && "for=" <= Lower(s)[i..]
  {
    if i + 4 <= |s| {
      var l := Lower(s)[i..];
      assert l[0] == LowerChar(s[i]) && l[1] == LowerChar(s[i + 1]) && l[2] == LowerChar(s[i + 2]) && l[3] == LowerChar(s[i + 3]);
      assert "for=" <= l <==> l[0] == 'f' && l[1] == 'o' && l[2] == 'r' && l[3] == '=';
    }
  }

  lemma {:induction false} NotBeforeIndex(s: string, pat: string, from: nat, j: nat)
    requires pat != [] && from <= |s| && from <= j < IndexOfText(s, pat, from)
    ensures !(pat <= s[j..])
    decreases |s| - from
  {
    if from < j {
      NotBeforeIndex(s, pat, from + 1, j);
    }
  }

  lemma {:induction false} FirstForIff(s: string, i: nat)
    ensures FirstFor(s, i) <==> i == IndexOfText(Lower(s), "for=", 0) < |s|
  {
    var at := IndexOfText(Lower(s), "for=", 0);
    forall j: nat | j < at ensures !ForAt(s, j) {
      ForIff(s, j);
      NotBeforeIndex(Lower(s), "for=", 0, j);
    }
    ForIff(s, at);
    ForIff(s, i);
  }

  /** The value of an entry's first "for=" in one of its three forms. */
  ghost predicate ReadsValue(value: string, ip: string) {
    QuotedValue(value, ip) || BracketedValue(value, ip) || BareValue(value, ip)
  }

  lemma {:induction false} ValueEndStops(s: string, from: nat)
    requires from <= |s|
    ensures var e := ValueEnd(s, from);
      && (e < |s| ==> IsDelimiter(s[e])) && forall i :: from <= i < e ==> !IsDelimiter(s[i])
    decreases |s| - from
  {
    if from < |s| && !IsDelimiter(s[from]) {
      ValueEndStops(s, from + 1);
    }
  }

  /** Looking for the next `c` in the entry is looking for it in the value. */
  lemma {:induction false} NextIff(entry: string, start: nat, c: char, n: int)
    requires start < |entry|
    ensures NextIs(entry[start..], c, n) <==> start + n == IndexOf(entry, c, start + 1) < |entry|
    ensures 0 < n < |entry| - start ==> entry[start..][1..n] == entry[start + 1..start + n]
  {
    var value, close := entry[start..], IndexOf(entry, c, start + 1);
    assert forall i :: 0 <= i < |value| ==> value[i] == entry[start + i];
    if NextIs(value, c, n) {
      assert entry[start + n] == c;
    }
  }

  lemma {:induction false} QuotedIff(entry: string, start: nat, ip: string)
    requires start < |entry| && entry[start] == '"'
    ensures var close := IndexOf(entry, '"', start + 1);
      ReadsValue(entry[start..], ip) <==> close < |entry| && ip == Unbracket(entry[start + 1..close])
  {
    var close := IndexOf(entry, '"', start + 1);
    assert entry[start..][0] == '"';
    NextIff(entry, start, '"', close - start);
    forall n | NextIs(entry[start..], '"', n) ensures n == close - start && close < |entry| {
      NextIff(entry, start, '"', n);
    }
  }

  lemma {:induction false} BracketedIff(entry: string, start: nat, ip: string)
    requires start < |entry| && entry[start] == '['
    ensures var close := IndexOf(entry, ']', start + 1);
      ReadsValue(entry[start..], ip) <==> close < |entry| && ip == entry[start + 1..close]
  {
    var close := IndexOf(entry, ']', start + 1);
    assert entry[start..][0] == '[';
    NextIff(entry, start, ']', close - start);
    forall n | NextIs(entry[start..], ']', n) ensures n == close - start && close < |entry| {
      NextIff(entry, start, ']', n);
    }
  }

  lemma {:induction false} BareIff(entry: string, start: nat, ip: string)
    requires start < |entry| && entry[start] != '"' && entry[start] != '['
    ensures ReadsValue(entry[start..], ip) <==> ip == entry[start..ValueEnd(entry, start)]
  {
    var value, n := entry[start..], ValueEnd(entry, start) - start;
    assert forall i :: 0 <= i < |value| ==> value[i] == entry[start + i];
    ValueEndStops(entry, start);
    assert value[..n] == entry[start..ValueEnd(entry, start)];
    if BareValue(value, ip) {
      var m :| 0 <= m <= |value| && ip == value[..m]
         && (m < |value| ==> value[m] == ';' || value[m] == ',' || value[m] == ' ' || value[m] == '\t')
         && forall i :: 0 <= i < m ==> value[i] != ';' && value[i] != ',' && value[i] != ' ' && value[i] != '\t';
      assert !(m < n) && !(n < m);
    }
  }

  lemma {:induction false} RawValueIff(entry: string, ip: string)
    ensures RawValue(entry) == Some(ip) <==>
      exists at :: FirstFor(entry, at) && at + 4 < |entry| && ReadsValue(entry[at + 4..], ip)
  {
    var at := IndexOfText(Lower(entry), "for=", 0);
    FirstForIff(entry, at);
    forall i | FirstFor(entry, i) ensures i == at {
      FirstForIff(entry, i);
    }
    if at < |entry| && at + 4 < |entry| {
      var start := at + 4;
      if entry[start] == '"' {
        QuotedIff(entry, start, ip);
      } else if entry[start] == '[' {
        BracketedIff(entry, start, ip);
      } else {
        BareIff(entry, start, ip);
      }
    }
  }

  /**
   The parser returns an address exactly when the header is not too long, the address is one, and the
   first entry's first "for=" has it as its value, quoted, in brackets or bare.
   */
  lemma {:induction false} ParsedIff(header: string, ip: string)
    ensures Parse(header) == Some(ip) <==> (
      && |header| <= 1000 && 1 <= |ip| <= 45
      && (forall i :: 0 <= i < |ip| ==>
            'a' <= ip[i] <= 'f' || 'A' <= ip[i] <= 'F' || '0' <= ip[i] <= '9' || ip[i] == ':' || ip[i] == '.')
      && exists entry, at ::
           IsFirstEntry(header, entry) && FirstFor(entry, at) && at + 4 < |entry| && ReadsValue(entry[at + 4..], ip))
  {
    var entry := Trim(header[..IndexOf(header, ',', 0)]);
    FirstEntryIff(header, entry);
    forall e | IsFirstEntry(header, e) ensures e == entry {
      FirstEntryIff(header, e);
    }
    RawValueIff(entry, ip);
    assert IsAddress(ip) <==> 1 <= |ip| <= 45 && forall i :: 0 <= i < |ip| ==>
      'a' <= ip[i] <= 'f' || 'A' <= ip[i] <= 'F' || '0' <= ip[i] <= '9' || ip[i] == ':' || ip[i] == '.';
  }
}
