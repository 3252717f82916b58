/** `decodeErrorMessage`: reading the text of a Solidity `Error(string)` revert. */
module ErrorMessage {
  import opened Prelude

  type Byte = n: int | 0 <= n < 256

  function HexDigit(n: nat): char
    requires n < 16
  {
    if n < 10 then ('0' as int + n) as char else ('a' as int + n - 10) as char
  }

  function DigitValue(c: char): Option<nat> {
    if '0' <= c <= '9' then Some(c as int - '0' as int)
    else if 'a' <= c <= 'f' then Some(c as int - 'a' as int + 10)
    else if 'A' <= c <= 'F' then Some(c as int - 'A' as int + 10)
    else None
  }

  /** The longest run of hexadecimal digits at the front. */
  function HexRun(s: string): string {
    if s != [] && DigitValue(s[0]).Some? then [s[0]] + HexRun(s[1..]) else ""
  }

  function HexNumber(s: string): nat
    requires forall i :: 0 <= i < |s| ==> DigitValue(s[i]).Some?
  {
    if s == [] then 0 else HexNumber(s[..|s| - 1]) * 16 + DigitValue(s[|s| - 1]).value
  }

  lemma {:induction false} HexRunDigits(s: string)
    ensures forall i :: 0 <= i < |HexRun(s)| ==> DigitValue(HexRun(s)[i]).Some?
  {
    if s != [] && DigitValue(s[0]).Some? {
      HexRunDigits(s[1..]);
    }
  }

  /** White space and line terminators of ECMAScript. */
  predicate IsSpace(c: char) {
    || '\t' <= c <= '\r' || c == ' ' || c == '\U{a0}' || c == '\U{1680}' || '\U{2000}' <= c <= '\U{200a}'
    || c == '\U{2028}' || c == '\U{2029}' || c == '\U{202f}' || c == '\U{205f}' || c == '\U{3000}' || c == '\U{feff}'
  }

  function SkipSpaces(s: string): string {
    if s != [] && IsSpace(s[0]) then SkipSpaces(s[1..]) else s
  }

  function SkipSign(s: string): string {
    if s != [] && (s[0] == '-' || s[0] == '+') then s[1..] else s
  }

  function Skip0x(s: string): string {
    if |s| >= 2 && s[0] == '0' && (s[1] == 'x' || s[1] == 'X') then s[2..] else s
  }

  /** `parseInt(s, 16)`: blanks, a sign and "0x" may stand in front; `None` is NaN. */
  function ParseHex(s: string): Option<int> {
    var t := SkipSpaces(s);
    var digits := HexRun(Skip0x(SkipSign(t)));
    HexRunDigits(Skip0x(SkipSign(t)));
    if digits == "" then None else Some(HexNumber(digits) * (if t[0] == '-' then -1 else 1))
  }

  /** `s.slice(from, to)`; a negative end counts from the back. */
  function Slice(s: string, from: nat, to: int): string {
    var a := if from <= |s| then from else |s|;
    var b := if to >= |s| then |s| else if to >= 0 then to else if |s| + to >= 0 then |s| + to else 0;
    if a <= b then s[a..b] else ""
  }

  /** `String.fromCharCode(n)`: the low 16 bits, NUL for NaN. Two digits never give a surrogate. */
  function FromCharCode(n: Option<int>): char {
    var unit := if n.Some? then n.value % 0x10000 else 0;
    if 0xD800 <= unit < 0xE000 then '\0' else unit as char
  }

  /** The character two digits stand for. */
  function Pair(two: string): char {
    FromCharCode(ParseHex(two))
  }

  function HexToAscii(hex: string): string {
    if hex == [] then "" else [Pair(Slice(hex, 0, 2))] + HexToAscii(hex[if |hex| >= 2 then 2 else 1..])
  }

  /** What the loop has still to read when it stands at `n`, which may be one past the end. */
  ghost function ToRead(hex: string, n: nat): string {
    HexToAscii(hex[if n <= |hex| then n else |hex|..])
  }

  lemma {:induction false} ReadNext(hex: string, n: nat)
    requires n < |hex|
    ensures ToRead(hex, n) == [Pair(Slice(hex, n, n + 2))] + ToRead(hex, n + 2)
  {
    var rest := hex[n..];
    assert Slice(rest, 0, 2) == Slice(hex, n, n + 2);
    assert rest[if |rest| >= 2 then 2 else 1..] == hex[if n + 2 <= |hex| then n + 2 else |hex|..];
  }

  lemma {:induction false} ReadEnds(hex: string, n: nat)
    ensures ToRead(hex, 0) == HexToAscii(hex) && (n >= |hex| ==> ToRead(hex, n) == "")
  {
    assert hex[0..] == hex;
  }

  lemma {:induction false} OneRead(ascii: string, c: char, rest: string)
    ensures ascii + ([c] + rest) == ascii + [c] + rest
  {}

  method HexToASCII(hex: string) returns (ascii: string)
    ensures ascii == HexToAscii(hex)
  {
    ascii := "";
    var n := 0;
    ReadEnds(hex, 0);
    while n < |hex|
      invariant 0 <= n <= |hex| + 1
      invariant ascii + ToRead(hex, n) == HexToAscii(hex)
    {
      var c := Pair(Slice(hex, n, n + 2));
      ReadNext(hex, n);
      OneRead(ascii, c, ToRead(hex, n + 2));
      ascii := ascii + [c];
      n := n + 2;
    }
    ReadEnds(hex, n);
  }

  predicate Includes0x(s: string) {
    exists i :: 0 <= i < |s| - 1 && s[i] == '0' && s[i + 1] == 'x'
  }

  /** The text of a message whose "0x" is gone: its length word says how much of the rest it is. */
  function DecodeHex(m: string): string {
    var length := ParseHex(Slice(m, 72, 136));
    if length.None? then "" else HexToAscii(Slice(m, 136, 136 + length.value * 2))
  }

  /** Missing and empty messages give the empty text; a message without "0x" is returned as it is. */
  function Decode(message: string): string {
    if message == "" then ""
    else if !Includes0x(message) then message
    else DecodeHex(if "0x" <= message then message[2..] else message)
  }

  // ---------- the Solidity ABI encoding of Error(string) ----------

  /** A word of the encoding is 32 bytes. */
  const WORD := 64

  /** A number as exactly `n` hexadecimal digits. */
  function Word(v: nat, n: nat): string {
    if n == 0 then "" else Word(v / 16, n - 1) + [HexDigit(v % 16)]
  }

  function HexBytes(bytes: seq<Byte>): string {
    if bytes == [] then "" else [HexDigit(bytes[0] / 16), HexDigit(bytes[0] % 16)] + HexBytes(bytes[1..])
  }

  function Zeros(n: nat): string {
    seq(n, _ => '0')
  }

  function Pow16(n: nat): nat {
    if n == 0 then 1 else 16 * Pow16(n - 1)
  }

  /** Selector, offset word, length word, and the bytes padded with zeros to whole words. */
  function Encode(bytes: seq<Byte>): string {
    "0x" + "08c379a0" + Word(32, WORD) + Word(|bytes|, WORD) + HexBytes(bytes) + Zeros((32 - |bytes| % 32) % 32 * 2)
  }

  function Chars(bytes: seq<Byte>): string {
    seq(|bytes|, i requires 0 <= i < |bytes| => bytes[i] as char)
  }

  lemma {:induction false} WordLength(v: nat, n: nat)
    ensures |Word(v, n)| == n && forall i :: 0 <= i < n ==> DigitValue(Word(v, n)[i]).Some?
  {
    if n > 0 {
      WordLength(v / 16, n - 1);
    }
  }

  lemma {:induction false} WordValue(v: nat, n: nat)
    requires v < Pow16(n)
    ensures |Word(v, n)| == n && (forall i :: 0 <= i < n ==> DigitValue(Word(v, n)[i]).Some?) && HexNumber(Word(v, n)) == v
  {
    WordLength(v, n);
    if n > 0 {
      WordLength(v / 16, n - 1);
      WordValue(v / 16, n - 1);
      var w := Word(v, n);
      assert w[..n - 1] == Word(v / 16, n - 1) && w[n - 1] == HexDigit(v % 16);
    }
  }

  lemma {:induction false} RunOfDigits(s: string)
    requires forall i :: 0 <= i < |s| ==> DigitValue(s[i]).Some?
    ensures HexRun(s) == s
  {
    if s != [] {
      RunOfDigits(s[1..]);
    }
  }

  /** Plain digits have nothing to skip. */
  lemma {:induction false} DigitsParse(s: string)
    requires s != [] && forall i :: 0 <= i < |s| ==> DigitValue(s[i]).Some?
    ensures ParseHex(s) == Some(HexNumber(s))
  {
    assert DigitValue(s[0]).Some? && (|s| > 1 ==> DigitValue(s[1]).Some?);
    assert SkipSpaces(s) == s && Skip0x(SkipSign(s)) == s;
    RunOfDigits(s);
  }

  lemma {:induction false} TwoDigits(b: Byte)
    ensures var s := [HexDigit(b / 16), HexDigit(b % 16)];
      (forall i :: 0 <= i < |s| ==> DigitValue(s[i]).Some?) && HexNumber(s) == b
  {
    var s := [HexDigit(b / 16), HexDigit(b % 16)];
    assert s[..1] == [HexDigit(b / 16)] && s[..1][..0] == "";
    assert HexNumber(s[..1]) == b / 16;
  }

  lemma {:induction false} ByteRead(b: Byte)
    ensures Pair([HexDigit(b / 16), HexDigit(b % 16)]) == b as char
  {
    TwoDigits(b);
    DigitsParse([HexDigit(b / 16), HexDigit(b % 16)]);
  }

  lemma {:induction false} BytesLength(bytes: seq<Byte>)
    ensures |HexBytes(bytes)| == 2 * |bytes|
  {
    if bytes != [] {
      BytesLength(bytes[1..]);
    }
  }

  lemma {:induction false} BytesHead(bytes: seq<Byte>)
    requires bytes != []
    ensures HexToAscii(HexBytes(bytes)) == [Pair([HexDigit(bytes[0] / 16), HexDigit(bytes[0] % 16)])] + HexToAscii(HexBytes(bytes[1..]))
  {
    var hex := HexBytes(bytes);
    assert Slice(hex, 0, 2) == [HexDigit(bytes[0] / 16), HexDigit(bytes[0] % 16)];
    assert hex[2..] == HexBytes(bytes[1..]);
  }

  lemma {:induction false} CharsHead(bytes: seq<Byte>)
    requires bytes != []
    ensures Chars(bytes) == [bytes[0] as char] + Chars(bytes[1..])
  {}

  lemma {:induction false} BytesRead(bytes: seq<Byte>)
    ensures HexToAscii(HexBytes(bytes)) == Chars(bytes)
  {
    if bytes != [] {
      BytesRead(bytes[1..]);
      ByteRead(bytes[0]);
      BytesHead(bytes);
      CharsHead(bytes);
    }
  }

  /** ABI error decoding inverts encoding, byte for byte, for every length that fits its word. */
  lemma {:induction false} DecodeInvertsEncode(bytes: seq<Byte>)
    requires |bytes| < Pow16(WORD)
    ensures Decode(Encode(bytes)) == Chars(bytes)
  {
    EncodeParts(bytes);
    LengthWord(|bytes|);
    DecodedMessage(Encode(bytes), Word(|bytes|, WORD), |bytes|, HexBytes(bytes));
    BytesRead(bytes);
  }

  lemma {:induction false} LengthWord(n: nat)
    requires n < Pow16(WORD)
    ensures ParseHex(Word(n, WORD)) == Some(n)
  {
    WordValue(n, WORD);
    DigitsParse(Word(n, WORD));
  }

  lemma {:induction false} DecodedAs(m: string, word: string, n: nat, hex: string)
    requires Slice(m, 72, 136) == word && ParseHex(word) == Some(n) && Slice(m, 136, 136 + n * 2) == hex
    ensures DecodeHex(m) == HexToAscii(hex)
  {}

  lemma {:induction false} DecodedMessage(message: string, word: string, n: nat, hex: string)
    requires |message| >= 2 && message[..2] == "0x" && ParseHex(word) == Some(n)
    requires Slice(message[2..], 72, 136) == word && Slice(message[2..], 136, 136 + n * 2) == hex
    ensures Decode(message) == HexToAscii(hex)
  {
    Without0x(message);
    DecodedAs(message[2..], word, n, hex);
  }

  lemma {:induction false} Without0x(message: string)
    requires |message| >= 2 && message[..2] == "0x"
    ensures Decode(message) == DecodeHex(message[2..])
  {
    assert message[0] == message[..2][0] && message[1] == message[..2][1];
    assert message[0] == '0' && message[0 + 1] == 'x';
    assert Includes0x(message);
  }

  lemma {:induction false} Regroup(x: string, sel: string, off: string, len: string, hex: string, pad: string)
    requires |x| == 2
    ensures (x + sel + off + len + hex + pad)[..2] == x
    ensures (x + sel + off + len + hex + pad)[2..] == sel + off + len + hex + pad
  {
    assert x + sel + off + len + hex + pad == x + (sel + off + len + hex + pad);
  }

  lemma {:induction false} Assoc(a: string, b: string, c: string)
    ensures a + b + c == a + (b + c)
  {}

  /** Where the parts of an encoding stand once its "0x" is gone. */
  lemma {:induction false} EncodeParts(bytes: seq<Byte>)
    ensures Encode(bytes)[..2] == "0x"
    ensures var m := Encode(bytes)[2..];
      Slice(m, 72, 136) == Word(|bytes|, WORD) && Slice(m, 136, 136 + |bytes| * 2) == HexBytes(bytes)
  {
    var hex, pad := HexBytes(bytes), Zeros((32 - |bytes| % 32) % 32 * 2);
    var off, len := Word(32, WORD), Word(|bytes|, WORD);
    WordLength(32, WORD);
    WordLength(|bytes|, WORD);
    BytesLength(bytes);
    Regroup("0x", "08c379a0", off, len, hex, pad);
    Between("08c379a0" + off + len, hex, pad);
    Between("08c379a0" + off, len, hex + pad);
    Assoc("08c379a0" + off + len, hex, pad);
  }

  lemma {:induction false} Between(a: string, b: string, c: string)
    ensures Slice(a + b + c, |a|, |a| + |b|) == b
  {}

  // ---------- other messages ----------

  /** A message without "0x" anywhere is returned as it is, the empty one included. */
  lemma {:induction false} OtherMessagesUnchanged(message: string)
    requires forall i :: 0 <= i < |message| - 1 ==> !(message[i] == '0' && message[i + 1] == 'x')
    ensures Decode(message) == message
  {}

  ghost predicate AllDigits(s: string) {
    s != [] && forall i :: 0 <= i < |s| ==> DigitValue(s[i]).Some?
  }

  lemma {:induction false} ParsedAs(s: string, t: string, digits: string)
    requires SkipSpaces(s) == t && t != [] && Skip0x(SkipSign(t)) == digits && AllDigits(digits)
    ensures ParseHex(s) == Some(HexNumber(digits) * (if t[0] == '-' then -1 else 1))
  {
    RunOfDigits(digits);
  }

  /** Blanks in front of digits do not matter. */
  lemma {:induction false} BlankForm(c: char, digits: string)
    requires AllDigits(digits) && (c == ' ' || '\t' <= c <= '\r' || c == '\U{a0}' || c == '\U{feff}')
    ensures ParseHex([c] + digits) == Some(HexNumber(digits))
  {
    assert DigitValue(digits[0]).Some? && (|digits| > 1 ==> DigitValue(digits[1]).Some?);
    assert ([c] + digits)[1..] == digits && SkipSpaces(digits) == digits;
    ParsedAs([c] + digits, digits, digits);
  }

  /** A minus sign negates, a plus sign does not. */
  lemma {:induction false} SignForms(digits: string)
    requires AllDigits(digits)
    ensures ParseHex("-" + digits) == Some(-1 * HexNumber(digits)) && ParseHex("+" + digits) == Some(HexNumber(digits))
  {
    SignedForm('-', digits);
    SignedForm('+', digits);
    ParsedAs("-" + digits, "-" + digits, digits);
    ParsedAs("+" + digits, "+" + digits, digits);
  }

  /** "0x" in front of digits does not matter. */
  lemma {:induction false} PrefixForm(digits: string)
    requires AllDigits(digits)
    ensures ParseHex("0x" + digits) == Some(HexNumber(digits))
  {
    var t := "0x" + digits;
    assert t[0] == '0' && t[1] == 'x' && t[2..] == digits;
    ParsedAs(t, t, digits);
  }

  lemma {:induction false} SignedForm(sign: char, digits: string)
    requires sign == '-' || sign == '+'
    requires AllDigits(digits)
    ensures SkipSpaces([sign] + digits) == [sign] + digits && Skip0x(SkipSign([sign] + digits)) == digits
  {
    assert ([sign] + digits)[1..] == digits;
    assert DigitValue(digits[0]).Some? && (|digits| > 1 ==> DigitValue(digits[1]).Some?);
  }

  /** The sixteen digits, in either case. */
  lemma {:induction false} DigitsMean(n: nat)
    requires n < 16
    ensures DigitValue("0123456789abcdef"[n]) == Some(n) && DigitValue("0123456789ABCDEF"[n]) == Some(n)
  {
    assert n < 10 ==> "0123456789abcdef"[n] as int == '0' as int + n && "0123456789ABCDEF"[n] as int == '0' as int + n;
    assert n >= 10 ==> "0123456789abcdef"[n] as int == 'a' as int + n - 10 && "0123456789ABCDEF"[n] as int == 'A' as int + n - 10;
  }

  /** A negative number gives the character that wraps around to it. */
  lemma {:induction false} NegativePair(d: char)
    requires DigitValue(d).Some? && DigitValue(d).value > 0
    ensures Pair(['-', d]) as int == 0x10000 - DigitValue(d).value
  {
    assert [d][..0] == "" && HexNumber([d]) == DigitValue(d).value;
    SignForms([d]);
    assert "-" + [d] == ['-', d];
  }

  /** What is no number at all is read as NUL. */
  lemma {:induction false} NotANumberIsNul(two: string)
    requires two != [] && !IsSpace(two[0]) && two[0] != '-' && two[0] != '+' && DigitValue(two[0]) == None
    ensures Pair(two) == '\0'
  {
    assert SkipSpaces(two) == two && Skip0x(SkipSign(two)) == two;
  }
}
