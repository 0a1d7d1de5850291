// JSON string literals (section 7 of RFC 7159): the escaping the printer writes and the decoding the parser does.
module FilterJson {
  import opened Wrappers
  import opened FilterLexer

  function HexDigit(d: nat): char
    requires d < 16
  {
    if d < 10 then d as char + '0' else (d - 10) as char + 'a'
  }

  function HexValue(c: char): Option<nat> {
    if '0' <= c <= '9' then Some((c - '0') as nat)
    else if 'a' <= c <= 'f' then Some((c - 'a') as nat + 10)
    else if 'A' <= c <= 'F' then Some((c - 'A') as nat + 10)
    else None
  }

  function Hex4(n: nat): (digits: string)
    requires n < 0x1_0000
    ensures |digits| == 4
  {
    [HexDigit(n / 16 / 16 / 16), HexDigit(n / 16 / 16 % 16), HexDigit(n / 16 % 16), HexDigit(n % 16)]
  }

  // The value of the four hexadecimal digits at the front.
  function ParseHex4(s: string): (n: Option<nat>)
    ensures n.Some? ==> |s| >= 4 && n.value < 0x1_0000
  {
    if |s| < 4 then None
    else
      match (HexValue(s[0]), HexValue(s[1]), HexValue(s[2]), HexValue(s[3]))
      case (Some(a), Some(b), Some(c), Some(d)) =>
        if a < 16 && b < 16 && c < 16 && d < 16 then Some(((a * 16 + b) * 16 + c) * 16 + d) else None
      case _ => None
  }

  // ---- Encoding ----

  // Characters written as \u00XX: the controls without a short form, and those unsafe in HTML or JavaScript.
  predicate NeedsHex(c: char) {
    c < ' ' || c == '<' || c == '>' || c == '&' || c == '\U{2028}' || c == '\U{2029}'
  }

  function EscapeChar(c: char): string {
    if c == '"' then "\\\""
    else if c == '\\' then "\\\\"
    else if c == '\U{8}' then "\\b"
    else if c == '\U{c}' then "\\f"
    else if c == '\n' then "\\n"
    else if c == '\r' then "\\r"
    else if c == '\t' then "\\t"
    else if NeedsHex(c) then "\\u" + Hex4(c as int)
    else [c]
  }

  function Escape(s: string): string {
    if s == [] then [] else EscapeChar(s[0]) + Escape(s[1..])
  }

  function EncodeString(s: string): string {
    "\"" + Escape(s) + "\""
  }

  // ---- Decoding ----

  const REPLACEMENT: char := '\U{fffd}'

  predicate IsHighSurrogate(n: nat) { 0xD800 <= n < 0xDC00 }

  predicate IsLowSurrogate(n: nat) { 0xDC00 <= n < 0xE000 }

  // The text and the length of one escape: the part after the backslash.
  function DecodeEscape(s: string): (r: Option<(char, nat)>)
    ensures r.Some? ==> 0 < r.value.1 <= |s|
  {
    if s == [] then None
    else if s[0] == '"' || s[0] == '\\' || s[0] == '/' then Some((s[0], 1))
    else if s[0] == 'b' then Some(('\U{8}', 1))
    else if s[0] == 'f' then Some(('\U{c}', 1))
    else if s[0] == 'n' then Some(('\n', 1))
    else if s[0] == 'r' then Some(('\r', 1))
    else if s[0] == 't' then Some(('\t', 1))
    else if s[0] == 'u' then
      match ParseHex4(s[1..])
      case None => None
      case Some(n) => Some(DecodeUnit(n, s[5..]))
    else None
  }

  // A high surrogate joins a low one escaped right after it; any other surrogate is replaced.
  function DecodeUnit(n: nat, rest: string): (r: (char, nat))
    requires n < 0x1_0000
    ensures r.1 == 5 || (r.1 == 11 && |rest| >= 6)
  {
    if IsHighSurrogate(n) then
      var low := if |rest| >= 6 && rest[0] == '\\' && rest[1] == 'u' then ParseHex4(rest[2..]) else None;
      if low.Some? && IsLowSurrogate(low.value) then
        ((0x1_0000 + (n - 0xD800) * 0x400 + (low.value - 0xDC00)) as char, 11)
      else (REPLACEMENT, 5)
    else if IsLowSurrogate(n) then (REPLACEMENT, 5)
    else (n as char, 5)
  }

  // The text between the quotes; unescaped controls and unknown escapes are errors.
  function Unescape(s: string): Option<string> {
    if s == [] then Some([])
    else if s[0] == '"' || s[0] < ' ' then None
    else if s[0] == '\\' then
      match DecodeEscape(s[1..])
      case None => None
      case Some((c, n)) => Prepend(c, Unescape(s[1 + n..]))
    else Prepend(s[0], Unescape(s[1..]))
  }

  function Prepend(c: char, rest: Option<string>): Option<string> {
    match rest
    case None => None
    case Some(text) => Some([c] + text)
  }

  function DecodeString(s: string): Option<string> {
    if |s| < 2 || s[0] != '"' || s[|s| - 1] != '"' then None else Unescape(s[1..|s| - 1])
  }

  // ---- Decoding undoes encoding ----

  lemma HexDigitRoundTrip(d: nat)
    requires d < 16
    ensures HexValue(HexDigit(d)) == Some(d)
  {
  }

  lemma HexSum(n: nat)
    ensures ((n / 16 / 16 / 16 * 16 + n / 16 / 16 % 16) * 16 + n / 16 % 16) * 16 + n % 16 == n
  {
    var a := n / 16;
    var b := a / 16;
    assert n == 16 * a + n % 16 && a == 16 * b + a % 16 && b == 16 * (b / 16) + b % 16;
  }

  lemma HexRoundTrip(n: nat, rest: string)
    requires n < 0x1_0000
    ensures ParseHex4(Hex4(n) + rest) == Some(n)
  {
    HexDigitRoundTrip(n / 16 / 16 / 16);
    HexDigitRoundTrip(n / 16 / 16 % 16);
    HexDigitRoundTrip(n / 16 % 16);
    HexDigitRoundTrip(n % 16);
    HexSum(n);
  }

  // A pair of escaped surrogates is one character beyond the basic plane.
  lemma SurrogatePairDecodes(c: char, rest: string)
    requires (c as int) >= 0x1_0000
    ensures var n := c as int - 0x1_0000;
            Unescape("\\u" + Hex4(0xD800 + n / 0x400) + ("\\u" + Hex4(0xDC00 + n % 0x400) + rest)) ==
                Prepend(c, Unescape(rest))
  {
    hide Hex4, DecodeEscape;
    var n := c as int - 0x1_0000;
    var high, low := 0xD800 + n / 0x400, 0xDC00 + n % 0x400;
    var second := "\\u" + Hex4(low) + rest;
    var s := "\\u" + Hex4(high) + second;
    UnitDecodes(high, second);
    PairJoins(c, rest);
    assert s[1..] == "u" + Hex4(high) + second;
    assert s[12..] == rest;
  }

  lemma UnitDecodes(n: nat, t: string)
    requires n < 0x1_0000
    ensures DecodeEscape("u" + Hex4(n) + t) == Some(DecodeUnit(n, t))
  {
    hide Hex4, DecodeUnit, ParseHex4;
    var s := "u" + Hex4(n) + t;
    HexRoundTrip(n, t);
    assert s[1..] == Hex4(n) + t && s[5..] == t;
  }

  lemma PairJoins(c: char, rest: string)
    requires (c as int) >= 0x1_0000
    ensures var n := c as int - 0x1_0000;
            DecodeUnit(0xD800 + n / 0x400, "\\u" + Hex4(0xDC00 + n % 0x400) + rest) == (c, 11)
  {
    hide Hex4, ParseHex4;
    var n := c as int - 0x1_0000;
    var second := "\\u" + Hex4(0xDC00 + n % 0x400) + rest;
    HexRoundTrip(0xDC00 + n % 0x400, rest);
    assert second[2..] == Hex4(0xDC00 + n % 0x400) + rest;
  }

  lemma HexEscapeDecodes(c: char, rest: string)
    requires (c as int) < 0x1_0000
    ensures Unescape("\\u" + Hex4(c as int) + rest) == Prepend(c, Unescape(rest))
  {
    var h := Hex4(c as int);
    var e := "\\u" + h + rest;
    HexRoundTrip(c as int, rest);
    assert e[1..][1..] == h + rest;
    assert e[6..] == rest;
  }

  lemma EscapeCharDecodes(c: char, rest: string)
    ensures Unescape(EscapeChar(c) + rest) == Prepend(c, Unescape(rest))
  {
    var e := EscapeChar(c) + rest;
    if |EscapeChar(c)| == 6 {
      HexEscapeDecodes(c, rest);
    } else if |EscapeChar(c)| == 2 {
      assert e[2..] == rest;
    } else {
      assert e[1..] == rest;
    }
  }

  lemma {:induction false} UnescapeEscape(s: string)
    ensures Unescape(Escape(s)) == Some(s)
  {
    if s != [] {
      EscapeCharDecodes(s[0], Escape(s[1..]));
      UnescapeEscape(s[1..]);
      assert [s[0]] + s[1..] == s;
    }
  }

  lemma StringRoundTrip(s: string)
    ensures DecodeString(EncodeString(s)) == Some(s)
  {
    var e := EncodeString(s);
    assert e[1..|e| - 1] == Escape(s);
    UnescapeEscape(s);
  }

  // ---- The encoded text is one string token ----

  lemma PlainScans(c: char, rest: string)
    requires c != '"' && c != '\\' && MatchQuoted(rest) > 0
    ensures MatchQuoted([c] + rest) == 1 + MatchQuoted(rest)
  {
    assert ([c] + rest)[1..] == rest;
  }

  lemma EscapeScansPair(c: char, rest: string)
    requires c != '\n' && MatchQuoted(rest) > 0
    ensures MatchQuoted(['\\', c] + rest) == 2 + MatchQuoted(rest)
  {
    assert (['\\', c] + rest)[2..] == rest;
  }

  predicate Plain(c: char) { c != '"' && c != '\\' }

  lemma {:induction false} PlainsScan(h: string, rest: string)
    requires (forall i :: 0 <= i < |h| ==> Plain(h[i])) && MatchQuoted(rest) > 0
    ensures MatchQuoted(h + rest) == |h| + MatchQuoted(rest)
  {
    hide MatchQuoted;
    if h == [] {
      assert h + rest == rest;
    } else {
      PlainsScan(h[1..], rest);
      PlainScans(h[0], h[1..] + rest);
      assert h + rest == [h[0]] + (h[1..] + rest);
    }
  }

  lemma HexScans(n: nat, rest: string)
    requires n < 0x1_0000 && MatchQuoted(rest) > 0
    ensures MatchQuoted("\\u" + Hex4(n) + rest) == 6 + MatchQuoted(rest)
  {
    PlainsScan(Hex4(n), rest);
    EscapeScansPair('u', Hex4(n) + rest);
    assert "\\u" + Hex4(n) + rest == ['\\', 'u'] + (Hex4(n) + rest);
  }

  lemma EscapeCharScans(c: char, rest: string)
    requires MatchQuoted(rest) > 0
    ensures MatchQuoted(EscapeChar(c) + rest) == |EscapeChar(c)| + MatchQuoted(rest)
  {
    var e := EscapeChar(c);
    if |e| == 2 {
      EscapeScansPair(e[1], rest);
      assert e == ['\\', e[1]];
    } else if |e| == 1 {
      PlainScans(c, rest);
    } else {
      HexScans(c as int, rest);
      assert "\\u" + Hex4(c as int) + rest == e + rest;
    }
  }

  lemma {:induction false} EscapeScans(s: string, t: string)
    ensures MatchQuoted(Escape(s) + "\"" + t) == |Escape(s)| + 1
  {
    if s == [] {
      assert Escape(s) + "\"" + t == "\"" + t;
    } else {
      EscapeScans(s[1..], t);
      EscapeCharScans(s[0], Escape(s[1..]) + "\"" + t);
      assert Escape(s) + "\"" + t == EscapeChar(s[0]) + (Escape(s[1..]) + "\"" + t);
    }
  }

  lemma EncodedIsToken(s: string, t: string)
    ensures MatchString(EncodeString(s) + t) == |EncodeString(s)|
  {
    EscapeScans(s, t);
    assert (EncodeString(s) + t)[1..] == Escape(s) + "\"" + t;
  }
}
