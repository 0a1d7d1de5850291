// JSON strings (section 7 of RFC 7159) as sequences of pieces with a meaning, and the proof that the decoder accepts
// exactly the texts made of such pieces, with exactly that meaning.
module FilterStrings {
  import opened Wrappers
  import opened FilterLexer
  import opened FilterJson

  // A character that stands for itself, a short escape, or a code unit in four hexadecimal digits.
  datatype Piece = Plain(c: char) | Short(letter: char) | Unit(digits: string)

  predicate IsHex(c: char) { '0' <= c <= '9' || 'a' <= c <= 'f' || 'A' <= c <= 'F' }

  predicate WfPiece(p: Piece) {
    match p
    case Plain(c) => c >= ' ' && c != '"' && c != '\\'
    case Short(letter) => letter in {'"', '\\', '/', 'b', 'f', 'n', 'r', 't'}
    case Unit(digits) => |digits| == 4 && forall i :: 0 <= i < 4 ==> IsHex(digits[i])
  }

  predicate WfPieces(pieces: seq<Piece>) {
    forall i :: 0 <= i < |pieces| ==> WfPiece(pieces[i])
  }

  function PieceText(p: Piece): string {
    match p
    case Plain(c) => [c]
    case Short(letter) => ['\\', letter]
    case Unit(digits) => "\\u" + digits
  }

  function Spelled(pieces: seq<Piece>): string {
    if pieces == [] then [] else PieceText(pieces[0]) + Spelled(pieces[1..])
  }

  function HexOf(c: char): nat
    requires IsHex(c)
  {
    if c <= '9' then c as int - '0' as int
    else if c <= 'F' then c as int - 'A' as int + 10
    else c as int - 'a' as int + 10
  }

  // The number that hexadecimal digits write.
  function NumberOf(digits: string): nat
    requires forall i :: 0 <= i < |digits| ==> IsHex(digits[i])
  {
    if digits == [] then 0 else 16 * NumberOf(digits[..|digits| - 1]) + HexOf(digits[|digits| - 1])
  }

  function ShortOf(letter: char): char {
    match letter
    case 'b' => '\U{8}'
    case 'f' => '\U{c}'
    case 'n' => '\n'
    case 'r' => '\r'
    case 't' => '\t'
    case _ => letter
  }

  lemma {:induction false} NumberPush(h: string, c: char)
    requires (forall i :: 0 <= i < |h| ==> IsHex(h[i])) && IsHex(c)
    ensures (forall i :: 0 <= i < |h| ==> IsHex((h + [c])[i])) && NumberOf(h + [c]) == 16 * NumberOf(h) + HexOf(c)
  {
    assert (h + [c])[..|h|] == h;
  }

  lemma NumberOfFour(h: string)
    requires |h| == 4 && forall i :: 0 <= i < 4 ==> IsHex(h[i])
    ensures NumberOf(h) == ((HexOf(h[0]) * 16 + HexOf(h[1])) * 16 + HexOf(h[2])) * 16 + HexOf(h[3])
    ensures NumberOf(h) < 0x1_0000
  {
    hide NumberOf, HexOf;
    HexSmall(h[0]);
    HexSmall(h[1]);
    HexSmall(h[2]);
    HexSmall(h[3]);
    NumberNothing();
    NumberPush([], h[0]);
    NumberPush([h[0]], h[1]);
    NumberPush([h[0], h[1]], h[2]);
    NumberPush([h[0], h[1], h[2]], h[3]);
    assert [] + [h[0]] == [h[0]];
    assert [h[0]] + [h[1]] == [h[0], h[1]];
    assert [h[0], h[1]] + [h[2]] == [h[0], h[1], h[2]];
    assert [h[0], h[1], h[2]] + [h[3]] == h;
  }

  lemma NumberNothing()
    ensures NumberOf([]) == 0
  {
  }

  lemma HexSmall(c: char)
    requires IsHex(c)
    ensures HexOf(c) < 16 && HexValue(c) == Some(HexOf(c))
  {
  }

  function UnitOf(p: Piece): (n: Option<nat>)
    requires WfPiece(p)
    ensures n.Some? ==> n.value < 0x1_0000
  {
    match p
    case Unit(digits) => NumberOfFour(digits); Some(NumberOf(digits))
    case _ => None
  }

  // A high surrogate and a low one right behind it are one character; any other surrogate is replaced.
  function Meaning(pieces: seq<Piece>): string
    requires WfPieces(pieces)
  {
    if pieces == [] then []
    else
      var p, rest := pieces[0], pieces[1..];
      match p
      case Plain(c) => [c] + Meaning(rest)
      case Short(letter) => [ShortOf(letter)] + Meaning(rest)
      case Unit(_) =>
        var n := UnitOf(p).value;
        if 0xD800 <= n <= 0xDBFF && rest != [] && UnitOf(rest[0]).Some? &&
           0xDC00 <= UnitOf(rest[0]).value <= 0xDFFF
        then
          [(0x1_0000 + (n - 0xD800) * 0x400 + (UnitOf(rest[0]).value - 0xDC00)) as char] + Meaning(rest[1..])
        else if 0xD800 <= n <= 0xDFFF then [REPLACEMENT] + Meaning(rest)
        else [n as char] + Meaning(rest)
  }

  // ---- Hexadecimal ----

  lemma HexParses(h: string, t: string)
    requires |h| == 4 && forall i :: 0 <= i < 4 ==> IsHex(h[i])
    ensures ParseHex4(h + t) == Some(NumberOf(h))
  {
    hide NumberOf, HexOf, HexValue;
    NumberOfFour(h);
    HexSmall(h[0]);
    HexSmall(h[1]);
    HexSmall(h[2]);
    HexSmall(h[3]);
    var s := h + t;
    assert s[0] == h[0] && s[1] == h[1] && s[2] == h[2] && s[3] == h[3];
  }

  lemma HexTaken(s: string)
    requires ParseHex4(s).Some?
    ensures WfPiece(Unit(s[..4])) && s == s[..4] + s[4..]
  {
  }

  // ---- Every spelling is decoded ----

  lemma PlainDecodes(c: char, t: string)
    requires WfPiece(Plain(c))
    ensures Unescape([c] + t) == Prepend(c, Unescape(t))
  {
    assert ([c] + t)[1..] == t;
  }

  lemma ShortDecodes(letter: char, t: string)
    requires WfPiece(Short(letter))
    ensures Unescape(['\\', letter] + t) == Prepend(ShortOf(letter), Unescape(t))
  {
    var s := ['\\', letter] + t;
    assert s[1..] == [letter] + t && s[2..] == t;
  }

  lemma UnitDecodesTo(h: string, t: string)
    requires WfPiece(Unit(h))
    ensures NumberOf(h) < 0x1_0000
    ensures var (c, n) := DecodeUnit(NumberOf(h), t); Unescape("\\u" + h + t) == Prepend(c, Unescape(t[n - 5..]))
  {
    hide DecodeUnit, ParseHex4;
    var s := "\\u" + h + t;
    NumberOfFour(h);
    HexParses(h, t);
    assert s[1..][1..] == h + t && s[1..][5..] == t;
    var (c, n) := DecodeUnit(NumberOf(h), t);
    assert s[1 + n..] == t[n - 5..];
  }

  function LowAhead(t: string): Option<nat> {
    if |t| >= 6 && t[0] == '\\' && t[1] == 'u' then ParseHex4(t[2..]) else None
  }

  lemma UnitAhead(h: string, t: string)
    requires WfPiece(Unit(h))
    ensures LowAhead("\\u" + h + t) == Some(NumberOf(h)) && ("\\u" + h + t)[6..] == t
  {
    hide NumberOf, ParseHex4;
    HexParses(h, t);
    assert ("\\u" + h + t)[2..] == h + t;
  }

  // What follows a high surrogate is joined to it exactly when it is a low one.
  lemma NextUnit(pieces: seq<Piece>)
    requires WfPieces(pieces)
    ensures LowAhead(Spelled(pieces)) == if pieces != [] then UnitOf(pieces[0]) else None
    ensures pieces != [] && UnitOf(pieces[0]).Some? ==> Spelled(pieces)[6..] == Spelled(pieces[1..])
  {
    hide ParseHex4, NumberOf;
    if pieces != [] {
      var t := Spelled(pieces);
      assert WfPiece(pieces[0]);
      match pieces[0]
      case Plain(c) => assert t[0] == c;
      case Short(letter) => assert t[1] == letter;
      case Unit(h) => UnitAhead(h, Spelled(pieces[1..]));
    }
  }

  lemma {:induction false} SpelledDecodes(pieces: seq<Piece>)
    requires WfPieces(pieces)
    ensures Unescape(Spelled(pieces)) == Some(Meaning(pieces))
  {
    hide Unescape, ParseHex4, NumberOf;
    if pieces == [] {
      NothingDecodes();
    } else {
      var p, rest := pieces[0], pieces[1..];
      var t := Spelled(rest);
      assert WfPiece(p);
      SpelledDecodes(rest);
      match p
      case Plain(c) => PlainDecodes(c, t);
      case Short(letter) => ShortDecodes(letter, t);
      case Unit(h) =>
        UnitDecodesTo(h, t);
        NextUnit(rest);
        if rest != [] {
          SpelledDecodes(rest[1..]);
        }
    }
  }

  lemma NothingDecodes()
    ensures Unescape([]) == Some([])
  {
  }

  // ---- Whatever is decoded was spelled ----

  lemma {:induction false} DecodedTaken(s: string) returns (pieces: seq<Piece>)
    requires Unescape(s).Some?
    ensures WfPieces(pieces) && Spelled(pieces) == s
    decreases |s|
  {
    if s == [] {
      pieces := [];
    } else {
      var p := FirstPiece(s);
      var n := |PieceText(p)|;
      var rest := DecodedTaken(s[n..]);
      pieces := [p] + rest;
      assert pieces[1..] == rest;
    }
  }

  lemma FirstPiece(s: string) returns (p: Piece)
    requires s != [] && Unescape(s).Some?
    ensures WfPiece(p) && |PieceText(p)| <= |s| && s == PieceText(p) + s[|PieceText(p)|..]
    ensures Unescape(s[|PieceText(p)|..]).Some?
  {
    if s[0] != '\\' {
      p := Plain(s[0]);
    } else {
      p := EscapedPiece(s);
    }
  }

  lemma EscapedPiece(s: string) returns (p: Piece)
    requires s != [] && s[0] == '\\' && Unescape(s).Some?
    ensures WfPiece(p) && |PieceText(p)| <= |s| && s == PieceText(p) + s[|PieceText(p)|..]
    ensures Unescape(s[|PieceText(p)|..]).Some?
  {
    hide ParseHex4;
    var (_, n) := DecodeEscape(s[1..]).value;
    if s[1] != 'u' {
      p := Short(s[1]);
    } else {
      var h := s[1..][1..];
      HexTaken(h);
      p := Unit(h[..4]);
      assert h[4..] == s[6..];
      if n == 11 {
        HexTaken(s[6..][2..]);
        LowAlone(s[6..]);
        assert s[6..][6..] == s[12..];
      }
    }
  }

  // A low surrogate read on its own leaves the text behind it to be read.
  lemma LowAlone(s: string)
    requires |s| >= 6 && s[0] == '\\' && s[1] == 'u'
    requires ParseHex4(s[2..]).Some? && IsLowSurrogate(ParseHex4(s[2..]).value)
    requires Unescape(s[6..]).Some?
    ensures Unescape(s).Some?
  {
    assert s[1..][1..] == s[2..];
  }

  // A text between quotes decodes to a string exactly when it is made of pieces that mean the string.
  lemma DecodesExactly(s: string, text: string)
    ensures Unescape(s) == Some(text) <==>
            exists pieces :: WfPieces(pieces) && Spelled(pieces) == s && Meaning(pieces) == text
  {
    hide Unescape, Spelled, Meaning;
    if Unescape(s) == Some(text) {
      var pieces := DecodedTaken(s);
      SpelledDecodes(pieces);
    }
    if pieces :| WfPieces(pieces) && Spelled(pieces) == s && Meaning(pieces) == text {
      SpelledDecodes(pieces);
    }
  }

  // ---- Between quotes ----

  ghost predicate Writes(spelling: string, text: string) {
    exists pieces :: WfPieces(pieces) && spelling == "\"" + Spelled(pieces) + "\"" && Meaning(pieces) == text
  }

  lemma DecodesString(spelling: string, text: string)
    ensures DecodeString(spelling) == Some(text) <==> Writes(spelling, text)
  {
    hide Unescape, Spelled, Meaning;
    if DecodeString(spelling) == Some(text) {
      var inner := spelling[1..|spelling| - 1];
      DecodesExactly(inner, text);
      assert spelling == "\"" + inner + "\"";
    }
    if pieces :| WfPieces(pieces) && spelling == "\"" + Spelled(pieces) + "\"" && Meaning(pieces) == text {
      assert spelling[1..|spelling| - 1] == Spelled(pieces);
      DecodesExactly(Spelled(pieces), text);
    }
  }

  lemma PieceScans(p: Piece, rest: string)
    requires WfPiece(p) && MatchQuoted(rest) > 0
    ensures MatchQuoted(PieceText(p) + rest) == |PieceText(p)| + MatchQuoted(rest)
  {
    hide MatchQuoted;
    match p
    case Plain(c) => PlainScans(c, rest);
    case Short(letter) => EscapeScansPair(letter, rest);
    case Unit(h) =>
      PlainsScan(h, rest);
      EscapeScansPair('u', h + rest);
      assert "\\u" + h + rest == ['\\', 'u'] + (h + rest);
  }

  lemma QuoteScans(t: string)
    ensures MatchQuoted("\"" + t) == 1
  {
  }

  lemma {:induction false} SpelledScans(pieces: seq<Piece>, t: string)
    requires WfPieces(pieces)
    ensures MatchQuoted(Spelled(pieces) + ("\"" + t)) == |Spelled(pieces)| + 1
  {
    hide MatchQuoted, PieceText;
    if pieces == [] {
      QuoteScans(t);
      assert Spelled(pieces) + ("\"" + t) == "\"" + t;
    } else {
      var rest := Spelled(pieces[1..]) + ("\"" + t);
      SpelledScans(pieces[1..], t);
      PieceScans(pieces[0], rest);
      assert Spelled(pieces) + ("\"" + t) == PieceText(pieces[0]) + rest;
    }
  }

  // A string is one token, whatever stands behind it.
  lemma WrittenIsToken(spelling: string, text: string, t: string)
    requires Writes(spelling, text)
    ensures spelling != [] && spelling[0] == '"' && MatchString(spelling + t) == |spelling|
  {
    hide Spelled, Meaning, MatchQuoted;
    var pieces :| WfPieces(pieces) && spelling == "\"" + Spelled(pieces) + "\"" && Meaning(pieces) == text;
    SpelledScans(pieces, t);
    assert (spelling + t)[1..] == Spelled(pieces) + ("\"" + t);
  }
}
