// The languages of the tokens, each described by how its words are put together, and the proof that a recogniser
// takes the longest prefix of its text that is a word, or nothing when no prefix is one.
module FilterTokens {
  import opened FilterLexer

  predicate Letter(c: char) { 'a' <= c <= 'z' || 'A' <= c <= 'Z' }

  predicate AllDigits(s: string) {
    s != [] && forall i :: 0 <= i < |s| ==> '0' <= s[i] <= '9'
  }

  // A letter, then letters, digits, underscores and hyphens.
  predicate IsName(s: string) {
    && s != [] && Letter(s[0])
    && forall i :: 0 <= i < |s| ==> Letter(s[i]) || '0' <= s[i] <= '9' || s[i] == '_' || s[i] == '-'
  }

  // Letters, digits, dots and hyphens.
  predicate IsSegment(s: string) {
    s != [] && forall i :: 0 <= i < |s| ==> Letter(s[i]) || '0' <= s[i] <= '9' || s[i] == '.' || s[i] == '-'
  }

  // Each segment with a colon after it.
  function Joined(segments: seq<string>): string {
    if segments == [] then [] else segments[0] + ":" + Joined(segments[1..])
  }

  ghost predicate Spells(segments: seq<string>, s: string) {
    && segments != [] && (forall g :: g in segments ==> IsSegment(g))
    && IsSegment(segments[0]) && Letter(segments[0][0]) && s == Joined(segments)
  }

  ghost predicate IsUri(s: string) {
    exists segments :: Spells(segments, s)
  }

  // The parts of a number; all but the digits before the point may be empty.
  datatype Numeral = Numeral(sign: string, whole: string, fraction: string, exponent: string)

  predicate IsFraction(s: string) {
    s == [] || (s[0] == '.' && AllDigits(s[1..]))
  }

  predicate IsExponent(s: string) {
    || s == []
    || ((s[0] == 'e' || s[0] == 'E') &&
        (AllDigits(s[1..]) || (|s| > 1 && (s[1] == '+' || s[1] == '-') && AllDigits(s[2..]))))
  }

  // No leading zero.
  predicate IsWhole(s: string) {
    AllDigits(s) && (|s| > 1 ==> s[0] != '0')
  }

  predicate WfNumeral(n: Numeral) {
    && (n.sign == "" || n.sign == "-") && IsWhole(n.whole) && IsFraction(n.fraction) && IsExponent(n.exponent)
  }

  function NumeralText(n: Numeral): string {
    n.sign + (n.whole + (n.fraction + n.exponent))
  }

  ghost predicate IsNumber(s: string) {
    exists n :: WfNumeral(n) && s == NumeralText(n)
  }

  // A character that needs no escape, or a backslash and any character but a line feed.
  predicate IsPiece(s: string) {
    (|s| == 1 && s[0] != '"' && s[0] != '\\') || (|s| == 2 && s[0] == '\\' && s[1] != '\n')
  }

  function Flat(pieces: seq<string>): string {
    if pieces == [] then [] else pieces[0] + Flat(pieces[1..])
  }

  ghost predicate Quotes(pieces: seq<string>, s: string) {
    (forall p :: p in pieces ==> IsPiece(p)) && s == "\"" + (Flat(pieces) + "\"")
  }

  ghost predicate IsQuoted(s: string) {
    exists pieces :: Quotes(pieces, s)
  }

  // ---- Names ----

  // A name is what the recogniser takes, and no longer prefix is one.
  lemma NameLongest(s: string)
    ensures MatchName(s) > 0 ==> IsName(s[..MatchName(s)])
    ensures forall m :: MatchName(s) < m <= |s| ==> !IsName(s[..m])
  {
    SpanFacts(NameClass, s);
    var n := MatchName(s);
    forall m | n < m <= |s| ensures !IsName(s[..m]) {
      if n > 0 {
        assert s[..m][n] == s[n];
      } else {
        assert s[..m][0] == s[0];
      }
    }
  }

  // ---- URIs ----

  lemma SegmentSpan(g: string, t: string)
    requires IsSegment(g) && (t == [] || t[0] == ':')
    ensures Span(UriClass, g + t) == |g| && (g + t)[|g|..] == t
  {
    SpanIs(UriClass, g + t, |g|);
  }

  lemma {:induction false} JoinedMatches(segments: seq<string>, t: string)
    requires forall g :: g in segments ==> IsSegment(g)
    ensures AfterColon(Joined(segments) + t) >= |Joined(segments)| + 1
  {
    if segments != [] {
      var g, rest := segments[0], Joined(segments[1..]);
      assert IsSegment(g);
      assert Joined(segments) + t == g + (":" + (rest + t));
      SegmentSpan(g, ":" + (rest + t));
      JoinedMatches(segments[1..], t);
      assert (":" + (rest + t))[1..] == rest + t;
    }
  }

  lemma SpellsMatches(segments: seq<string>, w: string, t: string)
    requires Spells(segments, w)
    ensures MatchUri(w + t) >= |w|
  {
    var g, rest := segments[0], Joined(segments[1..]);
    assert IsSegment(g);
    assert w + t == g + (":" + (rest + t));
    SegmentSpan(g, ":" + (rest + t));
    JoinedMatches(segments[1..], t);
    assert (":" + (rest + t))[1..] == rest + t;
  }

  lemma {:induction false} MatchedSegments(s: string) returns (segments: seq<string>)
    ensures (forall g :: g in segments ==> IsSegment(g)) && Joined(segments) == s[..AfterColon(s) - 1]
  {
    var n := Span(UriClass, s);
    SpanFacts(UriClass, s);
    var more := if n == 0 then 0 else MatchSegments(s[n..]);
    if more == 0 {
      segments := [];
    } else {
      var rest := MatchedSegments(s[n..][1..]);
      segments := [s[..n]] + rest;
      assert s[..n + more] == s[..n] + ":" + s[n..][1..][..more - 1];
    }
  }

  lemma UriLongest(s: string)
    ensures MatchUri(s) > 0 ==> IsUri(s[..MatchUri(s)])
    ensures forall m :: MatchUri(s) < m <= |s| ==> !IsUri(s[..m])
  {
    var k := MatchUri(s);
    if k > 0 {
      var n := Span(UriClass, s);
      SpanFacts(UriClass, s);
      var rest := MatchedSegments(s[n..][1..]);
      assert s[..k] == s[..n] + ":" + s[n..][1..][..k - n - 1];
      assert Spells([s[..n]] + rest, s[..k]);
    }
    forall m | k < m <= |s| ensures !IsUri(s[..m]) {
      assert s[..m] + s[m..] == s;
      if segments :| Spells(segments, s[..m]) {
        SpellsMatches(segments, s[..m], s[m..]);
      }
    }
  }

  // ---- Numbers ----

  predicate NoDigit(t: string) { t == [] || !('0' <= t[0] <= '9') }

  lemma {:induction false} SpanReaches(k: Class, s: string, n: nat)
    requires n <= |s| && forall i :: 0 <= i < n ==> In(k, s[i])
    ensures Span(k, s) >= n
  {
    if n > 0 {
      SpanReaches(k, s[1..], n - 1);
    }
  }

  lemma DigitSpan(d: string, t: string)
    requires forall i :: 0 <= i < |d| ==> '0' <= d[i] <= '9'
    ensures Span(DigitClass, d + t) >= |d|
    ensures NoDigit(t) ==> Span(DigitClass, d + t) == |d|
  {
    SpanReaches(DigitClass, d + t, |d|);
    if NoDigit(t) {
      SpanIs(DigitClass, d + t, |d|);
    }
  }

  lemma WholeMatches(w: string, t: string)
    requires IsWhole(w)
    ensures MatchInteger(w + t) >= |w|
    ensures NoDigit(t) ==> MatchInteger(w + t) == |w|
  {
    DigitSpan(w, t);
    assert (w + t)[0] == w[0];
  }

  lemma FractionMatches(f: string, t: string)
    requires IsFraction(f)
    ensures f != [] ==> FractionLength(f + t) >= |f|
    ensures f != [] && NoDigit(t) ==> FractionLength(f + t) == |f|
    ensures f == [] && (t == [] || t[0] != '.') ==> FractionLength(f + t) == 0
  {
    if f != [] {
      assert (f + t)[1..] == f[1..] + t;
      DigitSpan(f[1..], t);
    } else {
      assert f + t == t;
    }
  }

  lemma ExponentMatches(e: string, t: string)
    requires IsExponent(e)
    ensures ExponentLength(e + t) >= |e|
  {
    if e != [] {
      var k := if AllDigits(e[1..]) then 1 else 2;
      assert (e + t)[0] == e[0] && (e + t)[1] == e[1];
      if k == 1 {
        assert e[1..][0] == e[1];
      }
      assert ExponentSign(e + t) == k - 1;
      assert (e + t)[k..] == e[k..] + t;
      DigitSpan(e[k..], t);
    }
  }

  lemma TailMatches(f: string, e: string, t: string)
    requires IsFraction(f) && IsExponent(e)
    ensures TailLength(f + e + t) >= |f + e|
  {
    assert f + e + t == f + (e + t);
    FractionMatches(f, e + t);
    ExponentMatches(e, t);
    if e != [] {
      assert (e + t)[0] == e[0];
      assert FractionLength(f + (e + t)) == |f|;
      assert (f + (e + t))[|f|..] == e + t;
    }
  }

  lemma UnsignedMatches(w: string, f: string, e: string, t: string)
    requires IsWhole(w) && IsFraction(f) && IsExponent(e)
    ensures MatchUnsigned(w + (f + e + t)) >= |w| + |f + e|
  {
    hide IsWhole, IsFraction, IsExponent, TailLength, MatchInteger;
    var tail := f + e + t;
    WholeMatches(w, tail);
    WholeStarts(w);
    if f + e != [] {
      TailStarts(f, e, t);
      assert (w + tail)[|w|..] == tail;
      TailMatches(f, e, t);
    }
  }

  lemma WholeStarts(w: string)
    requires IsWhole(w)
    ensures w != [] && '0' <= w[0] <= '9'
  {
  }

  lemma TailStarts(f: string, e: string, t: string)
    requires IsFraction(f) && IsExponent(e) && f + e != []
    ensures NoDigit(f + e + t)
  {
    assert (f + e + t)[0] == (f + e)[0];
  }

  lemma NumeralMatches(n: Numeral, t: string)
    requires WfNumeral(n)
    ensures MatchNumber(NumeralText(n) + t) >= |NumeralText(n)|
  {
    hide IsWhole, IsFraction, IsExponent, MatchUnsigned;
    var u := n.whole + (n.fraction + n.exponent + t);
    assert NumeralText(n) + t == n.sign + u;
    WholeStarts(n.whole);
    assert u[0] == n.whole[0];
    UnsignedMatches(n.whole, n.fraction, n.exponent, t);
    assert (n.sign + u)[|n.sign|..] == u;
  }

  lemma SpanDigits(s: string)
    requires Span(DigitClass, s) > 0
    ensures AllDigits(s[..Span(DigitClass, s)])
  {
    SpanFacts(DigitClass, s);
  }

  lemma FractionTaken(s: string)
    ensures IsFraction(s[..FractionLength(s)])
  {
    var k := FractionLength(s);
    if k > 0 {
      SpanDigits(s[1..]);
      assert s[..k][1..] == s[1..][..k - 1];
    }
  }

  lemma ExponentTaken(s: string)
    ensures IsExponent(s[..ExponentLength(s)])
  {
    var k := ExponentLength(s);
    if k > 0 {
      var d := 1 + ExponentSign(s);
      SpanDigits(s[d..]);
      assert s[..k][d..] == s[d..][..k - d];
    }
  }

  lemma WholeTaken(s: string)
    requires MatchInteger(s) > 0
    ensures IsWhole(s[..MatchInteger(s)])
  {
    if s[0] != '0' {
      SpanDigits(s);
    }
  }

  lemma TailTaken(s: string) returns (f: string, e: string)
    ensures IsFraction(f) && IsExponent(e) && s[..TailLength(s)] == f + e
  {
    var k := FractionLength(s);
    FractionTaken(s);
    ExponentTaken(s[k..]);
    f, e := s[..k], s[k..][..ExponentLength(s[k..])];
  }

  lemma NumberTaken(s: string)
    requires MatchNumber(s) > 0
    ensures IsNumber(s[..MatchNumber(s)])
  {
    hide IsWhole, IsFraction, IsExponent, TailLength, MatchInteger;
    var k := SignLength(s);
    var u := s[k..];
    var i := MatchInteger(u);
    WholeTaken(u);
    var f, e := TailTaken(u[i..]);
    var n := Numeral(s[..k], u[..i], f, e);
    assert u[..MatchUnsigned(u)] == u[..i] + (f + e);
    assert s[..MatchNumber(s)] == s[..k] + u[..MatchUnsigned(u)];
    assert WfNumeral(n) && s[..MatchNumber(s)] == NumeralText(n);
  }

  lemma NumberLongest(s: string)
    ensures MatchNumber(s) > 0 ==> IsNumber(s[..MatchNumber(s)])
    ensures forall m :: MatchNumber(s) < m <= |s| ==> !IsNumber(s[..m])
  {
    if MatchNumber(s) > 0 {
      NumberTaken(s);
    }
    forall m | MatchNumber(s) < m <= |s| ensures !IsNumber(s[..m]) {
      assert s[..m] + s[m..] == s;
      if n :| WfNumeral(n) && s[..m] == NumeralText(n) {
        NumeralMatches(n, s[m..]);
      }
    }
  }

  // ---- Strings ----

  lemma {:induction false} FlatMatches(pieces: seq<string>, t: string)
    requires forall p :: p in pieces ==> IsPiece(p)
    ensures MatchQuoted(Flat(pieces) + "\"" + t) == |Flat(pieces)| + 1
  {
    var s := Flat(pieces) + "\"" + t;
    if pieces == [] {
      assert s[0] == '"';
    } else {
      var p, rest := pieces[0], Flat(pieces[1..]) + "\"" + t;
      assert IsPiece(p);
      assert s == p + rest && s[0] == p[0] && (|p| == 2 ==> s[1] == p[1]);
      assert s[|p|..] == rest;
      FlatMatches(pieces[1..], t);
    }
  }

  lemma {:induction false} QuotedTaken(s: string) returns (pieces: seq<string>)
    requires MatchQuoted(s) > 0
    ensures (forall p :: p in pieces ==> IsPiece(p)) && s[..MatchQuoted(s)] == Flat(pieces) + "\""
  {
    if s[0] == '"' {
      pieces := [];
    } else {
      var step := if s[0] == '\\' then 2 else 1;
      var rest := QuotedTaken(s[step..]);
      pieces := [s[..step]] + rest;
      assert s[..MatchQuoted(s)] == s[..step] + s[step..][..MatchQuoted(s[step..])];
    }
  }

  lemma QuotesMatches(pieces: seq<string>, w: string, t: string)
    requires Quotes(pieces, w)
    ensures MatchString(w + t) == |w|
  {
    FlatMatches(pieces, t);
    assert (w + t)[1..] == Flat(pieces) + "\"" + t;
  }

  lemma StringLongest(s: string)
    ensures MatchString(s) > 0 ==> IsQuoted(s[..MatchString(s)])
    ensures forall m :: MatchString(s) < m <= |s| ==> !IsQuoted(s[..m])
  {
    var k := MatchString(s);
    if k > 0 {
      var pieces := QuotedTaken(s[1..]);
      assert s[..k] == "\"" + s[1..][..k - 1];
      assert Quotes(pieces, s[..k]);
    }
    forall m | k < m <= |s| ensures !IsQuoted(s[..m]) {
      assert s == s[..m] + s[m..];
      if pieces :| Quotes(pieces, s[..m]) {
        QuotesMatches(pieces, s[..m], s[m..]);
      }
    }
  }
}
