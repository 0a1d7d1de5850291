// The tokens of the filter grammar, each recognised at the front of a string by its match.
// A recogniser returns the length of the match, and 0 when there is none: every token is non-empty.
module FilterLexer {

  predicate IsAlpha(c: char) { 'a' <= c <= 'z' || 'A' <= c <= 'Z' }

  predicate IsDigit(c: char) { '0' <= c <= '9' }

  predicate IsNameChar(c: char) { IsAlpha(c) || IsDigit(c) || c == '_' || c == '-' }

  predicate IsUriChar(c: char) { IsAlpha(c) || IsDigit(c) || c == '.' || c == '-' }

  datatype Class = NameClass | UriClass | DigitClass | BlankClass

  predicate In(k: Class, c: char) {
    match k
    case NameClass => IsNameChar(c)
    case UriClass => IsUriChar(c)
    case DigitClass => IsDigit(c)
    case BlankClass => c == ' '
  }

  // The length of the longest prefix made of such characters.
  function Span(k: Class, s: string): (n: nat)
    ensures n <= |s|
  {
    if s != [] && In(k, s[0]) then 1 + Span(k, s[1..]) else 0
  }

  // ---- Attribute names: [a-zA-Z][a-zA-Z0-9_\-]* ----

  function MatchName(s: string): (n: nat)
    ensures n <= |s|
  {
    if s != [] && IsAlpha(s[0]) then Span(NameClass, s) else 0
  }

  // ---- Schema URIs: [A-Za-z][A-Za-z0-9.\-]*(:[A-Za-z0-9.\-]+)*: ----

  // After a segment: the final colon, or further segments when those end in a colon too.
  function MatchSegments(s: string): (n: nat)
    ensures n <= |s|
  {
    if s == [] || s[0] != ':' then 0 else AfterColon(s[1..])
  }

  function AfterColon(s: string): (n: nat)
    ensures 0 < n <= |s| + 1
  {
    var n := Span(UriClass, s);
    var more := if n == 0 then 0 else MatchSegments(s[n..]);
    if more == 0 then 1 else 1 + n + more
  }

  function MatchUri(s: string): (n: nat)
    ensures n <= |s|
  {
    if s == [] || !IsAlpha(s[0]) then 0
    else
      var n := Span(UriClass, s);
      var more := MatchSegments(s[n..]);
      if more == 0 then 0 else n + more
  }

  // ---- Numbers: -?(0|[1-9][0-9]*)(\.[0-9]+)?([eE][+-]?[0-9]+)? ----

  function SignLength(s: string): (n: nat)
    ensures n <= |s|
  {
    if s != [] && s[0] == '-' then 1 else 0
  }

  function MatchInteger(s: string): (n: nat)
    ensures n <= |s|
  {
    if s == [] || !IsDigit(s[0]) then 0
    else if s[0] == '0' then 1
    else Span(DigitClass, s)
  }

  function FractionLength(s: string): (n: nat)
    ensures n <= |s|
  {
    if s == [] || s[0] != '.' then 0
    else
      var n := Span(DigitClass, s[1..]);
      if n == 0 then 0 else 1 + n
  }

  function ExponentSign(s: string): nat {
    if |s| > 1 && (s[1] == '+' || s[1] == '-') then 1 else 0
  }

  function ExponentLength(s: string): (n: nat)
    ensures n <= |s|
  {
    if s == [] || (s[0] != 'e' && s[0] != 'E') then 0
    else
      var n := Span(DigitClass, s[1 + ExponentSign(s)..]);
      if n == 0 then 0 else 1 + ExponentSign(s) + n
  }

  // What may follow the integer part.
  function TailLength(s: string): (n: nat)
    ensures n <= |s|
  {
    var f := FractionLength(s);
    f + ExponentLength(s[f..])
  }

  function MatchUnsigned(s: string): (n: nat)
    ensures n <= |s|
  {
    var i := MatchInteger(s);
    if i == 0 then 0 else i + TailLength(s[i..])
  }

  function MatchNumber(s: string): (n: nat)
    ensures n <= |s|
  {
    var n := MatchUnsigned(s[SignLength(s)..]);
    if n == 0 then 0 else SignLength(s) + n
  }

  // ---- Quoted strings: "([^"\\]|\\.)*" where . is not a line feed ----

  // From after the opening quote through the closing one.
  function MatchQuoted(s: string): (n: nat)
    ensures n <= |s|
  {
    if s == [] then 0
    else if s[0] == '"' then 1
    else
      var step := if s[0] == '\\' then 2 else 1;
      if |s| < step || (step == 2 && s[1] == '\n') then 0
      else
        var n := MatchQuoted(s[step..]);
        if n == 0 then 0 else step + n
  }

  function MatchString(s: string): (n: nat)
    ensures n <= |s|
  {
    if s == [] || s[0] != '"' then 0
    else
      var n := MatchQuoted(s[1..]);
      if n == 0 then 0 else 1 + n
  }

  // ---- Spans of a concatenation ----

  lemma DropAppend(s: string, t: string, k: nat)
    requires k <= |s|
    ensures (s + t)[k..] == s[k..] + t
  {
  }

  lemma DropTake(s: string, k: nat, m: nat)
    requires k <= m <= |s|
    ensures s[..m][k..] == s[k..][..m - k]
  {
  }

  lemma {:induction false} SpanFacts(k: Class, s: string)
    ensures forall i :: 0 <= i < Span(k, s) ==> In(k, s[i])
    ensures Span(k, s) < |s| ==> !In(k, s[Span(k, s)])
  {
    if s != [] && In(k, s[0]) {
      SpanFacts(k, s[1..]);
      forall i | 0 <= i < Span(k, s) ensures In(k, s[i]) {
        if i > 0 { assert s[i] == s[1..][i - 1]; }
      }
    }
  }

  // The span of such a prefix ends where the first other character is.
  lemma {:induction false} SpanIs(k: Class, s: string, n: nat)
    requires n <= |s| && (forall i :: 0 <= i < n ==> In(k, s[i])) && (n < |s| ==> !In(k, s[n]))
    ensures Span(k, s) == n
  {
    if n > 0 {
      SpanIs(k, s[1..], n - 1);
    }
  }

  lemma SpanAppend(k: Class, s: string, t: string)
    requires Span(k, s) < |s| || t == [] || !In(k, t[0])
    ensures Span(k, s + t) == Span(k, s)
  {
    SpanFacts(k, s);
    SpanIs(k, s + t, Span(k, s));
  }

  lemma SpanCut(k: Class, s: string, m: nat)
    requires Span(k, s) <= m <= |s|
    ensures Span(k, s[..m]) == Span(k, s)
  {
    SpanFacts(k, s);
    SpanIs(k, s[..m], Span(k, s));
  }

  // ---- Names ----

  lemma NameAppend(s: string, t: string)
    requires s != [] && MatchName(s) == |s| && (t == [] || !IsNameChar(t[0]))
    ensures MatchName(s + t) == |s|
  {
    SpanAppend(NameClass, s, t);
  }

  lemma NameCut(s: string)
    ensures MatchName(s[..MatchName(s)]) == MatchName(s)
  {
    if MatchName(s) > 0 {
      SpanCut(NameClass, s, MatchName(s));
    }
  }

  lemma NameChars(s: string)
    requires MatchName(s) == |s|
    ensures forall c :: c in s ==> IsNameChar(c)
  {
    SpanFacts(NameClass, s);
  }

  // ---- URIs ----

  // No colon follows the run of URI characters, so no further segment can end here.
  ghost predicate Stops(s: string) {
    Span(UriClass, s) < |s| ==> s[Span(UriClass, s)] != ':'
  }

  lemma StopsNoColon(s: string)
    requires ':' !in s
    ensures Stops(s)
  {
  }

  lemma StopsBefore(s: string, t: string)
    requires ':' !in s && t != [] && !IsUriChar(t[0]) && t[0] != ':'
    ensures Stops(s + t)
  {
    SpanAppend(UriClass, s, t);
  }

  lemma NoUri(s: string)
    requires Stops(s)
    ensures MatchUri(s) == 0
  {
  }

  lemma {:induction false} SegmentsAppend(s: string, t: string)
    requires s != [] && MatchSegments(s) == |s| && Stops(t)
    ensures MatchSegments(s + t) == |s|
  {
    DropAppend(s, t, 1);
    AfterColonAppend(s[1..], t);
  }

  lemma {:induction false} AfterColonAppend(s: string, t: string)
    requires AfterColon(s) == |s| + 1 && Stops(t)
    ensures AfterColon(s + t) == |s| + 1
  {
    var n := Span(UriClass, s);
    if s == [] {
      assert s + t == t;
    } else {
      DropAppend(s, t, n);
      SpanAppend(UriClass, s, t);
      SegmentsAppend(s[n..], t);
    }
  }

  lemma UriAppend(s: string, t: string)
    requires s != [] && MatchUri(s) == |s| && Stops(t)
    ensures MatchUri(s + t) == |s|
  {
    var n := Span(UriClass, s);
    SpanAppend(UriClass, s, t);
    SegmentsAppend(s[n..], t);
    DropAppend(s, t, n);
  }

  lemma {:induction false} SegmentsCut(s: string)
    ensures MatchSegments(s[..MatchSegments(s)]) == MatchSegments(s)
    ensures MatchSegments(s) > 0 ==> s[MatchSegments(s) - 1] == ':'
  {
    var k := MatchSegments(s);
    if k > 0 {
      AfterColonCut(s[1..]);
      DropTake(s, 1, k);
    }
  }

  lemma {:induction false} AfterColonCut(s: string)
    ensures AfterColon(s[..AfterColon(s) - 1]) == AfterColon(s)
    ensures AfterColon(s) > 1 ==> s[AfterColon(s) - 2] == ':'
  {
    var m := AfterColon(s) - 1;
    if m > 0 {
      var n := Span(UriClass, s);
      SegmentsCut(s[n..]);
      SpanCut(UriClass, s, m);
      DropTake(s, n, m);
    }
  }

  lemma UriCut(s: string)
    ensures MatchUri(s[..MatchUri(s)]) == MatchUri(s)
    ensures MatchUri(s) > 0 ==> s[MatchUri(s) - 1] == ':'
  {
    var k := MatchUri(s);
    if k > 0 {
      var n := Span(UriClass, s);
      SpanCut(UriClass, s, k);
      SegmentsCut(s[n..]);
      DropTake(s, n, k);
    }
  }

  // ---- Numbers ----

  predicate EndsNumber(t: string) {
    t == [] || (!IsDigit(t[0]) && t[0] != '.' && t[0] != 'e' && t[0] != 'E' && t[0] != '+' && t[0] != '-')
  }

  lemma FractionAppend(s: string, t: string)
    requires EndsNumber(t)
    ensures FractionLength(s + t) == FractionLength(s)
  {
    if s == [] {
      assert s + t == t;
    } else {
      DropAppend(s, t, 1);
      SpanAppend(DigitClass, s[1..], t);
    }
  }

  lemma ExponentAppend(s: string, t: string)
    requires EndsNumber(t)
    ensures ExponentLength(s + t) == ExponentLength(s)
  {
    if s == [] {
      assert s + t == t;
    } else {
      assert ExponentSign(s + t) == ExponentSign(s);
      DropAppend(s, t, 1 + ExponentSign(s));
      SpanAppend(DigitClass, s[1 + ExponentSign(s)..], t);
    }
  }

  lemma TailAppend(s: string, t: string)
    requires EndsNumber(t)
    ensures TailLength(s + t) == TailLength(s)
  {
    FractionAppend(s, t);
    DropAppend(s, t, FractionLength(s));
    ExponentAppend(s[FractionLength(s)..], t);
  }

  lemma UnsignedAppend(s: string, t: string)
    requires s != [] && MatchUnsigned(s) == |s| && EndsNumber(t)
    ensures MatchUnsigned(s + t) == |s|
  {
    var i := MatchInteger(s);
    SpanAppend(DigitClass, s, t);
    assert MatchInteger(s + t) == i;
    DropAppend(s, t, i);
    TailAppend(s[i..], t);
  }

  lemma NumberAppend(s: string, t: string)
    requires s != [] && MatchNumber(s) == |s| && EndsNumber(t)
    ensures MatchNumber(s + t) == |s|
  {
    DropAppend(s, t, SignLength(s));
    UnsignedAppend(s[SignLength(s)..], t);
  }

  lemma FractionCut(s: string, m: nat)
    requires FractionLength(s) <= m <= |s|
    ensures FractionLength(s[..m]) == FractionLength(s)
  {
    if s != [] && s[0] == '.' && m > 0 {
      DropTake(s, 1, m);
      if FractionLength(s) > 0 {
        SpanCut(DigitClass, s[1..], m - 1);
      } else {
        SpanIs(DigitClass, s[..m][1..], 0);
      }
    }
  }

  lemma ExponentCut(s: string)
    ensures ExponentLength(s[..ExponentLength(s)]) == ExponentLength(s)
  {
    var m := ExponentLength(s);
    if m > 0 {
      DropTake(s, 1 + ExponentSign(s), m);
      SpanCut(DigitClass, s[1 + ExponentSign(s)..], m - 1 - ExponentSign(s));
    }
  }

  lemma TailCut(s: string)
    ensures TailLength(s[..TailLength(s)]) == TailLength(s)
  {
    var f := FractionLength(s);
    FractionCut(s, TailLength(s));
    DropTake(s, f, TailLength(s));
    ExponentCut(s[f..]);
  }

  lemma UnsignedCut(s: string)
    ensures MatchUnsigned(s[..MatchUnsigned(s)]) == MatchUnsigned(s)
  {
    var k := MatchUnsigned(s);
    if k > 0 {
      var i := MatchInteger(s);
      if s[0] != '0' {
        SpanCut(DigitClass, s, k);
      }
      DropTake(s, i, k);
      TailCut(s[i..]);
    }
  }

  lemma NumberCut(s: string)
    ensures MatchNumber(s[..MatchNumber(s)]) == MatchNumber(s)
  {
    var k := MatchNumber(s);
    if k > 0 {
      var sign := SignLength(s);
      DropTake(s, sign, k);
      UnsignedCut(s[sign..]);
    }
  }
}
