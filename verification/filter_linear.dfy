// The parser backtracks without a memo table, yet enters the operand rule at most once per position:
// once a connective matched and its right side failed, no later token matches where the parser stands.
module FilterLinear {
  import opened Wrappers
  import opened Text
  import opened FilterLexer
  import opened FilterGrammar
  import opened FilterPrint
  import opened FilterRoundTrip

  // ---- Where the operand rule is entered: the unread lengths, in order ----

  function GroupTrace(s: string, inBrackets: bool): seq<nat>
    decreases |s|, 0
  {
    match Str("(", SkipNot(s))
    case None => []
    case Some(s1) => FilterTrace(s1, inBrackets)
  }

  function ValuePathTrace(s: string): seq<nat>
    decreases |s|, 0
  {
    match AttributePath(s)
    case None => []
    case Some(p) =>
      match Str("[", p.rest)
      case None => []
      case Some(s1) => FilterTrace(s1, true)
  }

  function AtomTrace(s: string, inBrackets: bool): seq<nat>
    decreases |s|, 1
  {
    [|s|] + GroupTrace(s, inBrackets) +
    if Group(s, inBrackets).None? && AttributeExpr(s).None? && !inBrackets then ValuePathTrace(s) else []
  }

  function ConjunctionTrace(s: string, inBrackets: bool): seq<nat>
    decreases |s|, 2
  {
    AtomTrace(s, inBrackets) +
    match Atom(s, inBrackets)
    case None => []
    case Some(l) =>
      match Connective("and", l.rest)
      case None => []
      case Some(t) => ConjunctionTrace(t, inBrackets)
  }

  function FilterTrace(s: string, inBrackets: bool): seq<nat>
    decreases |s|, 3
  {
    ConjunctionTrace(s, inBrackets) +
    match Conjunction(s, inBrackets)
    case None => []
    case Some(l) =>
      match Connective("or", l.rest)
      case None => []
      case Some(t) => FilterTrace(t, inBrackets)
  }

  // ---- Strictly descending traces ----

  ghost predicate Descends(trace: seq<nat>) {
    forall i, j :: 0 <= i < j < |trace| ==> trace[i] > trace[j]
  }

  ghost predicate AtMost(trace: seq<nat>, n: nat) {
    forall i :: 0 <= i < |trace| ==> trace[i] <= n
  }

  ghost predicate Above(trace: seq<nat>, n: nat) {
    forall i :: 0 <= i < |trace| ==> trace[i] > n
  }

  lemma DescendsJoin(a: seq<nat>, b: seq<nat>, n: nat)
    requires Descends(a) && Descends(b) && Above(a, n) && AtMost(b, n)
    ensures Descends(a + b)
  {
  }

  // ---- Why a reset position is a dead end ----

  // The text starts with a connective whose right side was tried and failed.
  ghost predicate Stuck(s: string) {
    Connective("and", s).Some? || Connective("or", s).Some?
  }

  // Where an "and" was given up, no "or" matches.
  lemma StuckAnd(s: string)
    requires Connective("and", s).Some?
    ensures Connective("or", s).None?
  {
    var t := Space(s).value;
    assert Lower(t[..3])[0] == LowerChar(t[0]);
    KeywordFails("or", t);
  }

  // If an operand opens a group, it can only be a group.
  lemma GroupOnly(s: string)
    requires Str("(", SkipNot(s)).Some?
    ensures AttributeExpr(s).None? && ValuePathTrace(s) == [] && ValuePathExpr(s).None?
  {
    hide FilterTrace, Filter, AttributePath, SkipNot, Keyword, FirstOp, LiteralValue;
    if AttributePath(s).Some? {
      var path := AttributePath(s).value;
      PathCut(s);
      PathStops(s);
      PathStart(path.value);
      PathChars(path.value);
      NotThenGroup(path.value, path.rest);
      if Space(path.rest).Some? {
        OpenNotKeyword(Space(path.rest).value);
      }
    }
  }

  // A path in front of a group is the word "not" alone, so what follows it is spaces and a parenthesis.
  lemma NotThenGroup(path: string, rest: string)
    requires path != [] && path[0] != '(' && (forall i :: 0 <= i < |path| ==> PathChar(path[i]))
    requires rest == [] || !IsNameChar(rest[0])
    requires Str("(", SkipNot(path + rest)).Some?
    ensures rest != [] && (rest[0] == '(' || rest[0] == ' ')
    ensures Space(rest).Some? ==> Space(rest).value != [] && Space(rest).value[0] == '('
  {
    var s := path + rest;
    NotLetters(s);
    assert |path| >= 3;
    if |path| > 3 {
      LongerThanNot(path, rest);
    }
    assert s[3..] == rest;
  }

  lemma LongerThanNot(path: string, rest: string)
    requires |path| > 3 && PathChar(path[3]) && Keyword("not", path + rest).Some?
    ensures Str("(", SkipNot(path + rest)) == None
  {
    var s := path + rest;
    SpanIs(BlankClass, s[3..], 0);
    assert SkipNot(s)[0] == path[3];
  }

  lemma OpenNotKeyword(s: string)
    requires s != [] && s[0] == '('
    ensures Keyword("pr", s) == None && FirstOp(OPERATORS, s) == None
  {
    KeywordFails("pr", s);
    forall op: Op ensures Keyword(OpWord(op), s) == None {
      KeywordFails(OpWord(op), s);
    }
    NoOp(OPERATORS, s);
  }

  lemma {:induction false} NoOp(ops: seq<Op>, s: string)
    requires forall op: Op :: Keyword(OpWord(op), s) == None
    ensures FirstOp(ops, s) == None
  {
    if ops != [] {
      NoOp(ops[1..], s);
    }
  }

  // ---- Every trace descends ----

  // Sound: the entries descend from the start; after a success they all lie before the text that is
  // left, unless that text is where a connective was given up.
  ghost predicate SoundTrace(trace: seq<nat>, s: string, r: Option<Parsed<Node>>) {
    && Descends(trace) && AtMost(trace, |s|)
    && (r.Some? ==> Stuck(r.value.rest) || Above(trace, |r.value.rest|))
  }

  // Entering an operand, then something strictly inside it.
  lemma EnterThen(n: nat, trace: seq<nat>)
    requires Descends(trace) && (forall i :: 0 <= i < |trace| ==> trace[i] < n)
    ensures Descends([n] + trace) && AtMost([n] + trace, n)
  {
  }

  lemma {:induction false} GroupDescends(s: string, inBrackets: bool)
    ensures Descends(GroupTrace(s, inBrackets))
    ensures forall i :: 0 <= i < |GroupTrace(s, inBrackets)| ==> GroupTrace(s, inBrackets)[i] < |s|
    ensures Group(s, inBrackets).Some? ==> Above(GroupTrace(s, inBrackets), |Group(s, inBrackets).value.rest|)
    decreases |s|, 0
  {
    hide FilterTrace, Filter, Keyword, Connective;
    var open := Str("(", SkipNot(s));
    if open.Some? {
      FilterDescends(open.value, inBrackets);
      if Group(s, inBrackets).Some? {
        ClosedNotStuck(Filter(open.value, inBrackets).value.rest);
      }
    }
  }

  lemma ClosedNotStuck(s: string)
    requires s != [] && s[0] != ' '
    ensures !Stuck(s)
  {
    NoConnective(s);
  }

  lemma {:induction false} ValuePathDescends(s: string)
    ensures Descends(ValuePathTrace(s))
    ensures forall i :: 0 <= i < |ValuePathTrace(s)| ==> ValuePathTrace(s)[i] < |s|
    ensures ValuePathExpr(s).Some? ==> Above(ValuePathTrace(s), |ValuePathExpr(s).value.rest|)
    decreases |s|, 0
  {
    hide FilterTrace, Filter, AttributePath, Connective;
    if AttributePath(s).Some? {
      var open := Str("[", AttributePath(s).value.rest);
      if open.Some? {
        FilterDescends(open.value, true);
        if ValuePathExpr(s).Some? {
          ClosedNotStuck(Filter(open.value, true).value.rest);
        }
      }
    }
  }

  // An operand is never left stuck, and only one of its alternatives enters further operands.
  lemma {:induction false} AtomDescends(s: string, inBrackets: bool)
    ensures Descends(AtomTrace(s, inBrackets)) && AtMost(AtomTrace(s, inBrackets), |s|)
    ensures Atom(s, inBrackets).Some? ==> Above(AtomTrace(s, inBrackets), |Atom(s, inBrackets).value.rest|)
    decreases |s|, 1
  {
    hide GroupTrace, ValuePathTrace, Group, ValuePathExpr, AttributeExpr, SkipNot;
    GroupDescends(s, inBrackets);
    if Str("(", SkipNot(s)).Some? {
      GroupOnly(s);
      EnterThen(|s|, GroupTrace(s, inBrackets));
      assert AtomTrace(s, inBrackets) == [|s|] + GroupTrace(s, inBrackets);
    } else {
      NoGroup(s, inBrackets);
      ValuePathDescends(s);
      EnterThen(|s|, ValuePathTrace(s));
      EnterThen(|s|, []);
      assert AtomTrace(s, inBrackets) == [|s|] + ValuePathTrace(s) || AtomTrace(s, inBrackets) == [|s|];
    }
  }

  lemma NoGroup(s: string, inBrackets: bool)
    requires Str("(", SkipNot(s)).None?
    ensures Group(s, inBrackets) == None && GroupTrace(s, inBrackets) == []
  {
  }

  lemma {:induction false} ConjunctionDescends(s: string, inBrackets: bool)
    ensures SoundTrace(ConjunctionTrace(s, inBrackets), s, Conjunction(s, inBrackets))
    ensures Conjunction(s, inBrackets).Some? &&
            !Above(ConjunctionTrace(s, inBrackets), |Conjunction(s, inBrackets).value.rest|)
            ==> Connective("and", Conjunction(s, inBrackets).value.rest).Some?
    decreases |s|, 2
  {
    hide AtomTrace, Atom, Connective, Descends, AtMost, Above;
    var first := AtomTrace(s, inBrackets);
    AtomDescends(s, inBrackets);
    if Atom(s, inBrackets).Some? {
      var l := Atom(s, inBrackets).value;
      if Connective("and", l.rest).Some? {
        var t := Connective("and", l.rest).value;
        ConjunctionDescends(t, inBrackets);
        JoinTraces(first, ConjunctionTrace(t, inBrackets), s, l.rest, t, Conjunction(t, inBrackets));
      } else {
        assert first + [] == first;
      }
    } else {
      assert first + [] == first;
    }
  }

  // What an operand and then the operands after a connective enter, one after the other.
  lemma JoinTraces(first: seq<nat>, second: seq<nat>, s: string, mid: string, t: string, r: Option<Parsed<Node>>)
    requires Descends(first) && AtMost(first, |s|) && Above(first, |mid|)
    requires |t| < |mid| <= |s| && SoundTrace(second, t, r) && (r.Some? ==> |r.value.rest| < |t|)
    ensures Descends(first + second) && AtMost(first + second, |s|)
    ensures r.Some? && Above(second, |r.value.rest|) ==> Above(first + second, |r.value.rest|)
  {
    DescendsJoin(first, second, |t|);
  }

  lemma {:induction false} FilterDescends(s: string, inBrackets: bool)
    ensures SoundTrace(FilterTrace(s, inBrackets), s, Filter(s, inBrackets))
    decreases |s|, 3
  {
    hide ConjunctionTrace, Conjunction, Connective, Descends, AtMost, Above;
    var first := ConjunctionTrace(s, inBrackets);
    ConjunctionDescends(s, inBrackets);
    if Conjunction(s, inBrackets).Some? {
      var l := Conjunction(s, inBrackets).value;
      if Connective("and", l.rest).Some? {
        StuckAnd(l.rest);
        assert first + [] == first;
      } else if Connective("or", l.rest).Some? {
        var t := Connective("or", l.rest).value;
        FilterDescends(t, inBrackets);
        JoinTraces(first, FilterTrace(t, inBrackets), s, l.rest, t, Filter(t, inBrackets));
      } else {
        assert first + [] == first;
      }
    } else {
      assert first + [] == first;
    }
  }

  // ---- Hence linear ----

  lemma {:induction false} DescendsShort(trace: seq<nat>, n: nat)
    requires Descends(trace) && AtMost(trace, n)
    ensures |trace| <= n + 1
    decreases n
  {
    if trace != [] && n > 0 {
      var rest := trace[1..];
      forall i | 0 <= i < |rest| ensures rest[i] <= n - 1 {
        DescendsAt(trace, 0, i + 1);
      }
      DescendsShort(rest, n - 1);
    } else if |trace| > 1 {
      DescendsAt(trace, 0, 1);
    }
  }

  lemma DescendsAt(trace: seq<nat>, i: nat, j: nat)
    requires Descends(trace) && i < j < |trace|
    ensures trace[i] > trace[j]
  {
  }

  // On every text, accepted or not, the operand rule is entered at most once per position.
  lemma LinearParsing(text: string)
    ensures Descends(FilterTrace(text, false)) && |FilterTrace(text, false)| <= |text| + 1
  {
    FilterDescends(text, false);
    DescendsShort(FilterTrace(text, false), |text|);
  }
}
