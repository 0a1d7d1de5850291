// Parsing undoes printing, and everything the parser accepts prints to text it reads back unchanged.
module FilterRoundTrip {
  import opened Wrappers
  import opened Text
  import opened FilterLexer
  import opened FilterJson
  import opened FilterGrammar
  import opened FilterPrint

  // What may stand right after an operand.
  predicate Boundary(t: string) {
    t == [] || t[0] == ' ' || t[0] == ')' || t[0] == ']'
  }

  // Regrouping a concatenation.
  lemma Regroup(a: string, b: string, c: string, d: string, e: string)
    ensures a + b + c + d + e == a + (b + c + d) + e
    ensures a + b + c + d + e == a + (b + (c + (d + e)))
  {
  }

  lemma DropWord(word: string, t: string)
    ensures (word + t)[|word|..] == t && (word + t)[..|word|] == word
  {
  }

  lemma SpaceReads(t: string)
    requires t == [] || t[0] != ' '
    ensures Space(" " + t) == Some(t)
  {
    DropWord(" ", t);
    SpanIs(BlankClass, " " + t, 1);
  }

  lemma LowerWord(word: string)
    requires forall i :: 0 <= i < |word| ==> 'a' <= word[i] <= 'z'
    ensures Lower(word) == word
  {
  }

  lemma KeywordReads(word: string, t: string)
    requires Lower(word) == word
    ensures Keyword(word, word + t) == Some(t)
  {
    DropWord(word, t);
  }

  // A keyword does not match text whose first two letters, in lower case, are others.
  lemma KeywordFails(word: string, s: string)
    requires |word| >= 2
    requires |s| < 2 || LowerChar(s[0]) != word[0] || LowerChar(s[1]) != word[1]
    ensures Keyword(word, s) == None
  {
    if |word| <= |s| {
      assert Lower(s[..|word|])[0] == LowerChar(s[0]) && Lower(s[..|word|])[1] == LowerChar(s[1]);
    }
  }

  lemma ConnectiveReads(word: string, t: string)
    requires (word == "and" || word == "or") && (t == [] || t[0] != ' ')
    ensures Connective(word, " " + word + " " + t) == Some(t)
  {
    LowerWord(word);
    SpaceReads(word + (" " + t));
    assert " " + word + " " + t == " " + (word + (" " + t));
    KeywordReads(word, " " + t);
    SpaceReads(t);
  }

  lemma ConnectiveOther(t: string)
    ensures Connective("and", " or " + t) == None && Connective("or", " and " + t) == None
  {
    SpaceReads("or " + t);
    SpaceReads("and " + t);
    assert " or " + t == " " + ("or " + t) && " and " + t == " " + ("and " + t);
    KeywordFails("and", "or " + t);
    KeywordFails("or", "and " + t);
  }

  // ---- Tokens of an attribute expression ----

  lemma OpReads(op: Op, t: string)
    ensures FirstOp(OPERATORS, OpWord(op) + t) == Some(Parsed(op, t))
  {
    var s := OpWord(op) + t;
    LowerWord(OpWord(op));
    KeywordReads(OpWord(op), t);
    forall other: Op | other != op ensures Keyword(OpWord(other), s) == None {
      KeywordFails(OpWord(other), s);
    }
    OpFound(OPERATORS, op, s, t);
  }

  lemma {:induction false} OpFound(ops: seq<Op>, op: Op, s: string, t: string)
    requires op in ops && Keyword(OpWord(op), s) == Some(t)
    requires forall other: Op :: other != op ==> Keyword(OpWord(other), s) == None
    ensures FirstOp(ops, s) == Some(Parsed(op, t))
  {
    if ops[0] != op {
      OpFound(ops[1..], op, s, t);
    }
  }

  lemma BoundaryEndsNumber(t: string)
    requires Boundary(t)
    ensures EndsNumber(t)
  {
  }

  lemma NumberStarts(digits: string)
    requires digits != [] && MatchNumber(digits) == |digits|
    ensures digits[0] == '-' || IsDigit(digits[0])
  {
  }

  lemma NumberReads(digits: string, t: string)
    requires digits != [] && MatchNumber(digits) == |digits| && Boundary(t)
    ensures LiteralValue(digits + t) == Some(Parsed(Number(digits), t))
  {
    NumberStarts(digits);
    BoundaryEndsNumber(t);
    NumberAppend(digits, t);
    DropWord(digits, t);
    NotWord(digits + t);
  }

  // Text that starts with neither f, n nor t is none of the literal names.
  lemma NotWord(s: string)
    requires s != [] && s[0] != 'f' && s[0] != 'n' && s[0] != 't'
    ensures !("false" <= s) && !("null" <= s) && !("true" <= s)
  {
  }

  lemma QuotedReads(text: string, t: string)
    ensures LiteralValue(EncodeString(text) + t) == Some(Parsed(Quoted(text), t))
  {
    var e := EncodeString(text);
    NotWord(e + t);
    EncodedIsToken(text, t);
    DropWord(e, t);
    StringRoundTrip(text);
    NotNumber(e + t);
  }

  lemma NotNumber(s: string)
    requires s != [] && s[0] == '"'
    ensures MatchNumber(s) == 0
  {
  }

  lemma LiteralReads(v: Literal, t: string)
    requires WfLiteral(v) && Boundary(t)
    ensures LiteralValue(LiteralText(v) + t) == Some(Parsed(v, t))
  {
    match v
    case Null => DropWord("null", t);
    case Bool(flag) =>
      DropWord(LiteralText(v), t);
      assert LiteralText(v)[0] == if flag then 't' else 'f';
    case Number(digits) => NumberReads(digits, t);
    case Quoted(text) => QuotedReads(text, t);
  }

  lemma LiteralStart(v: Literal)
    requires WfLiteral(v)
    ensures LiteralText(v) != [] && LiteralText(v)[0] != ' '
  {
    if v.Number? { NumberStarts(v.digits); }
  }

  // ---- Attribute expressions ----

  lemma PresentReads(path: string, t: string)
    requires WfPath(path)
    ensures PresenceExpr(path + " pr" + t) == Some(Parsed(Present(path), t))
  {
    hide AttributePath, Keyword, Space;
    var tail := " " + ("pr" + t);
    assert path + " pr" + t == path + tail;
    PathAppend(path, tail);
    SpaceReads("pr" + t);
    LowerWord("pr");
    KeywordReads("pr", t);
  }

  lemma OpStart(op: Op, t: string)
    ensures OpWord(op) != [] && OpWord(op)[0] != ' ' && Keyword("pr", OpWord(op) + t) == None
  {
    KeywordFails("pr", OpWord(op) + t);
  }

  lemma CompareSteps(s: string, path: string, s1: string, s2: string, op: Op, s3: string, s4: string, v: Literal,
                     t: string)
    requires AttributePath(s) == Some(Parsed(path, s1)) && Space(s1) == Some(s2) && Keyword("pr", s2) == None
    requires FirstOp(OPERATORS, s2) == Some(Parsed(op, s3)) && Space(s3) == Some(s4)
    requires LiteralValue(s4) == Some(Parsed(v, t))
    ensures PresenceExpr(s) == None && CompareExpr(s) == Some(Parsed(Compare(path, op, v), t))
  {
    hide AttributePath, Keyword, Space, FirstOp, LiteralValue;
  }

  lemma CompareReads(path: string, op: Op, v: Literal, t: string)
    requires WfPath(path) && WfLiteral(v) && Boundary(t)
    ensures var s := path + " " + OpWord(op) + " " + LiteralText(v) + t;
            PresenceExpr(s) == None && CompareExpr(s) == Some(Parsed(Compare(path, op, v), t))
  {
    hide AttributePath, Keyword, Space, FirstOp, LiteralValue, WfPath, WfLiteral, LiteralText, OpWord, CompareExpr,
         PresenceExpr;
    var value := LiteralText(v) + t;
    var tail := OpWord(op) + (" " + value);
    Regroup(path, " ", OpWord(op), " ", value);
    assert path + " " + OpWord(op) + " " + LiteralText(v) + t == path + " " + OpWord(op) + " " + value;
    PathAppend(path, " " + tail);
    OpStart(op, " " + value);
    SpaceReads(tail);
    OpReads(op, " " + value);
    LiteralStart(v);
    SpaceReads(value);
    LiteralReads(v, t);
    CompareSteps(path + (" " + tail), path, " " + tail, tail, op, " " + value, value, v, t);
  }

  lemma PathStart(path: string)
    requires AttributePath(path).Some?
    ensures path != [] && IsAlpha(path[0])
  {
    if MatchUri(path) == 0 {
      assert path[0..] == path;
    }
  }

  // ---- A path is not read as a group ----

  predicate PathChar(c: char) { IsNameChar(c) || c == ':' || c == '.' }

  lemma {:induction false} SegmentChars(s: string)
    ensures forall i :: 0 <= i < MatchSegments(s) ==> PathChar(s[i])
    decreases |s|
  {
    if MatchSegments(s) > 1 {
      var n := Span(UriClass, s[1..]);
      SpanFacts(UriClass, s[1..]);
      SegmentChars(s[1..][n..]);
      forall i | 0 <= i < MatchSegments(s) ensures PathChar(s[i]) {
        if 0 < i <= n {
          assert s[i] == s[1..][i - 1];
        } else if i > n {
          assert s[i] == s[1..][n..][i - 1 - n];
        }
      }
    }
  }

  lemma UriChars(u: string)
    requires UriPart(u)
    ensures forall i :: 0 <= i < |u| ==> PathChar(u[i])
  {
    if u != [] {
      var n := Span(UriClass, u);
      SpanFacts(UriClass, u);
      SegmentChars(u[n..]);
      forall i | 0 <= i < |u| ensures PathChar(u[i]) {
        if i >= n { assert u[i] == u[n..][i - n]; }
      }
    }
  }

  lemma NamePartChars(q: string)
    requires NamePart(q)
    ensures forall i :: 0 <= i < |q| ==> PathChar(q[i])
  {
    var n := MatchName(q);
    SpanFacts(NameClass, q);
    forall i | 0 <= i < |q| ensures PathChar(q[i]) {
      if i > n {
        SpanFacts(NameClass, q[n + 1..]);
        assert q[i] == q[n + 1..][i - n - 1];
      }
    }
  }

  lemma PathChars(path: string)
    requires WfPath(path)
    ensures forall i :: 0 <= i < |path| ==> PathChar(path[i])
  {
    var u, q := PathParts(path);
    UriChars(u);
    NamePartChars(q);
    assert path == u + q;
  }

  // What may follow a path inside an operand: a bracket, or spaces and then no parenthesis.
  predicate FollowsPath(t: string) {
    t != [] && (t[0] == '[' || (t[0] == ' ' && (SkipSpaces(t) == [] || SkipSpaces(t)[0] != '(')))
  }

  // "not" at the front of a path is part of its name, or the name itself: no parenthesis follows.
  lemma NotBeforePath(path: string, t: string)
    requires FollowsPath(t) && path != [] && path[0] != '(' && (forall i :: 0 <= i < |path| ==> PathChar(path[i]))
    ensures Str("(", SkipNot(path + t)) == None
  {
    var s := path + t;
    assert s[0] == path[0] && s[|path|] == t[0];
    if Keyword("not", s).Some? {
      NotLetters(s);
      assert |path| >= 3;
      if |path| == 3 {
        assert s[3..] == t;
        if t[0] == '[' {
          SpanIs(BlankClass, t, 0);
        }
      } else {
        assert s[3..][0] == path[3];
        SpanIs(BlankClass, s[3..], 0);
      }
    }
  }

  lemma GroupFails(path: string, t: string, inBrackets: bool)
    requires WfPath(path) && FollowsPath(t)
    ensures Group(path + t, inBrackets) == None
  {
    hide SkipNot, AttributePath, Filter;
    PathStart(path);
    PathChars(path);
    NotBeforePath(path, t);
  }

  lemma NotLetters(s: string)
    requires Keyword("not", s).Some?
    ensures |s| >= 3 && IsAlpha(s[0]) && IsAlpha(s[1]) && IsAlpha(s[2])
  {
    forall i | 0 <= i < 3 ensures IsAlpha(s[i]) {
      assert Lower(s[..3])[i] == LowerChar(s[i]) == "not"[i];
    }
  }

  // ---- Printed filters ----

  lemma {:induction false} PrintStart(n: Node, inBrackets: bool)
    requires Wf(n, inBrackets)
    ensures Print(n) != [] && Print(n)[0] != ' '
  {
    match n
    case ValuePath(path, _) => PathTextBack(path); PathStart(path);
    case Present(path) => PathTextBack(path); PathStart(path);
    case Compare(path, _, _) => PathTextBack(path); PathStart(path);
    case _ =>
  }

  // A text whose group is what the filter parser reads up to the parenthesis.
  lemma GroupReads(inner: string, n: Node, t: string, inBrackets: bool)
    requires Filter(inner + (")" + t), inBrackets) == Some(Parsed(n, ")" + t))
    ensures Group("(" + inner + ")" + t, inBrackets) == Some(Parsed(n, t))
    ensures Group("not (" + inner + ")" + t, inBrackets) == Some(Parsed(Not(n), t))
  {
    hide Filter, Lower;
    var body := inner + (")" + t);
    var plain := "(" + inner + ")" + t;
    assert plain == "(" + body;
    KeywordFails("not", plain);
    DropWord("(", body);
    DropWord(")", t);
    var negated := "not (" + inner + ")" + t;
    assert negated == "not" + (" " + ("(" + body));
    LowerWord("not");
    KeywordReads("not", " " + ("(" + body));
    SpanIs(BlankClass, " " + ("(" + body), 1);
    DropWord(" ", "(" + body);
  }

  // After an operand, text that starts with no space joins nothing to it.
  lemma NoConnective(t: string)
    requires t == [] || t[0] != ' '
    ensures Connective("and", t) == None && Connective("or", t) == None
  {
  }

  lemma FilterOfAtom(s: string, n: Node, t: string, inBrackets: bool)
    requires Atom(s, inBrackets) == Some(Parsed(n, t)) && (t == [] || t[0] != ' ')
    ensures Conjunction(s, inBrackets) == Some(Parsed(n, t)) && Filter(s, inBrackets) == Some(Parsed(n, t))
  {
    NoConnective(t);
  }

  lemma FilterOfAnd(l: Node, r: Node, sl: string, sr: string, t: string, inBrackets: bool)
    requires t == [] || t[0] != ' '
    requires sr != [] && sr[0] != ' '
    requires Atom(sl + (" and " + sr + t), inBrackets) == Some(Parsed(l, " and " + sr + t))
    requires Atom(sr + t, inBrackets) == Some(Parsed(r, t))
    ensures Filter(sl + " and " + sr + t, inBrackets) == Some(Parsed(And(l, r), t))
  {
    hide Atom, Connective;
    assert sl + " and " + sr + t == sl + (" and " + sr + t);
    assert " and " + sr + t == " " + "and" + " " + (sr + t);
    ConnectiveReads("and", sr + t);
    FilterOfAtom(sr + t, r, t, inBrackets);
    NoConnective(t);
  }

  lemma FilterOfOr(l: Node, r: Node, sl: string, sr: string, t: string, inBrackets: bool)
    requires t == [] || t[0] != ' '
    requires sr != [] && sr[0] != ' '
    requires Atom(sl + (" or " + sr + t), inBrackets) == Some(Parsed(l, " or " + sr + t))
    requires Atom(sr + t, inBrackets) == Some(Parsed(r, t))
    ensures Filter(sl + " or " + sr + t, inBrackets) == Some(Parsed(Or(l, r), t))
  {
    hide Atom, Connective;
    assert sl + " or " + sr + t == sl + (" or " + sr + t);
    assert " or " + sr + t == " or " + (sr + t);
    assert " or " + sr + t == " " + "or" + " " + (sr + t);
    ConnectiveOther(sr + t);
    ConnectiveReads("or", sr + t);
    FilterOfAtom(sr + t, r, t, inBrackets);
  }

  lemma LeafReads(n: Node, t: string, inBrackets: bool)
    requires (n.Present? || n.Compare?) && Wf(n, inBrackets) && Boundary(t)
    ensures Atom(Print(n) + t, inBrackets) == Some(Parsed(n, t))
  {
    hide Group, PresenceExpr, CompareExpr, AttributePath, PathText, SplitPath, ValuePathExpr, LiteralText;
    match n
    case Present(path) =>
      PathTextBack(path);
      assert Print(n) + t == path + (" pr" + t);
      SpaceReads("pr" + t);
      assert " " + ("pr" + t) == " pr" + t;
      GroupFails(path, " pr" + t, inBrackets);
      PresentReads(path, t);
    case Compare(path, op, v) =>
      PathTextBack(path);
      var tail := " " + OpWord(op) + " " + LiteralText(v) + t;
      assert Print(n) + t == path + tail;
      assert Print(n) + t == path + " " + OpWord(op) + " " + LiteralText(v) + t;
      OpStart(op, " " + LiteralText(v) + t);
      SpaceReads(OpWord(op) + " " + LiteralText(v) + t);
      assert " " + (OpWord(op) + " " + LiteralText(v) + t) == tail;
      GroupFails(path, tail, inBrackets);
      CompareReads(path, op, v, t);
  }

  // Without a space after its path, an attribute expression is none.
  lemma NoAttributeExpr(s: string)
    requires AttributePath(s).Some? && Space(AttributePath(s).value.rest).None?
    ensures AttributeExpr(s) == None
  {
    hide AttributePath;
  }

  lemma BracketsRead(path: string, text: string, filter: Node, t: string)
    requires WfPath(path)
    requires Filter(text + ("]" + t), true) == Some(Parsed(filter, "]" + t))
    ensures var s := path + ("[" + (text + ("]" + t)));
            ValuePathExpr(s) == Some(Parsed(ValuePath(path, filter), t)) && AttributeExpr(s) == None
  {
    hide Filter, AttributePath, AttributeExpr;
    var body := text + ("]" + t);
    PathAppend(path, "[" + body);
    NoAttributeExpr(path + ("[" + body));
    DropWord("[", body);
    DropWord("]", t);
  }

  lemma ValuePathReads(path: string, filter: Node, t: string)
    requires WfPath(path)
    requires Filter(Print(filter) + ("]" + t), true) == Some(Parsed(filter, "]" + t))
    ensures Atom(Print(ValuePath(path, filter)) + t, false) == Some(Parsed(ValuePath(path, filter), t))
  {
    hide Group, Filter, AttributePath, PathText, SplitPath, AttributeExpr, ValuePathExpr;
    PathTextBack(path);
    var body := Print(filter) + ("]" + t);
    assert Print(ValuePath(path, filter)) + t == path + ("[" + body);
    GroupFails(path, "[" + body, false);
    BracketsRead(path, Print(filter), filter, t);
  }

  lemma AtomOfGroup(s: string, p: Parsed<Node>, inBrackets: bool)
    requires Group(s, inBrackets) == Some(p)
    ensures Atom(s, inBrackets) == Some(p)
  {
    hide Group;
  }

  lemma AndReads(l: Node, r: Node, t: string, inBrackets: bool)
    requires Print(r) != [] && Print(r)[0] != ' '
    requires Atom(Print(l) + (" and " + Print(r) + (")" + t)), inBrackets) ==
             Some(Parsed(l, " and " + Print(r) + (")" + t)))
    requires Atom(Print(r) + (")" + t), inBrackets) == Some(Parsed(r, ")" + t))
    ensures Atom(Print(And(l, r)) + t, inBrackets) == Some(Parsed(And(l, r), t))
  {
    hide Atom, Filter, Group;
    var inner := Print(l) + " and " + Print(r);
    FilterOfAnd(l, r, Print(l), Print(r), ")" + t, inBrackets);
    GroupReads(inner, And(l, r), t, inBrackets);
    AtomOfGroup("(" + inner + ")" + t, Parsed(And(l, r), t), inBrackets);
    Regroup("(", Print(l), " and ", Print(r), ")");
  }

  lemma OrReads(l: Node, r: Node, t: string, inBrackets: bool)
    requires Print(r) != [] && Print(r)[0] != ' '
    requires Atom(Print(l) + (" or " + Print(r) + (")" + t)), inBrackets) ==
             Some(Parsed(l, " or " + Print(r) + (")" + t)))
    requires Atom(Print(r) + (")" + t), inBrackets) == Some(Parsed(r, ")" + t))
    ensures Atom(Print(Or(l, r)) + t, inBrackets) == Some(Parsed(Or(l, r), t))
  {
    hide Atom, Filter, Group;
    var inner := Print(l) + " or " + Print(r);
    FilterOfOr(l, r, Print(l), Print(r), ")" + t, inBrackets);
    GroupReads(inner, Or(l, r), t, inBrackets);
    AtomOfGroup("(" + inner + ")" + t, Parsed(Or(l, r), t), inBrackets);
    Regroup("(", Print(l), " or ", Print(r), ")");
  }

  lemma NotAtom(inner: string, n: Node, t: string, inBrackets: bool)
    requires Atom(inner + (")" + t), inBrackets) == Some(Parsed(n, ")" + t))
    ensures Atom("not (" + inner + ")" + t, inBrackets) == Some(Parsed(Not(n), t))
  {
    hide Atom, Filter, Group;
    FilterOfAtom(inner + (")" + t), n, ")" + t, inBrackets);
    GroupReads(inner, n, t, inBrackets);
    AtomOfGroup("not (" + inner + ")" + t, Parsed(Not(n), t), inBrackets);
  }

  lemma NotReads(operand: Node, t: string, inBrackets: bool)
    requires Atom(Print(operand) + (")" + t), inBrackets) == Some(Parsed(operand, ")" + t))
    ensures Atom(Print(Not(operand)) + t, inBrackets) == Some(Parsed(Not(operand), t))
  {
    hide Atom;
    NotAtom(Print(operand), operand, t, inBrackets);
  }

  // Reading a printed operand gives the tree back and stops right behind it.
  lemma {:induction false} PrintReads(n: Node, t: string, inBrackets: bool)
    requires Wf(n, inBrackets) && Boundary(t)
    ensures Atom(Print(n) + t, inBrackets) == Some(Parsed(n, t))
    decreases n
  {
    hide Atom, Print, WfPath, WfLiteral;
    match n
    case Present(_) => LeafReads(n, t, inBrackets);
    case Compare(_, _, _) => LeafReads(n, t, inBrackets);
    case ValuePath(path, filter) =>
      PrintReads(filter, "]" + t, true);
      FilterOfAtom(Print(filter) + ("]" + t), filter, "]" + t, true);
      ValuePathReads(path, filter, t);
    case Not(operand) =>
      PrintReads(operand, ")" + t, inBrackets);
      NotReads(operand, t, inBrackets);
    case And(l, r) =>
      PrintStart(r, inBrackets);
      PrintReads(r, ")" + t, inBrackets);
      PrintReads(l, " and " + Print(r) + (")" + t), inBrackets);
      AndReads(l, r, t, inBrackets);
    case Or(l, r) =>
      PrintStart(r, inBrackets);
      PrintReads(r, ")" + t, inBrackets);
      PrintReads(l, " or " + Print(r) + (")" + t), inBrackets);
      OrReads(l, r, t, inBrackets);
  }

  // Parsing undoes printing on every well-formed tree.
  lemma ParseOfPrint(n: Node)
    requires Wf(n, false)
    ensures Parse(Print(n)) == Some(n)
  {
    PrintReads(n, [], false);
    assert Print(n) + [] == Print(n);
    FilterOfAtom(Print(n), n, [], false);
  }

  // ---- What the parser builds is well formed ----

  lemma LiteralWf(s: string)
    requires LiteralValue(s).Some?
    ensures WfLiteral(LiteralValue(s).value.value)
  {
    NumberCut(s);
  }

  lemma AttributeExprWf(s: string, inBrackets: bool)
    requires AttributeExpr(s).Some?
    ensures Wf(AttributeExpr(s).value.value, inBrackets)
  {
    PathCut(s);
    if PresenceExpr(s).None? {
      var s1 := Space(AttributePath(s).value.rest).value;
      LiteralWf(Space(FirstOp(OPERATORS, s1).value.rest).value);
    }
  }

  lemma {:induction false} GroupWf(s: string, inBrackets: bool)
    requires Group(s, inBrackets).Some?
    ensures Wf(Group(s, inBrackets).value.value, inBrackets)
    decreases |s|, 0
  {
    FilterWf(Str("(", SkipNot(s)).value, inBrackets);
  }

  lemma {:induction false} ValuePathWf(s: string)
    requires ValuePathExpr(s).Some?
    ensures Wf(ValuePathExpr(s).value.value, false)
    decreases |s|, 0
  {
    PathCut(s);
    FilterWf(Str("[", AttributePath(s).value.rest).value, true);
  }

  lemma {:induction false} AtomWf(s: string, inBrackets: bool)
    requires Atom(s, inBrackets).Some?
    ensures Wf(Atom(s, inBrackets).value.value, inBrackets)
    decreases |s|, 1
  {
    if Group(s, inBrackets).Some? {
      GroupWf(s, inBrackets);
    } else if AttributeExpr(s).Some? {
      AttributeExprWf(s, inBrackets);
    } else {
      ValuePathWf(s);
    }
  }

  lemma {:induction false} ConjunctionWf(s: string, inBrackets: bool)
    requires Conjunction(s, inBrackets).Some?
    ensures Wf(Conjunction(s, inBrackets).value.value, inBrackets)
    decreases |s|, 2
  {
    AtomWf(s, inBrackets);
    var t := Connective("and", Atom(s, inBrackets).value.rest);
    if t.Some? && Conjunction(t.value, inBrackets).Some? {
      ConjunctionWf(t.value, inBrackets);
    }
  }

  lemma {:induction false} FilterWf(s: string, inBrackets: bool)
    requires Filter(s, inBrackets).Some?
    ensures Wf(Filter(s, inBrackets).value.value, inBrackets)
    decreases |s|, 3
  {
    ConjunctionWf(s, inBrackets);
    var t := Connective("or", Conjunction(s, inBrackets).value.rest);
    if t.Some? && Filter(t.value, inBrackets).Some? {
      FilterWf(t.value, inBrackets);
    }
  }

  // Whatever text the grammar accepts, printing its tree and reading that again changes nothing.
  lemma AcceptedRoundTrips(text: string)
    requires Parse(text).Some?
    ensures Wf(Parse(text).value, false)
    ensures Parse(Print(Parse(text).value)) == Parse(text)
  {
    FilterWf(text, false);
    ParseOfPrint(Parse(text).value);
  }
}
