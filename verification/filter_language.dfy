// The language of filters (section 3.4.2.2 of RFC 7644), described by how a filter is spelled and what the spelling
// means, with no parser in sight; and the proof that the parser accepts exactly that language, with that meaning.
module FilterLanguage {
  import opened Wrappers
  import opened Text
  import opened FilterLexer
  import opened FilterTokens
  import opened FilterJson
  import opened FilterStrings
  import opened FilterGrammar
  import opened FilterPrint
  import opened FilterRoundTrip
  import opened FilterPrecedence

  // A schema URI with its final colon or nothing, a name, and perhaps a sub-attribute.
  datatype Attribute = Attribute(uri: string, name: string, sub: Option<string>)

  // A literal as it is spelled, and its value.
  datatype Constant = Constant(spelling: string, value: Literal)

  datatype Phrase =
    | Presence(attribute: Attribute, gap: nat, word: string)
    | Comparison(attribute: Attribute, gap: nat, word: string, op: Op, space: nat, constant: Constant)
    | Parenthesized(negation: Option<string>, gap: nat, body: Phrases)
    | Bracketed(attribute: Attribute, body: Phrases)

  // Phrases joined by connectives, with one space more than the numbers say.
  datatype Phrases =
    | Only(phrase: Phrase)
    | Linked(phrase: Phrase, lead: nat, word: string, trail: nat, rest: Phrases)

  // ---- Which spellings there are ----

  ghost predicate WfAttribute(a: Attribute) {
    (a.uri == [] || IsUri(a.uri)) && IsName(a.name) && (a.sub.Some? ==> IsName(a.sub.value))
  }

  // The literal names in lower case, numbers, and JSON strings.
  ghost predicate WfConstant(c: Constant) {
    match c.value
    case Null => c.spelling == "null"
    case Bool(true) => c.spelling == "true"
    case Bool(false) => c.spelling == "false"
    case Number(digits) => c.spelling == digits && IsNumber(digits)
    case Quoted(text) => Writes(c.spelling, text)
  }

  predicate Says(word: string, op: Op) {
    var lower := Lower(word);
    match op
    case Eq => lower == "eq" case Ne => lower == "ne" case Co => lower == "co" case Sw => lower == "sw"
    case Ew => lower == "ew" case Gt => lower == "gt" case Lt => lower == "lt" case Ge => lower == "ge"
    case Le => lower == "le"
  }

  // Words in any case; no brackets within brackets.
  ghost predicate WfPhrase(p: Phrase, inBrackets: bool) {
    match p
    case Presence(a, _, word) => WfAttribute(a) && Lower(word) == "pr"
    case Comparison(a, _, word, op, _, constant) => WfAttribute(a) && Says(word, op) && WfConstant(constant)
    case Parenthesized(negation, gap, body) =>
      && (if negation.Some? then Lower(negation.value) == "not" else gap == 0)
      && WfPhrases(body, inBrackets)
    case Bracketed(a, body) => !inBrackets && WfAttribute(a) && WfPhrases(body, true)
  }

  ghost predicate WfPhrases(c: Phrases, inBrackets: bool) {
    match c
    case Only(p) => WfPhrase(p, inBrackets)
    case Linked(p, _, word, _, rest) =>
      WfPhrase(p, inBrackets) && (Lower(word) == "and" || Lower(word) == "or") && WfPhrases(rest, inBrackets)
  }

  // ---- How they are written ----

  function AttributeText(a: Attribute): string {
    a.uri + (a.name + if a.sub.Some? then "." + a.sub.value else "")
  }

  function PhraseText(p: Phrase): string {
    match p
    case Presence(a, gap, word) => AttributeText(a) + Blanks(gap + 1) + word
    case Comparison(a, gap, word, _, space, constant) =>
      AttributeText(a) + Blanks(gap + 1) + word + Blanks(space + 1) + constant.spelling
    case Parenthesized(negation, gap, body) =>
      (if negation.Some? then negation.value + Blanks(gap) else "") + "(" + PhrasesText(body) + ")"
    case Bracketed(a, body) => AttributeText(a) + "[" + PhrasesText(body) + "]"
  }

  function PhrasesText(c: Phrases): string {
    match c
    case Only(p) => PhraseText(p)
    case Linked(p, lead, word, trail, rest) =>
      PhraseText(p) + (Blanks(lead + 1) + word + Blanks(trail + 1)) + PhrasesText(rest)
  }

  // ---- What they mean ----

  function Conjoin(run: seq<Node>): Node
    requires run != []
  {
    if |run| == 1 then run[0] else And(run[0], Conjoin(run[1..]))
  }

  function Disjoin(runs: seq<seq<Node>>): Node
    requires runs != [] && forall i :: 0 <= i < |runs| ==> runs[i] != []
  {
    if |runs| == 1 then Conjoin(runs[0]) else Or(Conjoin(runs[0]), Disjoin(runs[1..]))
  }

  function PhraseTree(p: Phrase): Node
    decreases p, 0
  {
    match p
    case Presence(a, _, _) => Present(AttributeText(a))
    case Comparison(a, _, _, op, _, constant) => Compare(AttributeText(a), op, constant.value)
    case Parenthesized(negation, _, body) => if negation.Some? then Not(PhrasesTree(body)) else PhrasesTree(body)
    case Bracketed(a, body) => ValuePath(AttributeText(a), PhrasesTree(body))
  }

  // The phrases, cut at every "or".
  function Alternatives(c: Phrases): (r: seq<seq<Node>>)
    ensures r != [] && forall i :: 0 <= i < |r| ==> r[i] != []
    decreases c, 0
  {
    match c
    case Only(p) => [[PhraseTree(p)]]
    case Linked(p, _, word, _, rest) =>
      var runs := Alternatives(rest);
      if Lower(word) == "and" then [[PhraseTree(p)] + runs[0]] + runs[1..] else [[PhraseTree(p)]] + runs
  }

  function PhrasesTree(c: Phrases): Node
    decreases c, 1
  {
    Disjoin(Alternatives(c))
  }

  // ---- Words of the token languages ----

  lemma NameIsWord(w: string)
    ensures IsName(w) <==> w != [] && MatchName(w) == |w|
  {
    NameLongest(w);
    assert w[..|w|] == w;
  }

  lemma UriIsWord(w: string)
    ensures IsUri(w) <==> w != [] && MatchUri(w) == |w|
  {
    UriLongest(w);
    assert w[..|w|] == w;
    if IsUri(w) {
      var segments :| Spells(segments, w);
      assert w == segments[0] + ":" + Joined(segments[1..]);
    }
  }

  lemma NumberIsWord(w: string)
    ensures IsNumber(w) <==> w != [] && MatchNumber(w) == |w|
  {
    NumberLongest(w);
    assert w[..|w|] == w;
    if IsNumber(w) {
      var n :| WfNumeral(n) && w == NumeralText(n);
      assert n.whole != [];
    }
  }

  // ---- Attribute paths ----

  function NameText(a: Attribute): string {
    a.name + if a.sub.Some? then "." + a.sub.value else ""
  }

  lemma AttributeParts(a: Attribute)
    requires WfAttribute(a)
    ensures UriPart(a.uri) && NamePart(NameText(a)) && AttributeText(a) == a.uri + NameText(a)
  {
    hide IsName, IsUri;
    NameIsWord(a.name);
    UriIsWord(a.uri);
    if a.sub.Some? {
      NameIsWord(a.sub.value);
      NameWithSub(a.name, a.sub.value);
      assert NameText(a) == a.name + "." + a.sub.value;
    } else {
      assert NameText(a) == a.name;
    }
  }

  lemma AttributeReads(a: Attribute, t: string)
    requires WfAttribute(a) && EndsPath(t)
    ensures AttributePath(AttributeText(a) + t) == Some(Parsed(AttributeText(a), t))
  {
    hide WfAttribute, UriPart, NamePart, EndsPath;
    AttributeParts(a);
    PathReads(a.uri, NameText(a), t);
  }

  lemma AttributeIsPath(a: Attribute)
    requires WfAttribute(a)
    ensures WfPath(AttributeText(a))
  {
    AttributeReads(a, []);
    assert AttributeText(a) + [] == AttributeText(a);
  }

  lemma NameTaken(s: string) returns (name: string, sub: Option<string>)
    requires NamePath(s).Some?
    ensures IsName(name) && (sub.Some? ==> IsName(sub.value))
    ensures NamePath(s).value.value == name + if sub.Some? then "." + sub.value else ""
    ensures s == NamePath(s).value.value + NamePath(s).value.rest
  {
    hide IsName;
    var n := MatchName(s);
    NameLongest(s);
    name, sub := s[..n], None;
    if SubAttribute(s[n..]).Some? {
      NameLongest(s[n..][1..]);
      sub := Some(SubAttribute(s[n..]).value.value);
      assert sub.value == s[n..][1..][..MatchName(s[n..][1..])];
      assert name + ("." + sub.value) == name + "." + sub.value;
    }
  }

  lemma AttributeTaken(s: string) returns (a: Attribute)
    requires AttributePath(s).Some?
    ensures WfAttribute(a) && AttributePath(s).value.value == AttributeText(a)
    ensures s == AttributeText(a) + AttributePath(s).value.rest
  {
    hide IsName, IsUri, NamePath, MatchUri;
    var u := MatchUri(s);
    UriLongest(s);
    var name, sub := NameTaken(s[u..]);
    a := Attribute(s[..u], name, sub);
    FrontAndRest(s, u);
  }

  // ---- Constants ----

  lemma ConstantReads(c: Constant, t: string)
    requires WfConstant(c) && Boundary(t)
    ensures LiteralValue(c.spelling + t) == Some(Parsed(c.value, t))
  {
    hide IsNumber, DecodeString, Writes, MatchNumber, MatchString;
    match c.value
    case Null => LiteralReads(Null, t);
    case Bool(flag) => LiteralReads(Bool(flag), t);
    case Number(digits) =>
      NumberIsWord(digits);
      NumberReads(digits, t);
    case Quoted(text) => StringReads(c.spelling, text, t);
  }

  lemma StringReads(w: string, text: string, t: string)
    requires Writes(w, text)
    ensures LiteralValue(w + t) == Some(Parsed(Quoted(text), t))
  {
    hide DecodeString, Writes, MatchNumber, MatchString;
    WrittenIsToken(w, text, t);
    DecodesString(w, text);
    NotWord(w + t);
    NotNumber(w + t);
    DropWord(w, t);
  }

  lemma ConstantStart(c: Constant)
    requires WfConstant(c)
    ensures c.spelling != [] && c.spelling[0] != ' '
  {
    hide Writes, IsNumber;
    match c.value
    case Number(digits) =>
      NumberIsWord(digits);
      NumberStarts(digits);
    case Quoted(_) =>
      WrittenIsToken(c.spelling, c.value.text, []);
    case _ =>
  }

  // The literal is what stands before the text it leaves.
  lemma LiteralFront(s: string)
    requires LiteralValue(s).Some?
    ensures var r := LiteralValue(s).value;
            match r.value
            case Null => "null" <= s && r.rest == s[4..]
            case Bool(true) => "true" <= s && r.rest == s[4..]
            case Bool(false) => "false" <= s && r.rest == s[5..]
            case Number(digits) => MatchNumber(s) > 0 && digits == s[..MatchNumber(s)] && r.rest == s[MatchNumber(s)..]
            case Quoted(text) =>
              MatchString(s) > 0 && DecodeString(s[..MatchString(s)]) == Some(text) && r.rest == s[MatchString(s)..]
  {
    hide DecodeString, MatchNumber, MatchString;
  }

  lemma FrontAndRest(s: string, n: nat)
    requires n <= |s|
    ensures s == s[..n] + s[n..]
  {
  }

  lemma ConstantTaken(s: string) returns (c: Constant)
    requires LiteralValue(s).Some?
    ensures WfConstant(c) && c.value == LiteralValue(s).value.value && s == c.spelling + LiteralValue(s).value.rest
  {
    hide LiteralValue, DecodeString, IsNumber, Writes, MatchNumber, MatchString;
    LiteralFront(s);
    var v := LiteralValue(s).value.value;
    match v
    case Number(digits) =>
      NumberLongest(s);
      FrontAndRest(s, MatchNumber(s));
      c := Constant(digits, v);
    case Quoted(_) =>
      DecodesString(s[..MatchString(s)], v.text);
      FrontAndRest(s, MatchString(s));
      c := Constant(s[..MatchString(s)], v);
    case Null =>
      FrontAndRest(s, 4);
      c := Constant("null", v);
    case Bool(flag) =>
      FrontAndRest(s, if flag then 4 else 5);
      c := Constant(if flag then "true" else "false", v);
  }

  // ---- Every spelling is read ----

  lemma SaysReads(word: string, op: Op, t: string)
    requires Says(word, op)
    ensures FirstOp(OPERATORS, word + t) == Some(Parsed(op, t)) && Keyword("pr", word + t) == None
    ensures word != [] && word[0] != ' '
  {
    hide FirstOp;
    var s := word + t;
    assert Lower(word) == OpWord(op) && |word| == 2;
    assert LowerChar(word[0]) == OpWord(op)[0] && LowerChar(word[1]) == OpWord(op)[1];
    DropWord(word, t);
    assert Keyword(OpWord(op), s) == Some(t);
    KeywordFails("pr", s);
    forall other: Op | other != op ensures Keyword(OpWord(other), s) == None {
      KeywordFails(OpWord(other), s);
    }
    OpFound(OPERATORS, op, s, t);
  }

  lemma ComparisonReads(a: Attribute, gap: nat, word: string, op: Op, space: nat, c: Constant, t: string,
                        inBrackets: bool)
    requires WfAttribute(a) && Says(word, op) && WfConstant(c) && Boundary(t)
    ensures var s := AttributeText(a) + (Blanks(gap + 1) + (word + (Blanks(space + 1) + (c.spelling + t))));
            Atom(s, inBrackets) == Some(Parsed(Compare(AttributeText(a), op, c.value), t))
  {
    hide WfAttribute, WfConstant, Says, AttributeText, Blanks, Keyword, FirstOp, LiteralValue, AttributePath, Group,
         PresenceExpr, CompareExpr, ValuePathExpr, WfPath;
    var value := c.spelling + t;
    var after := Blanks(space + 1) + value;
    var tail := word + after;
    var spaced := Blanks(gap + 1) + tail;
    AttributeIsPath(a);
    ConstantStart(c);
    SaysReads(word, op, after);
    BlanksRead(space, value);
    BlanksRead(gap, tail);
    BlanksFollow(gap, tail);
    PathAppend(AttributeText(a), spaced);
    ConstantReads(c, t);
    CompareSteps(AttributeText(a) + spaced, AttributeText(a), spaced, tail, op, after, value, c.value, t);
    SaysNoParenthesis(word, op, after);
    GroupFails(AttributeText(a), spaced, inBrackets);
  }

  lemma SaysNoParenthesis(word: string, op: Op, t: string)
    requires Says(word, op)
    ensures (word + t)[..1] != "("
  {
    assert LowerChar(word[0]) == Lower(word)[0] && (word + t)[..1] == [word[0]];
  }

  lemma BlanksFollow(gap: nat, t: string)
    requires t == [] || t[0] != ' '
    ensures EndsPath(Blanks(gap + 1) + t)
    ensures t == [] || t[..1] != "(" ==> FollowsPath(Blanks(gap + 1) + t)
  {
    var s := Blanks(gap + 1) + t;
    assert s[0] == ' ';
    BlanksRead(gap, t);
  }

  lemma ParenthesesRead(inner: string, n: Node, negation: Option<string>, gap: nat, t: string, inBrackets: bool)
    requires Filter(inner + (")" + t), inBrackets) == Some(Parsed(n, ")" + t))
    requires if negation.Some? then Lower(negation.value) == "not" else gap == 0
    ensures var lead := if negation.Some? then negation.value + Blanks(gap) else "";
            Atom(lead + "(" + inner + ")" + t, inBrackets) ==
              Some(Parsed(if negation.Some? then Not(n) else n, t))
  {
    hide Filter, Group, SkipNot, Keyword, Blanks;
    match negation
    case None =>
      GroupReads(inner, n, t, inBrackets);
      assert "" + "(" + inner + ")" + t == "(" + inner + ")" + t;
      AtomOfGroup("(" + inner + ")" + t, Parsed(n, t), inBrackets);
    case Some(word) =>
      var body := inner + (")" + t);
      var s := word + (Blanks(gap) + ("(" + body));
      assert word + Blanks(gap) + "(" + inner + ")" + t == s;
      NotSkipped(word, gap, "(" + body);
      NegatedGroup(s, body, n, t, inBrackets);
      AtomOfGroup(s, Parsed(Not(n), t), inBrackets);
  }

  lemma BracketedReads(a: Attribute, inner: string, n: Node, t: string)
    requires WfAttribute(a) && Filter(inner + ("]" + t), true) == Some(Parsed(n, "]" + t))
    ensures Atom(AttributeText(a) + ("[" + (inner + ("]" + t))), false) ==
            Some(Parsed(ValuePath(AttributeText(a), n), t))
  {
    hide Filter, Group, AttributeExpr, ValuePathExpr, WfAttribute, AttributeText, WfPath;
    AttributeIsPath(a);
    BracketsRead(AttributeText(a), inner, n, t);
    GroupFails(AttributeText(a), "[" + (inner + ("]" + t)), false);
  }

  function ChainOf(c: Phrases): Chain {
    match c
    case Only(p) => Last(Operand(PhraseText(p), PhraseTree(p)))
    case Linked(p, lead, word, trail, rest) =>
      Link(Operand(PhraseText(p), PhraseTree(p)), lead, word, trail, ChainOf(rest))
  }

  lemma {:induction false} ChainOfText(c: Phrases)
    ensures ChainText(ChainOf(c)) == PhrasesText(c) && Runs(ChainOf(c)) == Alternatives(c)
  {
    if c.Linked? {
      ChainOfText(c.rest);
    }
  }

  // The tree of a chain joins each run by "and", and the runs by "or".
  lemma {:induction false} TreeOfRuns(c: Chain)
    requires forall i :: 0 <= i < |Runs(c)| ==> Runs(c)[i] != []
    ensures FirstRun(c) == Conjoin(Runs(c)[0]) && Tree(c) == Disjoin(Runs(c))
    decreases c
  {
    FilterPrecedence.RunsOf(c, _ => true);
    match c
    case Last(_) =>
    case Link(_, _, word, _, rest) =>
      var runs := Runs(rest);
      assert forall i :: 0 < i < |runs| ==> runs[i] == if IsAnd(word) then Runs(c)[i] else Runs(c)[i + 1];
      RunsNotEmpty(rest);
      TreeOfRuns(rest);
      if AfterRun(c).Some? {
        RunsNotEmpty(AfterRun(c).value);
        TreeOfRuns(AfterRun(c).value);
      }
  }

  lemma {:induction false} RunsNotEmpty(c: Chain)
    ensures forall i :: 0 <= i < |Runs(c)| ==> Runs(c)[i] != []
  {
    if c.Link? {
      RunsNotEmpty(c.rest);
    }
  }

  lemma {:induction false} PhraseIsOperand(p: Phrase, inBrackets: bool)
    requires WfPhrase(p, inBrackets)
    ensures IsOperand(Operand(PhraseText(p), PhraseTree(p)), inBrackets)
    decreases p, 1
  {
    hide Atom;
    PhraseStarts(p, inBrackets);
    forall t | Boundary(t) ensures Atom(PhraseText(p) + t, inBrackets) == Some(Parsed(PhraseTree(p), t)) {
      PhraseReads(p, t, inBrackets);
    }
  }

  lemma PhraseStarts(p: Phrase, inBrackets: bool)
    requires WfPhrase(p, inBrackets)
    ensures PhraseText(p) != [] && PhraseText(p)[0] != ' '
  {
    hide WfPhrases, PhrasesText;
    match p
    case Parenthesized(negation, _, _) =>
      if negation.Some? {
        assert LowerChar(negation.value[0]) == Lower(negation.value)[0];
      }
    case _ =>
      AttributeIsPath(p.attribute);
      PathStart(AttributeText(p.attribute));
  }

  lemma {:induction false} PhraseReads(p: Phrase, t: string, inBrackets: bool)
    requires WfPhrase(p, inBrackets) && Boundary(t)
    ensures Atom(PhraseText(p) + t, inBrackets) == Some(Parsed(PhraseTree(p), t))
    decreases p, 0
  {
    hide Atom, Filter, WfAttribute, WfConstant, Says, AttributeText, Blanks, PhrasesText, PhrasesTree, WfPhrases;
    match p
    case Presence(a, gap, word) =>
      AttributeIsPath(a);
      PresenceReads(AttributeText(a), gap, word, t, inBrackets);
    case Comparison(a, gap, word, op, space, c) =>
      ComparisonReads(a, gap, word, op, space, c, t, inBrackets);
      var s := AttributeText(a) + (Blanks(gap + 1) + (word + (Blanks(space + 1) + (c.spelling + t))));
      assert PhraseText(p) + t == s;
    case Parenthesized(negation, gap, body) =>
      PhrasesRead(body, ")" + t, inBrackets);
      ParenthesesRead(PhrasesText(body), PhrasesTree(body), negation, gap, t, inBrackets);
    case Bracketed(a, body) =>
      PhrasesRead(body, "]" + t, true);
      BracketedReads(a, PhrasesText(body), PhrasesTree(body), t);
      assert PhraseText(p) + t == AttributeText(a) + ("[" + (PhrasesText(body) + ("]" + t)));
  }

  lemma {:induction false} PhrasesRead(c: Phrases, t: string, inBrackets: bool)
    requires WfPhrases(c, inBrackets) && Boundary(t) && (t == [] || t[0] != ' ')
    ensures Filter(PhrasesText(c) + t, inBrackets) == Some(Parsed(PhrasesTree(c), t))
    decreases c, 2
  {
    hide Filter, Tree, ChainText, WfChain;
    PhrasesAreChain(c, inBrackets);
    ChainReads(ChainOf(c), t, inBrackets);
    ChainOfText(c);
    TreeOfRuns(ChainOf(c));
  }

  lemma {:induction false} PhrasesAreChain(c: Phrases, inBrackets: bool)
    requires WfPhrases(c, inBrackets)
    ensures WfChain(ChainOf(c), inBrackets)
    decreases c, 1
  {
    hide IsOperand, WfPhrase, PhraseText, PhraseTree;
    match c
    case Only(p) => PhraseIsOperand(p, inBrackets);
    case Linked(p, _, _, _, rest) =>
      PhraseIsOperand(p, inBrackets);
      PhrasesAreChain(rest, inBrackets);
  }

  // ---- Whatever is read was spelled ----

  lemma SpaceTaken(s: string) returns (gap: nat)
    requires Space(s).Some?
    ensures s == Blanks(gap + 1) + Space(s).value
  {
    var n := Span(BlankClass, s);
    SpanFacts(BlankClass, s);
    gap := n - 1;
    assert s[..n] == Blanks(n);
    assert s == s[..n] + s[n..];
  }

  lemma KeywordTaken(word: string, s: string) returns (w: string)
    requires Keyword(word, s).Some?
    ensures Lower(w) == word && s == w + Keyword(word, s).value
  {
    w := s[..|word|];
    assert s == w + s[|word|..];
  }

  lemma {:induction false} OpTaken(ops: seq<Op>, s: string) returns (w: string)
    requires FirstOp(ops, s).Some?
    ensures Lower(w) == OpWord(FirstOp(ops, s).value.value) && s == w + FirstOp(ops, s).value.rest
  {
    if Keyword(OpWord(ops[0]), s).Some? {
      w := KeywordTaken(OpWord(ops[0]), s);
    } else {
      w := OpTaken(ops[1..], s);
    }
  }

  lemma ConnectiveTaken(word: string, s: string) returns (lead: nat, w: string, trail: nat)
    requires Connective(word, s).Some?
    ensures Lower(w) == word && s == Blanks(lead + 1) + w + Blanks(trail + 1) + Connective(word, s).value
  {
    hide Space, Keyword, Lower, Blanks;
    var s1 := Space(s).value;
    var s2 := Keyword(word, s1).value;
    lead := SpaceTaken(s);
    w := KeywordTaken(word, s1);
    trail := SpaceTaken(s2);
  }

  lemma PresenceTaken(s: string) returns (p: Phrase)
    requires PresenceExpr(s).Some?
    ensures WfPhrase(p, true) && WfPhrase(p, false)
    ensures PhraseTree(p) == PresenceExpr(s).value.value && s == PhraseText(p) + PresenceExpr(s).value.rest
  {
    hide AttributePath, Space, Keyword, WfAttribute, AttributeText, Blanks, Lower;
    var a := AttributeTaken(s);
    var s1 := AttributePath(s).value.rest;
    var gap := SpaceTaken(s1);
    var w := KeywordTaken("pr", Space(s1).value);
    p := Presence(a, gap, w);
    assert s == AttributeText(a) + Blanks(gap + 1) + w + PresenceExpr(s).value.rest;
  }

  lemma ComparisonTaken(s: string) returns (p: Phrase)
    requires CompareExpr(s).Some?
    ensures WfPhrase(p, true) && WfPhrase(p, false)
    ensures PhraseTree(p) == CompareExpr(s).value.value && s == PhraseText(p) + CompareExpr(s).value.rest
  {
    hide AttributePath, Space, FirstOp, LiteralValue, WfAttribute, WfConstant, AttributeText, Blanks, Lower;
    var a := AttributeTaken(s);
    var s1 := AttributePath(s).value.rest;
    var gap := SpaceTaken(s1);
    var s2 := Space(s1).value;
    var w := OpTaken(OPERATORS, s2);
    var op := FirstOp(OPERATORS, s2).value;
    var space := SpaceTaken(op.rest);
    var s3 := Space(op.rest).value;
    var c := ConstantTaken(s3);
    p := Comparison(a, gap, w, op.value, space, c);
    SaysOf(w, op.value);
    var rest := LiteralValue(s3).value.rest;
    assert s == AttributeText(a) + (Blanks(gap + 1) + (w + (Blanks(space + 1) + (c.spelling + rest))));
    assert s == PhraseText(p) + rest;
  }

  lemma SaysOf(word: string, op: Op)
    requires Lower(word) == OpWord(op)
    ensures Says(word, op)
  {
  }

  // The parts of a group: what stands before the parenthesis, between the two, and behind.
  lemma GroupFront(s: string, inBrackets: bool)
    requires Group(s, inBrackets).Some?
    ensures SkipNot(s) != [] && var s2 := SkipNot(s)[1..];
            && SkipNot(s) == "(" + s2 && Filter(s2, inBrackets).Some?
            && var inner := Filter(s2, inBrackets).value;
            && inner.rest == ")" + Group(s, inBrackets).value.rest
            && Group(s, inBrackets).value.value == if Keyword("not", s).Some? then Not(inner.value) else inner.value
  {
    hide Filter, Keyword, SkipNot;
  }

  lemma {:induction false} GroupTaken(s: string, inBrackets: bool) returns (p: Phrase)
    requires Group(s, inBrackets).Some?
    ensures WfPhrase(p, inBrackets) && PhraseTree(p) == Group(s, inBrackets).value.value
    ensures s == PhraseText(p) + Group(s, inBrackets).value.rest
    decreases |s|, 0
  {
    hide Filter, Group, Keyword, SkipNot, WfPhrases, PhrasesText, PhrasesTree, Blanks, Lower;
    GroupFront(s, inBrackets);
    var negation, gap := NotTaken(s);
    var s2 := SkipNot(s)[1..];
    var body := FilterTaken(s2, inBrackets);
    var lead := if negation.Some? then negation.value + Blanks(gap) else "";
    p := Parenthesized(negation, gap, body);
    Regroup(lead, "(", PhrasesText(body), ")", Group(s, inBrackets).value.rest);
    assert SkipNot(s) == "(" + s2;
  }

  // "not", if it is there, and the spaces after it.
  lemma NotTaken(s: string) returns (negation: Option<string>, gap: nat)
    ensures if negation.Some? then Lower(negation.value) == "not" else gap == 0
    ensures negation.Some? <==> Keyword("not", s).Some?
    ensures s == (if negation.Some? then negation.value + Blanks(gap) else "") + SkipNot(s)
  {
    negation, gap := None, 0;
    if Keyword("not", s).Some? {
      var s1 := Keyword("not", s).value;
      var w := KeywordTaken("not", s);
      negation, gap := Some(w), Span(BlankClass, s1);
      SpanFacts(BlankClass, s1);
      assert s1[..gap] == Blanks(gap);
      assert s1 == s1[..gap] + s1[gap..];
    }
  }

  lemma {:induction false} ValuePathTaken(s: string) returns (p: Phrase)
    requires ValuePathExpr(s).Some?
    ensures WfPhrase(p, false) && p.Bracketed? && PhraseTree(p) == ValuePathExpr(s).value.value
    ensures s == PhraseText(p) + ValuePathExpr(s).value.rest
    decreases |s|, 0
  {
    hide Filter, AttributePath, WfPhrases, PhrasesText, PhrasesTree, WfAttribute, AttributeText;
    var a := AttributeTaken(s);
    var s1 := AttributePath(s).value.rest;
    var s2 := Str("[", s1).value;
    var body := FilterTaken(s2, true);
    var s3 := Filter(s2, true).value.rest;
    var rest := Str("]", s3).value;
    p := Bracketed(a, body);
    assert s1 == "[" + s2 && s3 == "]" + rest;
    assert s == AttributeText(a) + "[" + PhrasesText(body) + "]" + rest;
  }

  lemma {:induction false} AtomTaken(s: string, inBrackets: bool) returns (p: Phrase)
    requires Atom(s, inBrackets).Some?
    ensures WfPhrase(p, inBrackets) && PhraseTree(p) == Atom(s, inBrackets).value.value
    ensures s == PhraseText(p) + Atom(s, inBrackets).value.rest
    decreases |s|, 1
  {
    hide Group, PresenceExpr, CompareExpr, ValuePathExpr, WfPhrase, PhraseTree, PhraseText;
    if Group(s, inBrackets).Some? {
      p := GroupTaken(s, inBrackets);
    } else if PresenceExpr(s).Some? {
      p := PresenceTaken(s);
    } else if CompareExpr(s).Some? {
      p := ComparisonTaken(s);
    } else {
      p := ValuePathTaken(s);
    }
  }

  // One run of "and".
  lemma {:induction false} ConjunctionTaken(s: string, inBrackets: bool) returns (c: Phrases)
    requires Conjunction(s, inBrackets).Some?
    ensures WfPhrases(c, inBrackets) && |Alternatives(c)| == 1
    ensures Conjoin(Alternatives(c)[0]) == Conjunction(s, inBrackets).value.value
    ensures s == PhrasesText(c) + Conjunction(s, inBrackets).value.rest
    decreases |s|, 2
  {
    hide Atom, Connective, WfPhrase, PhraseTree, PhraseText, Blanks, Lower;
    var p := AtomTaken(s, inBrackets);
    var l := Atom(s, inBrackets).value;
    c := Only(p);
    var t := Connective("and", l.rest);
    if t.Some? && Conjunction(t.value, inBrackets).Some? {
      var lead, w, trail := ConnectiveTaken("and", l.rest);
      var rest := ConjunctionTaken(t.value, inBrackets);
      c := Linked(p, lead, w, trail, rest);
      AndTaken(p, lead, w, trail, rest);
      var sep := Blanks(lead + 1) + w + Blanks(trail + 1);
      assert s == PhraseText(p) + (sep + (PhrasesText(rest) + Conjunction(s, inBrackets).value.rest));
      assert PhrasesText(c) == PhraseText(p) + sep + PhrasesText(rest);
    }
  }

  lemma AndTaken(p: Phrase, lead: nat, w: string, trail: nat, rest: Phrases)
    requires Lower(w) == "and" && |Alternatives(rest)| == 1
    ensures var c := Linked(p, lead, w, trail, rest);
            |Alternatives(c)| == 1 &&
            Conjoin(Alternatives(c)[0]) == And(PhraseTree(p), Conjoin(Alternatives(rest)[0]))
  {
    hide Lower;
    var run := Alternatives(rest)[0];
    assert ([PhraseTree(p)] + run)[1..] == run;
  }

  function OrJoin(c: Phrases, lead: nat, word: string, trail: nat, d: Phrases): Phrases {
    match c
    case Only(p) => Linked(p, lead, word, trail, d)
    case Linked(p, l, w, t, rest) => Linked(p, l, w, t, OrJoin(rest, lead, word, trail, d))
  }

  lemma {:induction false} OrJoinsRuns(c: Phrases, lead: nat, word: string, trail: nat, d: Phrases)
    requires Lower(word) == "or"
    ensures Alternatives(OrJoin(c, lead, word, trail, d)) == Alternatives(c) + Alternatives(d)
  {
    hide PhraseTree, Lower;
    if c.Linked? {
      OrJoinsRuns(c.rest, lead, word, trail, d);
    }
  }

  lemma {:induction false} OrJoins(c: Phrases, lead: nat, word: string, trail: nat, d: Phrases, inBrackets: bool)
    requires WfPhrases(c, inBrackets) && WfPhrases(d, inBrackets) && Lower(word) == "or"
    ensures var both := OrJoin(c, lead, word, trail, d);
            && WfPhrases(both, inBrackets)
            && PhrasesText(both) ==
               PhrasesText(c) + (Blanks(lead + 1) + word + Blanks(trail + 1)) + PhrasesText(d)
  {
    hide WfPhrase, PhraseText, Blanks, Lower;
    match c
    case Only(_) =>
    case Linked(p, l, w, t, rest) =>
      OrJoins(rest, lead, word, trail, d, inBrackets);
      OrKeepsText(PhraseText(p), Blanks(l + 1) + w + Blanks(t + 1), PhrasesText(rest),
                  Blanks(lead + 1) + word + Blanks(trail + 1), PhrasesText(d));
  }

  lemma OrKeepsText(a: string, b: string, c: string, d: string, e: string)
    ensures a + b + (c + d + e) == a + b + c + d + e
  {
  }

  lemma {:induction false} FilterTaken(s: string, inBrackets: bool) returns (c: Phrases)
    requires Filter(s, inBrackets).Some?
    ensures WfPhrases(c, inBrackets) && PhrasesTree(c) == Filter(s, inBrackets).value.value
    ensures s == PhrasesText(c) + Filter(s, inBrackets).value.rest
    decreases |s|, 3
  {
    hide Conjunction, Connective, WfPhrases, Alternatives, PhrasesText, Blanks, Lower;
    c := ConjunctionTaken(s, inBrackets);
    var l := Conjunction(s, inBrackets).value;
    var t := Connective("or", l.rest);
    if t.Some? && Filter(t.value, inBrackets).Some? {
      var lead, w, trail := ConnectiveTaken("or", l.rest);
      var rest := FilterTaken(t.value, inBrackets);
      OrJoins(c, lead, w, trail, rest, inBrackets);
      OrJoinsRuns(c, lead, w, trail, rest);
      assert (Alternatives(c) + Alternatives(rest))[1..] == Alternatives(rest);
      OrKeepsText("", "", PhrasesText(c), Blanks(lead + 1) + w + Blanks(trail + 1), PhrasesText(rest));
      c := OrJoin(c, lead, w, trail, rest);
    }
  }

  // ---- The parser and the language ----

  ghost predicate Denotes(text: string, n: Node) {
    exists c :: WfPhrases(c, false) && PhrasesText(c) == text && PhrasesTree(c) == n
  }

  // A text parses to a tree exactly when it spells a filter that means the tree.
  lemma ParsesExactly(text: string, n: Node)
    ensures Parse(text) == Some(n) <==> Denotes(text, n)
  {
    hide Filter, WfPhrases, PhrasesText, PhrasesTree;
    if Parse(text) == Some(n) {
      var c := FilterTaken(text, false);
      assert PhrasesText(c) + [] == PhrasesText(c);
    }
    if c :| WfPhrases(c, false) && PhrasesText(c) == text && PhrasesTree(c) == n {
      PhrasesRead(c, [], false);
      assert PhrasesText(c) + [] == PhrasesText(c);
    }
  }
}
