// "and" binds tighter than "or" (section 3.4.2.2 of RFC 7644): a flat chain of operands means the
// disjunction, over its maximal runs of "and", of their conjunctions.
module FilterPrecedence {
  import opened Wrappers
  import opened Text
  import opened FilterLexer
  import opened FilterGrammar
  import opened FilterPrint
  import opened FilterRoundTrip

  // An operand as it is spelled, and the tree that its text stands for.
  datatype Operand = Operand(src: string, node: Node)

  // Operands joined by connectives in any case, with one or more spaces on either side.
  datatype Chain =
    | Last(operand: Operand)
    | Link(operand: Operand, lead: nat, word: string, trail: nat, rest: Chain)

  predicate IsAnd(word: string) { Lower(word) == "and" }

  predicate IsOr(word: string) { Lower(word) == "or" }

  // A text the grammar takes as one operand, whatever may stand after an operand.
  ghost predicate IsOperand(o: Operand, inBrackets: bool) {
    && o.src != [] && o.src[0] != ' '
    && forall t :: Boundary(t) ==> Atom(o.src + t, inBrackets) == Some(Parsed(o.node, t))
  }

  ghost predicate WfChain(c: Chain, inBrackets: bool) {
    match c
    case Last(o) => IsOperand(o, inBrackets)
    case Link(o, _, word, _, rest) =>
      IsOperand(o, inBrackets) && (IsAnd(word) || IsOr(word)) && WfChain(rest, inBrackets)
  }

  function Blanks(n: nat): string {
    seq(n, _ => ' ')
  }

  function Separator(lead: nat, word: string, trail: nat): string {
    Blanks(lead + 1) + word + Blanks(trail + 1)
  }

  function ChainText(c: Chain): string {
    match c
    case Last(o) => o.src
    case Link(o, lead, word, trail, rest) => o.src + Separator(lead, word, trail) + ChainText(rest)
  }

  // ---- What a chain means ----

  // Truth under an assignment to the expressions that hold no connective.
  ghost predicate Eval(n: Node, v: Node -> bool) {
    match n
    case And(l, r) => Eval(l, v) && Eval(r, v)
    case Or(l, r) => Eval(l, v) || Eval(r, v)
    case Not(operand) => !Eval(operand, v)
    case _ => v(n)
  }

  // The operands, cut at every "or".
  function Runs(c: Chain): (r: seq<seq<Node>>)
    ensures r != []
  {
    match c
    case Last(o) => [[o.node]]
    case Link(o, _, word, _, rest) =>
      var runs := Runs(rest);
      if IsAnd(word) then [[o.node] + runs[0]] + runs[1..] else [[o.node]] + runs
  }

  ghost predicate Holds(run: seq<Node>, v: Node -> bool) {
    forall i :: 0 <= i < |run| ==> Eval(run[i], v)
  }

  ghost predicate Means(c: Chain, v: Node -> bool) {
    exists i :: 0 <= i < |Runs(c)| && Holds(Runs(c)[i], v)
  }

  // ---- The tree the grammar builds ----

  function FirstRun(c: Chain): Node {
    match c
    case Last(o) => o.node
    case Link(o, _, word, _, rest) => if IsAnd(word) then And(o.node, FirstRun(rest)) else o.node
  }

  function AfterRun(c: Chain): (r: Option<Chain>)
    ensures r.Some? ==> r.value < c
  {
    match c
    case Last(_) => None
    case Link(_, _, word, _, rest) => if IsAnd(word) then AfterRun(rest) else Some(rest)
  }

  function Tree(c: Chain): Node {
    match AfterRun(c)
    case None => FirstRun(c)
    case Some(rest) => Or(FirstRun(c), Tree(rest))
  }

  // The text left unread after the first run.
  function RunRest(c: Chain): string {
    match c
    case Last(_) => []
    case Link(_, lead, word, trail, rest) =>
      if IsAnd(word) then RunRest(rest) else Separator(lead, word, trail) + ChainText(rest)
  }

  // ---- Reading a chain ----

  lemma BlanksRead(n: nat, t: string)
    requires t == [] || t[0] != ' '
    ensures Space(Blanks(n + 1) + t) == Some(t)
  {
    SpanIs(BlankClass, Blanks(n + 1) + t, n + 1);
    DropWord(Blanks(n + 1), t);
  }

  lemma AnyCaseReads(word: string, t: string)
    requires IsAnd(word) || IsOr(word)
    ensures Keyword(if IsAnd(word) then "and" else "or", word + t) == Some(t)
    ensures Keyword(if IsAnd(word) then "or" else "and", word + t) == None
    ensures word != [] && word[0] != ' '
  {
    DropWord(word, t);
    var lower := Lower(word);
    assert lower[0] == LowerChar(word[0]) && lower[1] == LowerChar(word[1]);
    KeywordFails(if IsAnd(word) then "or" else "and", word + t);
  }

  lemma SeparatorReads(lead: nat, word: string, trail: nat, t: string)
    requires (IsAnd(word) || IsOr(word)) && (t == [] || t[0] != ' ')
    ensures var s := Separator(lead, word, trail) + t;
            Connective("and", s) == (if IsAnd(word) then Some(t) else None) &&
            Connective("or", s) == (if IsAnd(word) then None else Some(t))
  {
    hide Keyword, Space, Lower, Blanks;
    var tail := Blanks(trail + 1) + t;
    assert Separator(lead, word, trail) + t == Blanks(lead + 1) + (word + tail);
    AnyCaseReads(word, tail);
    BlanksRead(lead, word + tail);
    BlanksRead(trail, t);
  }

  lemma ChainStart(c: Chain, inBrackets: bool)
    requires WfChain(c, inBrackets)
    ensures ChainText(c) != [] && ChainText(c)[0] != ' '
  {
  }

  lemma SeparatorStarts(lead: nat, word: string, trail: nat, t: string)
    ensures Boundary(Separator(lead, word, trail) + t)
  {
    assert (Separator(lead, word, trail) + t)[0] == ' ';
  }

  lemma {:induction false} RunReads(c: Chain, t: string, inBrackets: bool)
    requires WfChain(c, inBrackets) && Boundary(t) && (t == [] || t[0] != ' ')
    ensures Conjunction(ChainText(c) + t, inBrackets) == Some(Parsed(FirstRun(c), RunRest(c) + t))
    decreases c
  {
    hide Atom, Connective, Separator, Boundary;
    var src, n := c.operand.src, c.operand.node;
    match c
    case Last(_) =>
      FilterOfAtom(src + t, n, t, inBrackets);
      assert [] + t == t;
    case Link(_, lead, word, trail, rest) =>
      var sep := Separator(lead, word, trail);
      var tail := ChainText(rest) + t;
      ChainStart(rest, inBrackets);
      assert ChainText(c) + t == src + (sep + tail);
      SeparatorStarts(lead, word, trail, tail);
      SeparatorReads(lead, word, trail, tail);
      RunReads(rest, t, inBrackets);
      assert sep + ChainText(rest) + t == sep + tail;
  }

  lemma RunRestReads(c: Chain, t: string, inBrackets: bool)
    requires WfChain(c, inBrackets) && (t == [] || t[0] != ' ')
    ensures match AfterRun(c)
            case None => RunRest(c) == [] && Connective("or", RunRest(c) + t) == None
            case Some(rest) =>
              Connective("or", RunRest(c) + t) == Some(ChainText(rest) + t) && WfChain(rest, inBrackets)
    decreases c
  {
    hide Connective, Separator, Atom;
    match c
    case Last(_) =>
      assert [] + t == t;
      NoConnective(t);
    case Link(_, lead, word, trail, rest) =>
      if IsAnd(word) {
        RunRestReads(rest, t, inBrackets);
      } else {
        ChainStart(rest, inBrackets);
        SeparatorReads(lead, word, trail, ChainText(rest) + t);
        assert RunRest(c) + t == Separator(lead, word, trail) + (ChainText(rest) + t);
      }
  }

  lemma {:induction false} ChainReads(c: Chain, t: string, inBrackets: bool)
    requires WfChain(c, inBrackets) && Boundary(t) && (t == [] || t[0] != ' ')
    ensures Filter(ChainText(c) + t, inBrackets) == Some(Parsed(Tree(c), t))
    decreases c
  {
    hide Conjunction, Connective, ChainText, RunRest;
    RunReads(c, t, inBrackets);
    RunRestReads(c, t, inBrackets);
    if AfterRun(c).Some? {
      ChainReads(AfterRun(c).value, t, inBrackets);
    } else {
      assert [] + t == t;
    }
  }

  // ---- Operands, printed and otherwise ----

  lemma PrintedIsOperand(n: Node, inBrackets: bool)
    requires Wf(n, inBrackets)
    ensures IsOperand(Operand(Print(n), n), inBrackets)
  {
    hide Atom, Wf;
    PrintStart(n, inBrackets);
    forall t | Boundary(t) ensures Atom(Print(n) + t, inBrackets) == Some(Parsed(n, t)) {
      PrintReads(n, t, inBrackets);
    }
  }

  // Any spaces before "pr", in any case.
  lemma PresenceIsOperand(path: string, gap: nat, word: string, inBrackets: bool)
    requires WfPath(path) && Lower(word) == "pr"
    ensures IsOperand(Operand(path + Blanks(gap + 1) + word, Present(path)), inBrackets)
  {
    hide Atom;
    PathStart(path);
    forall t | Boundary(t)
      ensures Atom(path + Blanks(gap + 1) + word + t, inBrackets) == Some(Parsed(Present(path), t))
    {
      PresenceReads(path, gap, word, t, inBrackets);
    }
  }

  lemma PresenceReads(path: string, gap: nat, word: string, t: string, inBrackets: bool)
    requires WfPath(path) && Lower(word) == "pr"
    ensures Atom(path + Blanks(gap + 1) + word + t, inBrackets) == Some(Parsed(Present(path), t))
  {
    hide Group, AttributePath, ValuePathExpr, WfPath, Blanks;
    var tail := Blanks(gap + 1) + (word + t);
    assert path + Blanks(gap + 1) + word + t == path + tail;
    assert LowerChar(word[0]) == Lower(word)[0] == 'p';
    BlanksRead(gap, word + t);
    PathAppend(path, tail);
    GroupFails(path, tail, inBrackets);
    DropWord(word, t);
  }

  // "not" in any case, any spaces, and a chain in parentheses.
  lemma NegationIsOperand(c: Chain, gap: nat, word: string, inBrackets: bool)
    requires WfChain(c, inBrackets) && Lower(word) == "not"
    ensures IsOperand(Operand(word + Blanks(gap) + "(" + ChainText(c) + ")", Not(Tree(c))), inBrackets)
  {
    hide Atom, WfChain, ChainText;
    assert LowerChar(word[0]) == Lower(word)[0] == 'n';
    forall t | Boundary(t)
      ensures Atom(word + Blanks(gap) + "(" + ChainText(c) + ")" + t, inBrackets) == Some(Parsed(Not(Tree(c)), t))
    {
      NegationReads(c, gap, word, t, inBrackets);
    }
  }

  lemma NegationReads(c: Chain, gap: nat, word: string, t: string, inBrackets: bool)
    requires WfChain(c, inBrackets) && Lower(word) == "not"
    ensures Atom(word + Blanks(gap) + "(" + ChainText(c) + ")" + t, inBrackets) == Some(Parsed(Not(Tree(c)), t))
  {
    hide Filter, WfChain, ChainText, SkipNot, Atom, Blanks, Keyword;
    var inner := ChainText(c) + (")" + t);
    var s := word + (Blanks(gap) + ("(" + inner));
    assert word + Blanks(gap) + "(" + ChainText(c) + ")" + t == s;
    NotSkipped(word, gap, "(" + inner);
    ChainReads(c, ")" + t, inBrackets);
    NegatedGroup(s, inner, Tree(c), t, inBrackets);
    AtomOfGroup(s, Parsed(Not(Tree(c)), t), inBrackets);
  }

  lemma NotSkipped(word: string, gap: nat, group: string)
    requires Lower(word) == "not" && group != [] && group[0] != ' '
    ensures var s := word + (Blanks(gap) + group); SkipNot(s) == group && Keyword("not", s).Some?
  {
    var spaced := Blanks(gap) + group;
    DropWord(word, spaced);
    SpanIs(BlankClass, spaced, gap);
    DropWord(Blanks(gap), group);
  }

  lemma NegatedGroup(s: string, inner: string, n: Node, t: string, inBrackets: bool)
    requires SkipNot(s) == "(" + inner && Keyword("not", s).Some?
    requires Filter(inner, inBrackets) == Some(Parsed(n, ")" + t))
    ensures Group(s, inBrackets) == Some(Parsed(Not(n), t))
  {
    hide SkipNot, Keyword, Filter;
    DropWord("(", inner);
    DropWord(")", t);
  }

  // ---- The tree means what the chain means ----

  lemma HoldsCons(n: Node, run: seq<Node>, v: Node -> bool)
    ensures Holds([n] + run, v) <==> Eval(n, v) && Holds(run, v)
  {
    if Holds([n] + run, v) {
      assert ([n] + run)[0] == n;
      forall i | 0 <= i < |run| ensures Eval(run[i], v) {
        assert ([n] + run)[i + 1] == run[i];
      }
    }
  }

  lemma {:induction false} RunsOf(c: Chain, v: Node -> bool)
    ensures Eval(FirstRun(c), v) <==> Holds(Runs(c)[0], v)
    ensures Runs(c)[1..] == (if AfterRun(c).Some? then Runs(AfterRun(c).value) else [])
    decreases c
  {
    hide IsAnd, Holds;
    var n := c.operand.node;
    HoldsCons(n, [], v);
    assert [n] + [] == [n];
    assert Holds([], v) by { HoldsNothing(v); }
    match c
    case Last(_) =>
    case Link(_, _, word, _, rest) =>
      RunsOf(rest, v);
      HoldsCons(n, Runs(rest)[0], v);
  }

  lemma HoldsNothing(v: Node -> bool)
    ensures Holds([], v)
  {
  }

  lemma {:induction false} TreeMeans(c: Chain, v: Node -> bool)
    ensures Eval(Tree(c), v) <==> Means(c, v)
    decreases c
  {
    RunsOf(c, v);
    var runs := Runs(c);
    if AfterRun(c).Some? {
      var rest := AfterRun(c).value;
      TreeMeans(rest, v);
      if i :| 0 <= i < |Runs(rest)| && Holds(Runs(rest)[i], v) {
        assert runs[i + 1] == Runs(rest)[i];
      }
      if i :| 0 <= i < |runs| && Holds(runs[i], v) {
        assert i > 0 ==> runs[i] == Runs(rest)[i - 1];
      }
    }
  }

  // Every flat chain parses, and its tree holds exactly when all operands of some maximal run of "and" hold.
  lemma Precedence(c: Chain, v: Node -> bool)
    requires WfChain(c, false)
    ensures Parse(ChainText(c)).Some?
    ensures Eval(Parse(ChainText(c)).value, v) <==> Means(c, v)
  {
    ChainReads(c, [], false);
    assert ChainText(c) + [] == ChainText(c);
    TreeMeans(c, v);
  }
}
