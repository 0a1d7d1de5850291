// The filter grammar of section 3.4.2.2 of RFC 7644 as ordered choice over the unread text.
// A parser maps the text from the current position on to a value and the text it leaves, or fails.
module FilterGrammar {
  import opened Wrappers
  import opened Text
  import opened FilterLexer
  import opened FilterJson

  datatype Op = Eq | Ne | Co | Sw | Ew | Gt | Lt | Ge | Le

  datatype Literal = Null | Bool(flag: bool) | Number(digits: string) | Quoted(text: string)

  datatype Node =
    | Compare(attribute: string, op: Op, value: Literal)
    | Present(attribute: string)
    | And(left: Node, right: Node)
    | Or(left: Node, right: Node)
    | Not(operand: Node)
    | ValuePath(path: string, filter: Node)

  datatype Parsed<+T> = Parsed(value: T, rest: string)

  // ---- Tokens ----

  function Str(word: string, s: string): (rest: Option<string>)
    ensures rest.Some? ==> |rest.value| <= |s|
  {
    if word <= s then Some(s[|word|..]) else None
  }

  // A keyword in any case.
  function Keyword(word: string, s: string): (rest: Option<string>)
    ensures rest.Some? ==> |rest.value| <= |s|
  {
    if |word| <= |s| && Lower(s[..|word|]) == word then Some(s[|word|..]) else None
  }

  function SkipSpaces(s: string): (rest: string)
    ensures |rest| <= |s|
  {
    s[Span(BlankClass, s)..]
  }

  function Space(s: string): (rest: Option<string>)
    ensures rest.Some? ==> |rest.value| < |s|
  {
    if s != [] && s[0] == ' ' then Some(SkipSpaces(s)) else None
  }

  // A connective between two operands, with the spaces on both sides.
  function Connective(word: string, s: string): (r: Option<string>)
    ensures r.Some? ==> |r.value| < |s|
  {
    match Space(s)
    case None => None
    case Some(s1) =>
      match Keyword(word, s1)
      case None => None
      case Some(s2) => Space(s2)
  }

  // ---- Attribute paths: [URI ":"] name ["." name] ----

  function SubAttribute(s: string): (r: Option<Parsed<string>>)
    ensures r.Some? ==> |r.value.rest| < |s|
  {
    if s == [] || s[0] != '.' then None
    else
      var n := MatchName(s[1..]);
      if n == 0 then None else Some(Parsed(s[1..1 + n], s[1 + n..]))
  }

  function NamePath(s: string): (r: Option<Parsed<string>>)
    ensures r.Some? ==> |r.value.rest| < |s|
  {
    var n := MatchName(s);
    if n == 0 then None
    else
      match SubAttribute(s[n..])
      case None => Some(Parsed(s[..n], s[n..]))
      case Some(sub) => Some(Parsed(s[..n] + "." + sub.value, sub.rest))
  }

  // The path whose URI part, with its colon, has this length.
  function PathAfter(u: nat, s: string): (r: Option<Parsed<string>>)
    requires u <= |s|
    ensures r.Some? ==> |r.value.rest| < |s|
  {
    match NamePath(s[u..])
    case None => None
    case Some(p) => Some(Parsed(s[..u] + p.value, p.rest))
  }

  function AttributePath(s: string): (r: Option<Parsed<string>>)
    ensures r.Some? ==> |r.value.rest| < |s|
  {
    PathAfter(MatchUri(s), s)
  }

  // ---- Attribute expressions ----

  function OpWord(op: Op): string {
    match op
    case Eq => "eq" case Ne => "ne" case Co => "co" case Sw => "sw" case Ew => "ew"
    case Gt => "gt" case Lt => "lt" case Ge => "ge" case Le => "le"
  }

  const OPERATORS: seq<Op> := [Eq, Ne, Co, Sw, Ew, Gt, Lt, Ge, Le]

  function FirstOp(ops: seq<Op>, s: string): (r: Option<Parsed<Op>>)
    ensures r.Some? ==> |r.value.rest| <= |s|
  {
    if ops == [] then None
    else
      match Keyword(OpWord(ops[0]), s)
      case Some(rest) => Some(Parsed(ops[0], rest))
      case None => FirstOp(ops[1..], s)
  }

  function LiteralValue(s: string): (r: Option<Parsed<Literal>>)
    ensures r.Some? ==> |r.value.rest| <= |s|
  {
    if "false" <= s then Some(Parsed(Bool(false), s[5..]))
    else if "null" <= s then Some(Parsed(Null, s[4..]))
    else if "true" <= s then Some(Parsed(Bool(true), s[4..]))
    else if MatchNumber(s) > 0 then Some(Parsed(Number(s[..MatchNumber(s)]), s[MatchNumber(s)..]))
    else if MatchString(s) > 0 then
      match DecodeString(s[..MatchString(s)])
      case None => None
      case Some(text) => Some(Parsed(Quoted(text), s[MatchString(s)..]))
    else None
  }

  function PresenceExpr(s: string): (r: Option<Parsed<Node>>)
    ensures r.Some? ==> |r.value.rest| < |s|
  {
    match AttributePath(s)
    case None => None
    case Some(p) =>
      match Space(p.rest)
      case None => None
      case Some(s1) =>
        match Keyword("pr", s1)
        case None => None
        case Some(s2) => Some(Parsed(Present(p.value), s2))
  }

  function CompareExpr(s: string): (r: Option<Parsed<Node>>)
    ensures r.Some? ==> |r.value.rest| < |s|
  {
    match AttributePath(s)
    case None => None
    case Some(p) =>
      match Space(p.rest)
      case None => None
      case Some(s1) =>
        match FirstOp(OPERATORS, s1)
        case None => None
        case Some(op) =>
          match Space(op.rest)
          case None => None
          case Some(s2) =>
            match LiteralValue(s2)
            case None => None
            case Some(v) => Some(Parsed(Compare(p.value, op.value, v.value), v.rest))
  }

  function AttributeExpr(s: string): (r: Option<Parsed<Node>>)
    ensures r.Some? ==> |r.value.rest| < |s|
  {
    match PresenceExpr(s)
    case Some(r) => Some(r)
    case None => CompareExpr(s)
  }

  // ---- Filters; inside the brackets of a value path no further value path may stand ----

  // "not", if it is there, with the spaces after it.
  function SkipNot(s: string): (rest: string)
    ensures |rest| <= |s|
  {
    match Keyword("not", s)
    case None => s
    case Some(s1) => SkipSpaces(s1)
  }

  function Group(s: string, inBrackets: bool): (r: Option<Parsed<Node>>)
    ensures r.Some? ==> |r.value.rest| < |s|
    decreases |s|, 0
  {
    var s1 := SkipNot(s);
    match Str("(", s1)
    case None => None
    case Some(s2) =>
      match Filter(s2, inBrackets)
      case None => None
      case Some(inner) =>
        match Str(")", inner.rest)
        case None => None
        case Some(s3) => Some(Parsed(if Keyword("not", s).Some? then Not(inner.value) else inner.value, s3))
  }

  function ValuePathExpr(s: string): (r: Option<Parsed<Node>>)
    ensures r.Some? ==> |r.value.rest| < |s|
    decreases |s|, 0
  {
    match AttributePath(s)
    case None => None
    case Some(p) =>
      match Str("[", p.rest)
      case None => None
      case Some(s1) =>
        match Filter(s1, true)
        case None => None
        case Some(inner) =>
          match Str("]", inner.rest)
          case None => None
          case Some(s2) => Some(Parsed(ValuePath(p.value, inner.value), s2))
  }

  function Atom(s: string, inBrackets: bool): (r: Option<Parsed<Node>>)
    ensures r.Some? ==> |r.value.rest| < |s|
    decreases |s|, 1
  {
    match Group(s, inBrackets)
    case Some(r) => Some(r)
    case None =>
      match AttributeExpr(s)
      case Some(r) => Some(r)
      case None => if inBrackets then None else ValuePathExpr(s)
  }

  // Operands joined by "and"; when what follows an "and" is no operand, the "and" is left unread.
  function Conjunction(s: string, inBrackets: bool): (r: Option<Parsed<Node>>)
    ensures r.Some? ==> |r.value.rest| < |s|
    decreases |s|, 2
  {
    match Atom(s, inBrackets)
    case None => None
    case Some(l) =>
      match Connective("and", l.rest)
      case None => Some(l)
      case Some(t) =>
        match Conjunction(t, inBrackets)
        case None => Some(l)
        case Some(r) => Some(Parsed(And(l.value, r.value), r.rest))
  }

  function Filter(s: string, inBrackets: bool): (r: Option<Parsed<Node>>)
    ensures r.Some? ==> |r.value.rest| < |s|
    decreases |s|, 3
  {
    match Conjunction(s, inBrackets)
    case None => None
    case Some(l) =>
      match Connective("or", l.rest)
      case None => Some(l)
      case Some(t) =>
        match Filter(t, inBrackets)
        case None => Some(l)
        case Some(r) => Some(Parsed(Or(l.value, r.value), r.rest))
  }

  // A filter is accepted when the grammar reads all of it.
  function Parse(text: string): Option<Node> {
    match Filter(text, false)
    case None => None
    case Some(p) => if p.rest == [] then Some(p.value) else None
  }
}
