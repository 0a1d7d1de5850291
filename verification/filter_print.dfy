// The printer of filters, and the attribute paths both sides share.
module FilterPrint {
  import opened Wrappers
  import opened FilterLexer
  import opened FilterJson
  import opened FilterGrammar

  // ---- Attribute paths in parts ----

  datatype AttrPath = AttrPath(uri: string, name: string, subAttribute: string)

  function LastIndex(c: char, s: string): (i: Option<nat>)
    ensures i.Some? ==> i.value < |s|
  {
    if s == [] then None
    else if s[|s| - 1] == c then Some(|s| - 1)
    else LastIndex(c, s[..|s| - 1])
  }

  function FirstIndex(c: char, s: string): (i: Option<nat>)
    ensures i.Some? ==> i.value < |s|
  {
    if s == [] then None
    else if s[0] == c then Some(0)
    else
      match FirstIndex(c, s[1..])
      case None => None
      case Some(i) => Some(1 + i)
  }

  function SplitName(uri: string, raw: string): AttrPath {
    match FirstIndex('.', raw)
    case None => AttrPath(uri, raw, "")
    case Some(i) => AttrPath(uri, raw[..i], raw[i + 1..])
  }

  function SplitPath(raw: string): AttrPath {
    match LastIndex(':', raw)
    case None => SplitName("", raw)
    case Some(i) => SplitName(raw[..i], raw[i + 1..])
  }

  function PathText(p: AttrPath): string {
    var s := if p.subAttribute != "" then p.name + "." + p.subAttribute else p.name;
    if p.uri != "" then p.uri + ":" + s else s
  }

  // ---- Printing ----

  function LiteralText(v: Literal): string {
    match v
    case Null => "null"
    case Bool(flag) => if flag then "true" else "false"
    case Number(digits) => digits
    case Quoted(text) => EncodeString(text)
  }

  function Print(n: Node): string {
    match n
    case And(l, r) => "(" + Print(l) + " and " + Print(r) + ")"
    case Or(l, r) => "(" + Print(l) + " or " + Print(r) + ")"
    case Not(operand) => "not (" + Print(operand) + ")"
    case ValuePath(path, filter) => PathText(SplitPath(path)) + "[" + Print(filter) + "]"
    case Present(attribute) => PathText(SplitPath(attribute)) + " pr"
    case Compare(attribute, op, value) =>
      PathText(SplitPath(attribute)) + " " + OpWord(op) + " " + LiteralText(value)
  }

  // ---- Well-formed syntax trees ----

  predicate WfPath(p: string) {
    AttributePath(p) == Some(Parsed(p, []))
  }

  predicate WfLiteral(v: Literal) {
    v.Number? ==> v.digits != [] && MatchNumber(v.digits) == |v.digits|
  }

  // Lexically valid paths and numbers, and no value path inside the brackets of another.
  predicate Wf(n: Node, inBrackets: bool) {
    match n
    case And(l, r) => Wf(l, inBrackets) && Wf(r, inBrackets)
    case Or(l, r) => Wf(l, inBrackets) && Wf(r, inBrackets)
    case Not(operand) => Wf(operand, inBrackets)
    case ValuePath(path, filter) => !inBrackets && WfPath(path) && Wf(filter, true)
    case Present(attribute) => WfPath(attribute)
    case Compare(attribute, _, value) => WfPath(attribute) && WfLiteral(value)
  }

  // ---- The shape of a path ----

  // A name, with or without a sub-attribute.
  predicate NamePart(q: string) {
    var n := MatchName(q);
    n > 0 && (n == |q| || (q[n] == '.' && n + 1 < |q| && MatchName(q[n + 1..]) == |q| - n - 1))
  }

  predicate UriPart(u: string) {
    u == [] || MatchUri(u) == |u|
  }

  lemma NamePartNoColon(q: string)
    requires NamePart(q)
    ensures ':' !in q
  {
    var n := MatchName(q);
    NameCut(q);
    NameChars(q[..n]);
    assert q == q[..n] + q[n..];
    if n < |q| {
      NameChars(q[n + 1..]);
      assert q[n..] == "." + q[n + 1..];
    }
  }

  // What may stand right after an attribute path: nothing that could go on with it.
  predicate EndsPath(t: string) {
    t == [] || !(IsNameChar(t[0]) || IsUriChar(t[0]) || t[0] == ':')
  }

  lemma UriOfPath(u: string, q: string, t: string)
    requires UriPart(u) && NamePart(q) && EndsPath(t)
    ensures MatchUri(u + q + t) == |u|
  {
    NamePartNoColon(q);
    if t == [] {
      assert q + t == q;
      StopsNoColon(q);
    } else {
      StopsBefore(q, t);
    }
    assert u + q + t == u + (q + t);
    if u == [] {
      assert u + (q + t) == q + t;
      NoUri(q + t);
    } else {
      UriAppend(u, q + t);
    }
  }

  lemma SubAttributeReads(sub: string, t: string)
    requires sub != [] && MatchName(sub) == |sub| && EndsPath(t)
    ensures SubAttribute("." + sub + t) == Some(Parsed(sub, t))
  {
    var s := "." + sub + t;
    NameAppend(sub, t);
    assert s == ['.'] + (sub + t);
    assert s[1..] == sub + t;
    assert s[1..1 + |sub|] == sub && s[1 + |sub|..] == t;
  }

  lemma NameReads(q: string, t: string)
    requires NamePart(q) && EndsPath(t)
    ensures NamePath(q + t) == Some(Parsed(q, t))
  {
    var n := MatchName(q);
    if n == |q| {
      NameAppend(q, t);
      assert (q + t)[n..] == t && (q + t)[..n] == q;
    } else {
      var sub := q[n + 1..];
      SpanAppend(NameClass, q, t);
      SubAttributeReads(sub, t);
      assert (q + t)[n..] == "." + sub + t;
      assert (q + t)[..n] + "." + sub == q;
    }
  }

  lemma PathAfterReads(u: string, q: string, t: string)
    requires NamePath(q + t) == Some(Parsed(q, t))
    ensures PathAfter(|u|, u + q + t) == Some(Parsed(u + q, t))
  {
    assert (u + q + t)[|u|..] == q + t && (u + q + t)[..|u|] == u;
  }

  // A path of these parts is read back whole.
  lemma PathReads(u: string, q: string, t: string)
    requires UriPart(u) && NamePart(q) && EndsPath(t)
    ensures AttributePath(u + q + t) == Some(Parsed(u + q, t))
  {
    hide NamePath;
    hide MatchUri;
    UriOfPath(u, q, t);
    NameReads(q, t);
    PathAfterReads(u, q, t);
  }

  lemma NameWithSub(name: string, sub: string)
    requires name != [] && sub != [] && MatchName(name) == |name| && MatchName(sub) == |sub|
    ensures NamePart(name + "." + sub)
  {
    var q := name + "." + sub;
    assert q == name + ("." + sub);
    SpanAppend(NameClass, name, "." + sub);
    assert q[|name| + 1..] == sub;
  }

  // The name, with its sub-attribute if there is one, at the front of the text.
  lemma NameParts(s: string)
    requires NamePath(s).Some?
    ensures NamePart(NamePath(s).value.value) && s == NamePath(s).value.value + NamePath(s).value.rest
  {
    var n := MatchName(s);
    NameCut(s);
    if SubAttribute(s[n..]).Some? {
      var m := MatchName(s[n..][1..]);
      NameCut(s[n..][1..]);
      NameWithSub(s[..n], s[n..][1..][..m]);
      assert s[n..][1..][..m] == s[n..][1..1 + m];
    }
  }

  lemma PathAfterParts(k: nat, s: string) returns (q: string)
    requires k <= |s| && PathAfter(k, s).Some?
    ensures NamePart(q)
    ensures PathAfter(k, s).value.value == s[..k] + q && s == s[..k] + q + PathAfter(k, s).value.rest
  {
    hide NamePath, NamePart;
    q := NamePath(s[k..]).value.value;
    NameParts(s[k..]);
    assert s == s[..k] + s[k..];
  }

  lemma UriPrefix(s: string)
    ensures UriPart(s[..MatchUri(s)])
    ensures MatchUri(s) > 0 ==> MatchUri(s) > 1 && s[MatchUri(s) - 1] == ':'
  {
    UriCut(s);
  }

  // What the path parser reads consists of these parts.
  lemma PathParts(s: string) returns (u: string, q: string)
    requires AttributePath(s).Some?
    ensures UriPart(u) && NamePart(q)
    ensures AttributePath(s).value.value == u + q && s == u + q + AttributePath(s).value.rest
    ensures u != [] ==> |u| > 1 && u[|u| - 1] == ':'
  {
    var k := MatchUri(s);
    UriPrefix(s);
    u := s[..k];
    q := PathAfterParts(k, s);
  }

  lemma NameStops(s: string)
    requires NamePath(s).Some?
    ensures NamePath(s).value.rest == [] || !IsNameChar(NamePath(s).value.rest[0])
  {
    var n := MatchName(s);
    SpanFacts(NameClass, s);
    if SubAttribute(s[n..]).Some? {
      SpanFacts(NameClass, s[n..][1..]);
    }
  }

  // A path is read as far as its last name goes.
  lemma PathStops(s: string)
    requires AttributePath(s).Some?
    ensures AttributePath(s).value.rest == [] || !IsNameChar(AttributePath(s).value.rest[0])
  {
    NameStops(s[MatchUri(s)..]);
  }

  lemma PathAppend(p: string, t: string)
    requires WfPath(p) && EndsPath(t)
    ensures AttributePath(p + t) == Some(Parsed(p, t))
  {
    var u, q := PathParts(p);
    PathReads(u, q, t);
  }

  lemma PathCut(s: string)
    requires AttributePath(s).Some?
    ensures WfPath(AttributePath(s).value.value)
    ensures s == AttributePath(s).value.value + AttributePath(s).value.rest
  {
    var u, q := PathParts(s);
    PathReads(u, q, []);
    assert u + q + [] == u + q;
  }

  // ---- Splitting a path and putting it together again ----

  lemma {:induction false} LastIndexAppend(c: char, s: string, t: string)
    requires c !in t
    ensures LastIndex(c, s + t) == LastIndex(c, s)
  {
    if t == [] {
      assert s + t == s;
    } else {
      assert (s + t)[..|s + t| - 1] == s + t[..|t| - 1];
      LastIndexAppend(c, s, t[..|t| - 1]);
    }
  }

  lemma {:induction false} FirstIndexAppend(c: char, s: string, t: string)
    requires c !in s
    ensures FirstIndex(c, s + [c] + t) == Some(|s|)
    ensures FirstIndex(c, s) == None
  {
    if s != [] {
      assert (s + [c] + t)[1..] == s[1..] + [c] + t;
      FirstIndexAppend(c, s[1..], t);
    }
  }

  lemma NameTextBack(uri: string, q: string)
    requires NamePart(q)
    ensures PathText(SplitName(uri, q)) == if uri != "" then uri + ":" + q else q
    ensures SplitName(uri, q).uri == uri
  {
    var n := MatchName(q);
    NameCut(q);
    NameChars(q[..n]);
    if n == |q| {
      assert q[..n] == q;
      FirstIndexAppend('.', q, []);
    } else {
      FirstIndexAppend('.', q[..n], q[n + 1..]);
      assert q[..n] + ['.'] + q[n + 1..] == q;
      assert q[..n] + "." + q[n + 1..] == q;
    }
  }

  lemma LastOf(c: char, s: string)
    requires s != [] && s[|s| - 1] == c
    ensures LastIndex(c, s) == Some(|s| - 1)
  {
  }

  lemma PathTextBackUri(u: string, q: string)
    requires |u| > 1 && u[|u| - 1] == ':' && NamePart(q)
    ensures PathText(SplitPath(u + q)) == u + q
  {
    hide NamePart, LastIndex, SplitName, PathText;
    var p, i := u + q, |u| - 1;
    NamePartNoColon(q);
    LastIndexAppend(':', u, q);
    LastOf(':', u);
    assert p[..i] == u[..i] && p[i + 1..] == q;
    NameTextBack(u[..i], q);
    assert u[..i] + ":" == u;
  }

  lemma PathTextBack(p: string)
    requires WfPath(p)
    ensures PathText(SplitPath(p)) == p
  {
    var u, q := PathParts(p);
    assert p == u + q;
    if u == [] {
      NamePartNoColon(q);
      assert p == q && [] + q == q;
      LastIndexAppend(':', [], q);
      NameTextBack("", q);
    } else {
      PathTextBackUri(u, q);
    }
  }
}
