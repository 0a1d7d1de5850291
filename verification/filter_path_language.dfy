// The language of PATCH paths (section 3.5.2 of RFC 7644), described without a parser: an attribute, or an attribute
// with a filter in brackets and perhaps a sub-attribute after them; and the proof that exactly these are accepted.
module FilterPathLanguage {
  import opened Wrappers
  import opened FilterLexer
  import opened FilterTokens
  import opened FilterGrammar
  import opened FilterPrint
  import opened FilterRoundTrip
  import opened FilterPath
  import opened FilterLanguage

  // The parts that the path addresses; the URI without its final colon.
  function Addressed(a: Attribute): AttrPath {
    AttrPath(if a.uri == [] then [] else a.uri[..|a.uri| - 1], a.name, if a.sub.Some? then a.sub.value else [])
  }

  ghost predicate DenotesAttribute(text: string, path: Path) {
    exists a :: WfAttribute(a) && text == AttributeText(a) && path == Path(Addressed(a), None)
  }

  // The sub-attribute stands behind the brackets, never before them.
  function SelectionText(a: Attribute, c: Phrases, sub: Option<string>): string {
    AttributeText(a) + ("[" + (PhrasesText(c) + ("]" + if sub.Some? then "." + sub.value else "")))
  }

  ghost predicate WfSelection(a: Attribute, c: Phrases, sub: Option<string>) {
    WfAttribute(a) && a.sub.None? && WfPhrases(c, true) && (sub.Some? ==> IsName(sub.value))
  }

  ghost predicate DenotesSelection(text: string, path: Path) {
    exists a, c, sub ::
      && WfSelection(a, c, sub) && text == SelectionText(a, c, sub)
      && path == Path(Addressed(a.(sub := sub)), Some(PhrasesTree(c)))
  }

  // ---- Splitting a path ----

  lemma UriEnds(uri: string)
    requires IsUri(uri)
    ensures |uri| > 1 && uri[|uri| - 1] == ':'
  {
    UriIsWord(uri);
    UriPrefix(uri);
    assert uri[..|uri|] == uri;
  }

  lemma SplitOfName(uri: string, a: Attribute)
    requires WfAttribute(a)
    ensures SplitName(uri, NameText(a)) == AttrPath(uri, a.name, if a.sub.Some? then a.sub.value else [])
  {
    hide IsName, IsUri;
    NameIsWord(a.name);
    NameChars(a.name);
    if a.sub.Some? {
      FirstIndexAppend('.', a.name, a.sub.value);
      assert NameText(a) == a.name + ['.'] + a.sub.value;
    } else {
      FirstIndexAppend('.', a.name, []);
      assert NameText(a) == a.name;
    }
  }

  lemma SplitOf(a: Attribute)
    requires WfAttribute(a)
    ensures SplitPath(AttributeText(a)) == Addressed(a)
  {
    hide WfAttribute, NameText, SplitName, NamePart;
    var q := NameText(a);
    AttributeParts(a);
    NamePartNoColon(q);
    LastIndexAppend(':', a.uri, q);
    if a.uri == [] {
      assert a.uri + q == q;
      SplitOfName([], a);
    } else {
      AttributeUri(a);
      UriEnds(a.uri);
      LastOf(':', a.uri);
      assert (a.uri + q)[..|a.uri| - 1] == a.uri[..|a.uri| - 1] && (a.uri + q)[|a.uri|..] == q;
      SplitOfName(a.uri[..|a.uri| - 1], a);
    }
  }

  lemma AttributeUri(a: Attribute)
    requires WfAttribute(a) && a.uri != []
    ensures IsUri(a.uri)
  {
  }

  // ---- Reading ----

  lemma AttributeParses(a: Attribute)
    requires WfAttribute(a)
    ensures ParsePath(AttributeText(a)) == Some(Path(Addressed(a), None))
  {
    hide WfAttribute, AttributePath, AttributeText, SplitPath, Filter;
    AttributeReads(a, []);
    assert AttributeText(a) + [] == AttributeText(a);
    SplitOf(a);
  }

  lemma SubAfter(sub: Option<string>)
    requires sub.Some? ==> IsName(sub.value)
    ensures SubAttribute(if sub.Some? then "." + sub.value else "") ==
            if sub.Some? then Some(Parsed(sub.value, [])) else None
    ensures sub.Some? ==> sub.value != []
  {
    if sub.Some? {
      NameIsWord(sub.value);
      SubAttributeReads(sub.value, []);
      assert "." + sub.value + [] == "." + sub.value;
    }
  }

  lemma SelectionParses(a: Attribute, c: Phrases, sub: Option<string>)
    requires WfSelection(a, c, sub)
    ensures ParsePath(SelectionText(a, c, sub)) == Some(Path(Addressed(a.(sub := sub)), Some(PhrasesTree(c))))
  {
    hide WfAttribute, WfPhrases, IsName, AttributePath, AttributeText, PhrasesText, PhrasesTree, SplitPath, Filter,
         WfPath, SubAttribute, AttributeExpr, ValuePathExpr;
    var t := if sub.Some? then "." + sub.value else "";
    AttributeIsPath(a);
    PhrasesRead(c, "]" + t, true);
    BracketsRead(AttributeText(a), PhrasesText(c), PhrasesTree(c), t);
    SubAfter(sub);
    SplitOf(a);
  }

  // ---- What is read was spelled ----

  lemma BracketsTaken(a: Attribute, n: Node, rest: string) returns (sub: Option<string>)
    requires WfAttribute(a) && AfterBrackets(AttributeText(a), n, rest).Some?
    ensures a.sub.None? && (sub.Some? ==> IsName(sub.value))
    ensures rest == if sub.Some? then "." + sub.value else ""
    ensures AfterBrackets(AttributeText(a), n, rest).value == Path(Addressed(a.(sub := sub)), Some(n))
  {
    hide WfAttribute, IsName, AttributeText, SplitPath, SubAttribute;
    SplitOf(a);
    SubOf(a);
    sub := SubTaken(rest);
  }

  lemma SelectionTaken(text: string)
    requires ParsePath(text).Some? && ValuePathExpr(text).Some?
    ensures DenotesSelection(text, ParsePath(text).value)
  {
    hide WfAttribute, WfPhrases, IsName, AttributeText, PhrasesText, PhrasesTree, ValuePathExpr, AfterBrackets;
    var p := ValuePathTaken(text);
    var a, c, rest := p.attribute, p.body, ValuePathExpr(text).value.rest;
    var sub := BracketsTaken(a, PhrasesTree(c), rest);
    assert text == SelectionText(a, c, sub);
    assert WfSelection(a, c, sub);
  }

  lemma SubTaken(rest: string) returns (sub: Option<string>)
    requires SubAttribute(rest).Some? ==> SubAttribute(rest).value.rest == []
    requires SubAttribute(rest).None? ==> rest == []
    ensures sub == if SubAttribute(rest).Some? then Some(SubAttribute(rest).value.value) else None
    ensures (sub.Some? ==> IsName(sub.value)) && rest == if sub.Some? then "." + sub.value else ""
  {
    sub := None;
    if SubAttribute(rest).Some? {
      NameLongest(rest[1..]);
      sub := Some(SubAttribute(rest).value.value);
      assert sub.value == rest[1..][..MatchName(rest[1..])];
    }
  }

  lemma SubOf(a: Attribute)
    requires WfAttribute(a)
    ensures Addressed(a).subAttribute == [] <==> a.sub.None?
  {
  }

  lemma AttributeOnly(text: string)
    requires ParsePath(text).Some? && ValuePathExpr(text).None?
    ensures DenotesAttribute(text, ParsePath(text).value)
  {
    hide WfAttribute, AttributePath, AttributeText, SplitPath, ValuePathExpr;
    var a := AttributeTaken(text);
    SplitOf(a);
    assert AttributeText(a) + [] == AttributeText(a);
  }

  // A text is a PATCH path exactly when it is an attribute, or an attribute with a filter in brackets.
  lemma PathParsesExactly(text: string, path: Path)
    ensures ParsePath(text) == Some(path) <==> DenotesAttribute(text, path) || DenotesSelection(text, path)
  {
    hide WfAttribute, WfSelection, AttributeText, SelectionText, PhrasesTree, ParsePath, ValuePathExpr;
    if ParsePath(text) == Some(path) {
      if ValuePathExpr(text).Some? {
        SelectionTaken(text);
      } else {
        AttributeOnly(text);
      }
    }
    if DenotesAttribute(text, path) {
      var a :| WfAttribute(a) && text == AttributeText(a) && path == Path(Addressed(a), None);
      AttributeParses(a);
    }
    if DenotesSelection(text, path) {
      var a, c, sub :|
        && WfSelection(a, c, sub) && text == SelectionText(a, c, sub)
        && path == Path(Addressed(a.(sub := sub)), Some(PhrasesTree(c)));
      SelectionParses(a, c, sub);
    }
  }
}
