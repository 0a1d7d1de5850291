// Paths of PATCH operations (section 3.5.2 of RFC 7644): an attribute path, or a value path with an
// optional sub-attribute after its brackets.
module FilterPath {
  import opened Wrappers
  import opened FilterLexer
  import opened FilterGrammar
  import opened FilterPrint
  import opened FilterRoundTrip

  datatype Path = Path(attribute: AttrPath, filter: Option<Node>)

  // What follows the brackets of a value path.
  function AfterBrackets(path: string, filter: Node, rest: string): Option<Path> {
    var attribute := SplitPath(path);
    match SubAttribute(rest)
    case Some(sub) =>
      if sub.rest != [] || attribute.subAttribute != "" then None
      else Some(Path(attribute.(subAttribute := sub.value), Some(filter)))
    case None =>
      if rest != [] || attribute.subAttribute != "" then None else Some(Path(attribute, Some(filter)))
  }

  // A value path is tried first; once it matched, there is no going back to a plain attribute path.
  function ParsePath(text: string): Option<Path> {
    match ValuePathExpr(text)
    case Some(p) => if p.value.ValuePath? then AfterBrackets(p.value.path, p.value.filter, p.rest) else None
    case None =>
      match AttributePath(text)
      case None => None
      case Some(p) => if p.rest == [] then Some(Path(SplitPath(p.value), None)) else None
  }

  function PrintPath(p: Path): string {
    match p.filter
    case None => PathText(p.attribute)
    case Some(filter) =>
      PathText(p.attribute.(subAttribute := "")) + "[" + Print(filter) + "]" +
      if p.attribute.subAttribute != "" then "." + p.attribute.subAttribute else ""
  }

  lemma ValuePathIs(s: string)
    requires ValuePathExpr(s).Some?
    ensures ValuePathExpr(s).value.value.ValuePath?
    ensures AttributePath(s).Some? && ValuePathExpr(s).value.value.path == AttributePath(s).value.value
  {
    hide AttributePath, Filter;
  }

  lemma SubAttributeIs(s: string)
    requires SubAttribute(s).Some?
    ensures SubAttribute(s).value.value != "" &&
            MatchName(SubAttribute(s).value.value) == |SubAttribute(s).value.value|
  {
    NameCut(s[1..]);
    assert s[1..][..MatchName(s[1..])] == s[1..1 + MatchName(s[1..])];
  }

  // A printed value path is read back, with what stands after its brackets left to read.
  lemma FilteredReads(path: string, filter: Node, t: string)
    requires WfPath(path) && Wf(filter, true)
    ensures ValuePathExpr(path + "[" + Print(filter) + "]" + t) == Some(Parsed(ValuePath(path, filter), t))
  {
    hide Filter, AttributePath, ValuePathExpr, Atom, Wf, WfPath;
    PrintReads(filter, "]" + t, true);
    FilterOfAtom(Print(filter) + ("]" + t), filter, "]" + t, true);
    BracketsRead(path, Print(filter), filter, t);
    Regroup(path, "[", Print(filter), "]", t);
  }

  lemma PlainPathReads(path: string)
    requires WfPath(path)
    ensures ParsePath(path) == Some(Path(SplitPath(path), None))
  {
    hide AttributePath, SplitPath, Filter;
    assert ValuePathExpr(path) == None;
  }

  lemma FilteredPathReads(path: string, filter: Node, sub: string)
    requires WfPath(path) && Wf(filter, true) && SplitPath(path).subAttribute == ""
    requires sub != "" ==> MatchName(sub) == |sub|
    ensures var p := Path(SplitPath(path).(subAttribute := sub), Some(filter));
            ParsePath(PrintPath(p)) == Some(p)
  {
    hide AttributePath, SplitPath, PathText, Wf, ValuePathExpr, Print, MatchName;
    var p := Path(SplitPath(path).(subAttribute := sub), Some(filter));
    PathTextBack(path);
    var t := if sub != "" then "." + sub else "";
    FilteredReads(path, filter, t);
    assert PrintPath(p) == path + "[" + Print(filter) + "]" + t;
    if sub != "" {
      SubAttributeReads(sub, []);
      assert "." + sub + [] == t;
    }
  }

  // Whatever path the grammar accepts, printing it and reading that again changes nothing.
  lemma AcceptedPathRoundTrips(text: string)
    requires ParsePath(text).Some?
    ensures ParsePath(PrintPath(ParsePath(text).value)) == ParsePath(text)
  {
    hide AttributePath, SplitPath, PathText, Wf, ValuePathExpr, Print, MatchName;
    var v := ValuePathExpr(text);
    if v.None? {
      PathCut(text);
      var path := AttributePath(text).value.value;
      PathTextBack(path);
      PlainPathReads(path);
    } else {
      ValuePathIs(text);
      ValuePathWf(text);
      FilterInside(v.value.value);
      var node, rest := v.value.value, v.value.rest;
      if SubAttribute(rest).Some? {
        SubAttributeIs(rest);
        FilteredPathReads(node.path, node.filter, SubAttribute(rest).value.value);
      } else {
        FilteredPathReads(node.path, node.filter, "");
      }
    }
  }

  lemma FilterInside(n: Node)
    requires n.ValuePath? && Wf(n, false)
    ensures WfPath(n.path) && Wf(n.filter, true)
  {
  }
}
