// Inputs on which the engine does what one would not expect of it.
module PatchExamples {
  import opened Wrappers
  import opened Text
  import opened PatchObject
  import opened PatchValue
  import opened PatchEngine
  import opened PatchMutability
  import opened PatchIndex
  import opened PatchImmutable
  import opened PatchEffect
  import opened PatchMembers
  import FilterGrammar
  import FilterLexer
  import FilterPath
  import FilterPrint

  // ---- Paths of names ----

  predicate IsName(name: string) {
    name != [] && FilterLexer.MatchName(name) == |name|
  }

  lemma NameReads(path: string)
    requires FilterPrint.NamePart(path)
    ensures FilterPrint.WfPath(path)
  {
    hide FilterPrint.NamePart, FilterGrammar.AttributePath;
    FilterPrint.PathReads("", path, []);
    assert "" + path + [] == "" + path == path;
  }

  lemma NameSplits(path: string)
    requires ':' !in path
    ensures FilterPrint.SplitPath(path) == FilterPrint.SplitName("", path)
  {
    hide FilterPrint.SplitName;
    FilterPrint.LastIndexAppend(':', "", path);
    assert "" + path == path;
  }

  lemma NameAlone(name: string, sub: string)
    requires IsName(name)
    ensures ':' !in name && FilterPrint.SplitName("", name) == FilterPrint.AttrPath("", name, "")
    ensures FilterPrint.SplitName("", name + "." + sub) == FilterPrint.AttrPath("", name, sub)
  {
    hide FilterLexer.MatchName;
    FilterLexer.NameChars(name);
    FilterPrint.FirstIndexAppend('.', name, sub);
    var path := name + "." + sub;
    assert path[..|name|] == name && path[|name| + 1..] == sub;
  }

  lemma NamePaths(name: string, sub: string)
    requires IsName(name) && IsName(sub)
    ensures FilterPrint.WfPath(name) && FilterPrint.SplitPath(name) == FilterPrint.AttrPath("", name, "")
    ensures var path := name + "." + sub;
            FilterPrint.WfPath(path) && FilterPrint.SplitPath(path) == FilterPrint.AttrPath("", name, sub)
  {
    hide FilterLexer.MatchName, FilterPrint.WfPath, FilterPrint.SplitPath, FilterPrint.SplitName;
    var path := name + "." + sub;
    FilterPrint.NameWithSub(name, sub);
    FilterPrint.NamePartNoColon(path);
    NameReads(name);
    NameReads(path);
    NameAlone(name, sub);
    NameSplits(name);
    NameSplits(path);
  }

  // ---- Removing from an immutable list, and replacing in it ----

  const SUB := Attribute("y", StringKind, false, false, true, ReadWrite, false, [])
  const LIST := Attribute("x", ComplexKind, true, false, false, Immutable, false, [SUB])
  const EXAMPLE := Schemas(Schema("urn", [LIST]), [])

  // A resource with this one element in its one attribute.
  function Holding(element: Object): Object {
    map["x" := List([Obj(element)])]
  }

  lemma ExampleLocates(p: Patcher, filter: Option<FilterGrammar.Node>, selects: Option<Predicate>)
    requires p.schemas == EXAMPLE && Compiled(p, LIST, filter) == Ok(selects)
    ensures Locate(p, FilterPath.Path(FilterPrint.AttrPath("", "x", "y"), filter))
         == Ok(Target("", "x", "y", selects, LIST, SUB))
  {
  }

  lemma ShortNames()
    ensures IsName("x") && IsName("y")
  {
  }

  // A removal from the resource itself, as it is sent.
  lemma RemovalSent(p: Patcher, root: Object, path: string, parsed: FilterPath.Path, t: Target, after: Object)
    requires FilterPath.ParsePath(path) == Some(parsed) && Locate(p, parsed) == Ok(t) && t.extension == ""
    requires RemoveIn(root, t) == Ok(after)
    ensures Apply(p, root, Operation("remove", path, None)) == Ok(after)
  {
    hide RemoveIn, Locate, FilterPath.ParsePath, Lower;
    SomePath(path);
    LowerWords();
    assert Lower("remove") != "add" && Lower("remove") != "replace";
  }

  // The elements of an example, before and after.
  lemma ExampleRemoved(t: Target)
    requires t == Target("", "x", "y", None, LIST, SUB)
    ensures RemoveIn(Holding(map["y" := Str("a")]), t) == Ok(Holding(map[]))
  {
    hide Get, Set, Remove, RemoveIn, Lookup, Kept;
    var o: Object := map["y" := Str("a")];
    ExampleDefines();
    HeldUnder(o, "y");
    var q := SubRemoved(t, o);
    RemovedOnly("y", Str("a"));
    SetOnly("x", List([Obj(o)]), List([Obj(q)]));
  }

  // Removing "x.y" from [{y: "a"}] leaves [{}].
  lemma RemovalExample(p: Patcher)
    requires p.schemas == EXAMPLE
    ensures Apply(p, Holding(map["y" := Str("a")]), Operation("remove", "x.y", None)) == Ok(Holding(map[]))
  {
    hide RemoveIn, Locate, FilterPath.ParsePath, Apply, FilterPrint.SplitPath, FilterPrint.WfPath, IsName, Holding;
    var t := Target("", "x", "y", None, LIST, SUB);
    ShortNames();
    NamePaths("x", "y");
    assert "x" + "." + "y" == "x.y";
    FilterPath.PlainPathReads("x.y");
    ExampleLocates(p, None, None);
    ExampleRemoved(t);
    RemovalSent(p, Holding(map["y" := Str("a")]), "x.y", FilterPath.Path(FilterPrint.AttrPath("", "x", "y"), None), t,
                Holding(map[]));
  }

  lemma ExampleDefines()
    ensures Lookup(LIST.subs, "y") == Some(SUB)
  {
  }

  lemma RemovedOnly(name: string, v: Json)
    ensures Remove(map[name := v], name) == map[]
  {
  }

  lemma SetOnly(name: string, v: Json, w: Json)
    ensures Set(map[name := v], name, w) == map[name := w]
  {
  }

  // A replacement in the resource itself, as it is sent.
  lemma ReplacementSent(p: Patcher, root: Object, path: string, parsed: FilterPath.Path, t: Target, v: Json,
                        after: Object)
    requires FilterPath.ParsePath(path) == Some(parsed) && Locate(p, parsed) == Ok(t) && t.extension == ""
    requires WriteIn(root, t, Replace, v, p.walk) == Ok(after)
    ensures Apply(p, root, Operation("replace", path, Some(v))) == Ok(after)
  {
    hide WriteIn, Locate, FilterPath.ParsePath, Lower;
    SomePath(path);
    LowerWords();
    assert Lower("replace") != "add";
  }

  lemma ExampleWritten(t: Target, walk: Object -> seq<string>)
    requires t.filter.Some? && TestsPresence("y", t.filter.value) && t == Target("", "x", "y", t.filter, LIST, SUB)
    ensures WriteIn(Holding(map["y" := Str("a")]), t, Replace, Str("b"), walk) == Ok(Holding(map["y" := Str("b")]))
  {
    hide Get, Set, WriteFiltered, Equal, Promotes;
    var o, q: Object := map["y" := Str("a")], map["y" := Str("b")];
    HeldUnder(o, "y");
    SetOnly("y", Str("a"), Str("b"));
    assert Selected(t, Obj(o));
    assert Put(o, t, Replace, Str("b"), [Obj(o)], walk) == Ok(q);
    OneWritten(t, o, Replace, Str("b"), walk, q);
    SetOnly("x", List([Obj(o)]), List([Obj(q)]));
  }

  lemma ExampleText()
    ensures FilterPath.PrintPath(Presence("x", "y", "y")) == "x[y pr].y"
  {
    hide FilterPrint.SplitPath, FilterPrint.WfPath;
    ShortNames();
    NamePaths("x", "y");
    NamePaths("y", "x");
    assert FilterPrint.Print(FilterGrammar.Present("y")) == "y pr";
  }

  // Replacing "x[y pr].y" by "b" turns [{y: "a"}] into [{y: "b"}].
  lemma ReplacementExample(p: Patcher, selects: Predicate)
    requires p.schemas == EXAMPLE
    requires p.compile(LIST, FilterGrammar.Present("y")) == Ok(selects) && TestsPresence("y", selects)
    ensures Apply(p, Holding(map["y" := Str("a")]), Operation("replace", "x[y pr].y", Some(Str("b"))))
         == Ok(Holding(map["y" := Str("b")]))
  {
    hide WriteIn, Locate, FilterPath.ParsePath, FilterPath.PrintPath, Apply, FilterPrint.SplitPath, FilterPrint.WfPath,
         Holding, TestsPresence;
    var t := Target("", "x", "y", Some(selects), LIST, SUB);
    var parsed := Presence("x", "y", "y");
    ShortNames();
    NamePaths("x", "y");
    NamePaths("y", "x");
    ExampleText();
    FilterPath.FilteredPathReads("x", FilterGrammar.Present("y"), "y");
    ExampleLocates(p, Some(FilterGrammar.Present("y")), Some(selects));
    ExampleWritten(t, p.walk);
    ReplacementSent(p, Holding(map["y" := Str("a")]), "x[y pr].y", parsed, t, Str("b"), Holding(map["y" := Str("b")]));
  }

  // ---- A repeat that demotes ----

  const FLAG := Attribute("primary", BooleanKind, false, false, false, Immutable, false, [])
  const FLAGGED := Attribute("x", ComplexKind, true, false, false, Immutable, false, [SUB, FLAG])
  const FLAGGED_EXAMPLE := Schemas(Schema("urn", [FLAGGED]), [])

  const BOTH := FilterGrammar.And(
    FilterGrammar.Compare("y", FilterGrammar.Eq, FilterGrammar.Quoted("a")),
    FilterGrammar.Compare("primary", FilterGrammar.Eq, FilterGrammar.Bool(true)))

  // The primary elements whose y is "a".
  ghost predicate TestsBoth(selects: Predicate) {
    forall o: Object :: selects(Obj(o)) <==> Get(o, "y") == Str("a") && Get(o, "primary") == Bool(true)
  }

  function Marked(y: string, primary: bool): Object {
    map["y" := Str(y), "primary" := Bool(primary)]
  }

  lemma LongName()
    ensures IsName("primary")
  {
  }

  lemma FlagDefined()
    ensures Lookup(FLAGGED.subs, "primary") == Some(FLAG)
  {
    assert |Fold("y")| == 1 && |Fold("primary")| == 7;
    assert FLAGGED.subs[1..] == [FLAG];
    assert Lookup([FLAG], "primary") == Some(FLAG);
  }

  lemma FlagLocates(p: Patcher, selects: Predicate)
    requires p.schemas == FLAGGED_EXAMPLE && p.compile(FLAGGED, BOTH) == Ok(selects)
    ensures Locate(p, FilterPath.Path(FilterPrint.AttrPath("", "x", "primary"), Some(BOTH)))
         == Ok(Target("", "x", "primary", Some(selects), FLAGGED, FLAG))
  {
    FlagDefined();
    assert Lookup([FLAGGED], "x") == Some(FLAGGED);
  }

  lemma MarkedHolds(y: string, primary: bool)
    ensures Get(Marked(y, primary), "y") == Str(y) && Get(Marked(y, primary), "primary") == Bool(primary)
    ensures forall b :: Set(Marked(y, primary), "primary", Bool(b)) == Marked(y, b)
  {
    HeldUnder(Marked(y, primary), "y");
    HeldUnder(Marked(y, primary), "primary");
  }

  lemma FlagWritten(t: Target, selects: Predicate, walk: Object -> seq<string>)
    requires TestsBoth(selects) && t == Target("", "x", "primary", Some(selects), FLAGGED, FLAG)
    ensures WriteIn(map["x" := List([Obj(Marked("a", true)), Obj(Marked("b", true))])], t, Replace, Bool(true), walk)
         == Ok(map["x" := List([Obj(Marked("a", true)), Obj(Marked("b", false))])])
  {
    hide Get, Set, WriteFiltered, Equal, Marked;
    var o, other := Marked("a", true), Marked("b", true);
    var elements := [Obj(o), Obj(other)];
    MarkedHolds("a", true);
    MarkedHolds("b", true);
    EqualReflexive(FLAG, Bool(true));
    assert Selected(t, Obj(o)) && !Selected(t, Obj(other));
    assert Put(o, t, Replace, Bool(true), elements, walk) == Ok(o);
    PairFiltered(t, o, other, Replace, Bool(true), o, walk);
    assert Demoted(Obj(other)) == Obj(Marked("b", false));
    SetOnly("x", List(elements), List([Obj(o), Obj(Marked("b", false))]));
  }

  lemma NameText(name: string, op: FilterGrammar.Op, v: FilterGrammar.Literal)
    requires IsName(name)
    ensures FilterPrint.Print(FilterGrammar.Compare(name, op, v))
         == name + " " + FilterGrammar.OpWord(op) + " " + FilterPrint.LiteralText(v)
    ensures FilterPrint.WfPath(name)
  {
    hide FilterPrint.SplitPath, FilterPrint.WfPath, IsName;
    NamePaths(name, name);
  }

  lemma QuotedText()
    ensures FilterPrint.LiteralText(FilterGrammar.Quoted("a")) == "\"a\""
  {
  }

  lemma PartText()
    ensures FilterPrint.Print(BOTH.left) == "y eq \"a\"" && FilterPrint.Print(BOTH.right) == "primary eq true"
    ensures FilterPrint.Wf(BOTH, true)
  {
    hide FilterPrint.Print, FilterPrint.WfPath, FilterPrint.LiteralText, IsName;
    ShortNames();
    LongName();
    NameText("y", FilterGrammar.Eq, FilterGrammar.Quoted("a"));
    NameText("primary", FilterGrammar.Eq, FilterGrammar.Bool(true));
    QuotedText();
    FlagLiteral();
  }

  lemma JoinedText(l: FilterGrammar.Node, r: FilterGrammar.Node)
    ensures FilterPrint.Print(FilterGrammar.And(l, r)) ==
            "(" + FilterPrint.Print(l) + " and " + FilterPrint.Print(r) + ")"
  {
  }

  lemma BothText()
    ensures FilterPrint.Wf(BOTH, true) && FilterPrint.Print(BOTH) == "(y eq \"a\" and primary eq true)"
  {
    hide FilterPrint.Print, FilterPrint.Wf;
    PartText();
    JoinedText(BOTH.left, BOTH.right);
  }

  lemma FlagLiteral()
    ensures FilterPrint.LiteralText(FilterGrammar.Bool(true)) == "true"
  {
  }

  lemma FilteredText(name: string, sub: string, filter: FilterGrammar.Node)
    requires sub != ""
    ensures FilterPath.PrintPath(FilterPath.Path(FilterPrint.AttrPath("", name, sub), Some(filter)))
         == name + "[" + FilterPrint.Print(filter) + "]" + ("." + sub)
  {
    hide FilterPrint.Print;
  }

  lemma Assembled()
    ensures "x" + "[" + "(y eq \"a\" and primary eq true)" + "]" + ("." + "primary")
         == "x[(y eq \"a\" and primary eq true)].primary"
  {
    var front := "x[";
    assert "x" + "[" == front;
    var middle := "x[(y eq \"a\" and primary eq true)";
    assert front + "(y eq \"a\" and primary eq true)" == middle;
    var back := ".primary";
    assert "." + "primary" == back;
  }

  lemma FlagText()
    ensures FilterPath.PrintPath(FilterPath.Path(FilterPrint.AttrPath("", "x", "primary"), Some(BOTH)))
         == "x[(y eq \"a\" and primary eq true)].primary"
  {
    hide FilterPrint.Print, FilterPath.PrintPath;
    FilteredText("x", "primary", BOTH);
    BothText();
    Assembled();
  }

  // Replacing the primary flag of the one primary element whose y is "a" by true, which it is, sets that of the
  // other to false, though the list and the flag are immutable and the flag is assigned wherever the filter selects.
  lemma DemotionExample(p: Patcher, selects: Predicate)
    requires p.schemas == FLAGGED_EXAMPLE && p.compile(FLAGGED, BOTH) == Ok(selects) && TestsBoth(selects)
    ensures Apply(p, map["x" := List([Obj(Marked("a", true)), Obj(Marked("b", true))])],
                  Operation("replace", "x[(y eq \"a\" and primary eq true)].primary", Some(Bool(true))))
         == Ok(map["x" := List([Obj(Marked("a", true)), Obj(Marked("b", false))])])
    ensures forall o: Object :: selects(Obj(o)) ==> !Unheld(Target("", "x", "primary", Some(selects), FLAGGED, FLAG), o)
  {
    hide WriteIn, Locate, FilterPath.ParsePath, FilterPath.PrintPath, Apply, FilterPrint.SplitPath, FilterPrint.WfPath,
         Marked, FilterPrint.Wf, Get;
    var t := Target("", "x", "primary", Some(selects), FLAGGED, FLAG);
    var parsed := FilterPath.Path(FilterPrint.AttrPath("", "x", "primary"), Some(BOTH));
    ShortNames();
    LongName();
    NamePaths("x", "y");
    BothText();
    FlagText();
    FilterPath.FilteredPathReads("x", BOTH, "primary");
    FlagLocates(p, selects);
    FlagWritten(t, selects, p.walk);
    ReplacementSent(p, map["x" := List([Obj(Marked("a", true)), Obj(Marked("b", true))])],
                    "x[(y eq \"a\" and primary eq true)].primary", parsed, t, Bool(true),
                    map["x" := List([Obj(Marked("a", true)), Obj(Marked("b", false))])]);
  }

  // ---- Adding to a list called "primary" ----

  const LISTED := Attribute("primary", ComplexKind, true, false, false, ReadWrite, false, [SUB])
  const LISTED_EXAMPLE := Schemas(Schema("urn", [LISTED]), [])

  lemma AddSent(p: Patcher, root: Object, path: string, parsed: FilterPath.Path, t: Target, v: Json, after: Object)
    requires FilterPath.ParsePath(path) == Some(parsed) && Locate(p, parsed) == Ok(t) && t.extension == ""
    requires WriteIn(root, t, Add, v, p.walk) == Ok(after)
    ensures Apply(p, root, Operation("add", path, Some(v))) == Ok(after)
  {
    hide WriteIn, Locate, FilterPath.ParsePath, Lower;
    SomePath(path);
    LowerWords();
  }

  lemma ListedLocates(p: Patcher)
    requires p.schemas == LISTED_EXAMPLE
    ensures Locate(p, FilterPath.Path(FilterPrint.AttrPath("", "primary", ""), None))
         == Ok(Target("", "primary", "", None, LISTED, LISTED))
  {
    assert Lookup([LISTED], "primary") == Some(LISTED);
  }

  lemma ListedWritten(t: Target, walk: Object -> seq<string>)
    requires t == Target("", "primary", "", None, LISTED, LISTED)
    ensures WriteIn(map["primary" := List([Obj(Marked("a", true))])], t, Add, Obj(Marked("b", true)), walk)
         == Ok(map["primary" := List([Obj(Marked("a", true)), Obj(Marked("b", true))])])
  {
    hide Get, Set, WriteWhole, Marked, SameElement, StripReadOnly;
    var x, y := Obj(Marked("a", true)), Obj(Marked("b", true));
    var container: Object := map["primary" := List([x])];
    HeldUnder(container, "primary");
    MarkedStripped("b");
    MarkedApart();
    assert !Contains(LISTED, [x], y);
    assert Fresh(LISTED, [x], [y][1..]) == [];
    assert Fresh(LISTED, [x], [y]) == [y];
    UniqueOfOne(LISTED, y);
    assert [x] + [y] == [x, y];
    assert Added(LISTED, [x], y) == [x, y];
    AddedIsWritten(container, t, y, walk);
    SetOnly("primary", List([x]), List([x, y]));
  }

  lemma MarkedStripped(y: string)
    ensures StripReadOnly(LISTED, Obj(Marked(y, true))) == Obj(Marked(y, true))
  {
    SubDefined();
    assert StripFields(LISTED, Marked(y, true)) == Marked(y, true);
  }

  lemma SubDefined()
    ensures Lookup(LISTED.subs, "y") == Some(SUB) && Lookup(LISTED.subs, "primary") == None
    ensures Lookup(LISTED.subs, "value") == None && Identifying(LISTED.subs) == [SUB]
  {
    assert |Fold("y")| == 1 && |Fold("primary")| == 7 && |Fold("value")| == 5;
    assert LISTED.subs[1..] == [];
  }

  // The elements are told apart by y.
  lemma MarkedApart()
    ensures !SameElement(LISTED, Obj(Marked("a", true)), Obj(Marked("b", true)))
  {
    hide Get;
    SubDefined();
    MarkedHolds("a", true);
    MarkedHolds("b", true);
    TextsApart();
    assert FoldedValues([SUB], Marked("a", true))[0] == Normal(CanonicalOf(SUB, Str("a")));
    assert FoldedValues([SUB], Marked("b", true))[0] == Normal(CanonicalOf(SUB, Str("b")));
  }

  lemma TextsApart()
    ensures Normal(CanonicalOf(SUB, Str("a"))) != Normal(CanonicalOf(SUB, Str("b")))
  {
    assert |Fold("y")| == 1 && |Fold("userName")| == 8;
    assert "a"[0] != "b"[0];
  }

  // Adding a primary value to a list called "primary" leaves two values primary.
  lemma TwoPrimaryExample(p: Patcher)
    requires p.schemas == LISTED_EXAMPLE
    ensures Apply(p, map["primary" := List([Obj(Marked("a", true))])],
                  Operation("add", "primary", Some(Obj(Marked("b", true)))))
         == Ok(map["primary" := List([Obj(Marked("a", true)), Obj(Marked("b", true))])])
    ensures Primary(Obj(Marked("a", true))) && Primary(Obj(Marked("b", true)))
  {
    hide WriteIn, Locate, FilterPath.ParsePath, Apply, FilterPrint.SplitPath, FilterPrint.WfPath, Marked, Get;
    var t := Target("", "primary", "", None, LISTED, LISTED);
    LongName();
    NamePaths("primary", "primary");
    FilterPath.PlainPathReads("primary");
    ListedLocates(p);
    ListedWritten(t, p.walk);
    MarkedHolds("a", true);
    MarkedHolds("b", true);
    AddSent(p, map["primary" := List([Obj(Marked("a", true))])], "primary",
            FilterPath.Path(FilterPrint.AttrPath("", "primary", ""), None), t, Obj(Marked("b", true)),
            map["primary" := List([Obj(Marked("a", true)), Obj(Marked("b", true))])]);
  }

  // ---- Taking a blank readOnly value out with its extension ----

  const WRITABLE := Attribute("a", StringKind, false, false, true, ReadWrite, false, [])
  const FIXED := Attribute("bb", StringKind, false, false, true, ReadOnly, false, [])
  const EXTENSION := Schema("u:e", [WRITABLE, FIXED])
  const EXTENDED_EXAMPLE := Schemas(Schema("base", []), [EXTENSION])

  function Extended(): Object {
    map["u:e" := Obj(map["a" := Str("v"), "bb" := Str("")])]
  }

  lemma ExtensionFound()
    ensures SchemaOf(EXTENDED_EXAMPLE, "u:e") == Some(EXTENSION)
    ensures Lookup(EXTENSION.attributes, "a") == Some(WRITABLE) && Lookup(EXTENSION.attributes, "bb") == Some(FIXED)
  {
    assert |Fold("base")| == 4 && |Fold("u:e")| == 3 && |Fold("a")| == 1 && |Fold("bb")| == 2;
    assert EXTENSION.attributes[1..] == [FIXED] && Lookup([FIXED], "bb") == Some(FIXED);
  }

  lemma ExtensionPath()
    ensures FilterPrint.WfPath("u:e:a") && FilterPrint.SplitPath("u:e:a") == FilterPrint.AttrPath("u:e", "a", "")
  {
    hide FilterLexer.MatchUri, FilterGrammar.AttributePath, FilterPrint.LastIndex, FilterPrint.NamePart;
    UriReads();
    LetterReads();
    assert "u:e:" + "a" + [] == "u:e:a" && "u:e:" + "a" == "u:e:a";
    FilterPrint.PathReads("u:e:", "a", []);
    assert "u:e:a"[..3] == "u:e" && "u:e:a"[4..] == "a";
  }

  lemma UriReads()
    ensures FilterLexer.MatchUri("u:e:") == 4
  {
  }

  lemma LetterReads()
    ensures FilterPrint.NamePart("a") && FilterPrint.FirstIndex('.', "a") == None
    ensures FilterPrint.LastIndex(':', "u:e:a") == Some(3)
  {
    assert "u:e:a"[..4] == "u:e:";
  }

  lemma ExtensionLocates(p: Patcher)
    requires p.schemas == EXTENDED_EXAMPLE
    ensures Locate(p, FilterPath.Path(FilterPrint.AttrPath("u:e", "a", ""), None))
         == Ok(Target("u:e", "a", "", None, WRITABLE, WRITABLE))
  {
    hide SchemaOf, Lookup;
    ExtensionFound();
  }

  lemma ExtensionRemoved(t: Target)
    requires t == Target("u:e", "a", "", None, WRITABLE, WRITABLE)
    ensures RemoveAt(Extended(), t) == Ok(map[])
  {
    hide Get;
    var held: Object := map["a" := Str("v"), "bb" := Str("")];
    HeldUnder(Extended(), "u:e");
    HeldUnder(held, "a");
    assert Key(held, "a") == "a" && Remove(held, "a") == map["bb" := Str("")];
    assert AllUnassigned(map["bb" := Str("")]);
    assert Key(Extended(), "u:e") == "u:e" && Remove(Extended(), "u:e") == map[];
  }

  // Removing "u:e:a" takes "bb" with it, which is readOnly and present, though blank.
  lemma PrunedExample(p: Patcher)
    requires p.schemas == EXTENDED_EXAMPLE
    ensures Apply(p, Extended(), Operation("remove", "u:e:a", None)) == Ok(map[])
    ensures Defines(p.schemas, "u:e", "bb", FIXED) && At(Extended(), "u:e", "bb") == Str("")
    ensures At(map[], "u:e", "bb") == Null
  {
    hide RemoveAt, Locate, FilterPath.ParsePath, Lower, FilterPrint.SplitPath, FilterPrint.WfPath, SchemaOf, Lookup,
         Get;
    var t := Target("u:e", "a", "", None, WRITABLE, WRITABLE);
    ExtensionFound();
    ExtensionPath();
    FilterPath.PlainPathReads("u:e:a");
    ExtensionLocates(p);
    ExtensionRemoved(t);
    LowerWords();
    assert Lower("remove") != "add" && Lower("remove") != "replace";
    HeldUnder(Extended(), "u:e");
    HeldUnder(map["a" := Str("v"), "bb" := Str("")], "bb");
    NoneHeld("u:e");
    NoneHeld("bb");
  }

  lemma NoneHeld(name: string)
    ensures Get(map[], name) == Null
  {
  }

  // ---- A readOnly value of an extension, sent back ----

  const LOCKED := Attribute("a", StringKind, false, false, true, ReadOnly, false, [])
  const LOCKED_EXAMPLE := Schemas(Schema("base", []), [Schema("u:e", [LOCKED])])

  function Locked(): Object {
    map["u:e" := Obj(map["a" := Str("v")])]
  }

  lemma LockedFound()
    ensures SchemaOf(LOCKED_EXAMPLE, "u:e") == Some(Schema("u:e", [LOCKED])) && SchemaOf(LOCKED_EXAMPLE, "u:e:a").None?
    ensures Lookup([LOCKED], "a") == Some(LOCKED) && !EqualFold("u:e:a", "schemas")
  {
    assert |Fold("base")| == 4 && |Fold("u:e")| == 3 && |Fold("u:e:a")| == 5 && |Fold("schemas")| == 7;
    assert LOCKED_EXAMPLE.extensions[1..] == [] && FindSchema([], "u:e:a") == None;
    assert FindSchema(LOCKED_EXAMPLE.extensions, "u:e:a") == FindSchema(LOCKED_EXAMPLE.extensions[1..], "u:e:a");
  }

  lemma LockedPath()
    ensures KeyPath("u:e:a") == FilterPrint.AttrPath("u:e", "a", "")
  {
    hide FilterPrint.SplitPath, FilterGrammar.AttributePath;
    ExtensionPath();
  }

  // Sending the value of "u:e:a" back as it is, in a value without a path, is refused.
  lemma RepeatedExample(p: Patcher)
    requires p.schemas == LOCKED_EXAMPLE && EachOnce(p.walk)
    ensures At(Locked(), "u:e", "a") == Str("v")
    ensures Apply(p, Locked(), Operation("replace", "", Some(Obj(map["u:e:a" := Str("v")])))) == Err(NotMutable)
  {
    hide Apply, Get, SchemaOf, Lookup, KeyPath, Lower;
    LowerWords();
    LockedFound();
    LockedPath();
    HeldUnder(Locked(), "u:e");
    HeldUnder(map["a" := Str("v")], "a");
    assert |Fold("u:e")| == 3 && |Fold("a")| == 1;
    assert Matches(Locked(), "a") == {};
    var operation := Operation("replace", "", Some(Obj(map["u:e:a" := Str("v")])));
    ReadOnlyMember(p, Locked(), operation, "u:e:a", Str("v"), LOCKED);
  }
}
