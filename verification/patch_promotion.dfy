// When adding a primary value leaves no other value primary (section 3.5.2 of RFC 7644): always, unless the name of
// the attribute itself is taken for the flag.
module PatchPromotion {
  import opened Wrappers
  import opened Text
  import opened PatchObject
  import opened PatchValue
  import opened PatchEngine
  import opened PatchMutability
  import opened PatchPrimary
  import opened PatchIndex
  import opened PatchImmutable
  import FilterPath

  // Every operation with this word and path that succeeds and makes a value primary leaves only values primary
  // that it wrote, whatever the resource and the value.
  ghost predicate DemotesBy(p: Patcher, word: string, path: string, t: Target) {
    forall root, value |
      && Tidy(p.schemas, root) && Apply(p, root, Operation(word, path, Some(value))).Ok?
      && MakesPrimary(t, Effective(t, At(root, t.extension, t.name), OpOf(word), value)) ::
      PrimaryIsWritten(t, OpOf(word), At(root, t.extension, t.name),
                       At(Apply(p, root, Operation(word, path, Some(value))).value, t.extension, t.name))
  }

  lemma SentAsWrite(p: Patcher, root: Object, word: string, path: string, parsed: FilterPath.Path, value: Json)
    requires FilterPath.ParsePath(path) == Some(parsed) && (Lower(word) == "add" || Lower(word) == "replace")
    ensures Apply(p, root, Operation(word, path, Some(value))) == WriteAt(p, root, parsed, OpOf(word), value)
  {
    hide WriteAt, FilterPath.ParsePath, Lower;
    SomePath(path);
  }

  // ---- Where nobody may be left primary ----

  // Wherever the engine does not mistake the name, with a filter, a sub-attribute or a replacement included.
  lemma UnskippedDemotes(p: Patcher, word: string, path: string, parsed: FilterPath.Path, t: Target)
    requires WellNamed(p.schemas) && FilterPath.ParsePath(path) == Some(parsed) && Locate(p, parsed) == Ok(t)
    requires (Lower(word) == "add" || Lower(word) == "replace") && !Skips(t, OpOf(word))
    ensures DemotesBy(p, word, path, t)
  {
    hide Apply, WriteAt, At, Tidy, WellNamed, Locate, FilterPath.ParsePath, MakesPrimary, Effective, PrimaryIsWritten,
         Skips, Lower;
    forall root, value |
      && Tidy(p.schemas, root) && Apply(p, root, Operation(word, path, Some(value))).Ok?
      && MakesPrimary(t, Effective(t, At(root, t.extension, t.name), OpOf(word), value))
      ensures PrimaryIsWritten(t, OpOf(word), At(root, t.extension, t.name),
                               At(Apply(p, root, Operation(word, path, Some(value))).value, t.extension, t.name))
    {
      SentAsWrite(p, root, word, path, parsed, value);
      PromotionDemotes(p, root, parsed, OpOf(word), value);
    }
  }

  // A replacement demotes, whatever the attribute is called.
  lemma ReplaceDemotes(p: Patcher, word: string, path: string, parsed: FilterPath.Path, t: Target)
    requires WellNamed(p.schemas) && FilterPath.ParsePath(path) == Some(parsed) && Locate(p, parsed) == Ok(t)
    requires Lower(word) == "replace"
    ensures DemotesBy(p, word, path, t)
  {
    hide DemotesBy, Locate, FilterPath.ParsePath, WellNamed;
    UnskippedDemotes(p, word, path, parsed, t);
  }

  // ---- Where no add can make a value primary, or not beside another ----

  // Nothing is primary once the flag is taken out as readOnly.
  lemma StrippedNotPrimary(a: Attribute, v: Json)
    requires SubAttribute(a, "primary").mutability == ReadOnly
    ensures !Primary(StripReadOnly(a, v))
  {
    if v.Obj? {
      var o := StripFields(a, v.fields);
      if Primary(Obj(o)) {
        var k := Key(o, "primary");
        assert k in o;
        SubFold(a, k, "primary");
      }
    }
  }

  lemma {:induction false} FreshFrom(a: Attribute, elements: seq<Json>, candidates: seq<Json>)
    ensures forall v :: v in Fresh(a, elements, candidates) ==> v in candidates
  {
    hide Contains;
    if candidates != [] {
      FreshFrom(a, elements, candidates[1..]);
    }
  }

  lemma StrippedListed(a: Attribute, v: Json, w: Json)
    requires SubAttribute(a, "primary").mutability == ReadOnly && w in ListOf(StripReadOnly(a, v))
    ensures !Primary(w)
  {
    hide Primary, SubAttribute;
    if v.List? {
      var i :| 0 <= i < |v.elements| && StripReadOnly(a, v).elements[i] == w;
      StrippedNotPrimary(a, v.elements[i]);
    } else {
      StrippedNotPrimary(a, v);
    }
  }

  lemma NothingPrimaryAdded(t: Target, before: Json, incoming: Json)
    requires IsListAdd(t, Add) && SubAttribute(t.attr, "primary").mutability == ReadOnly
    ensures !MakesPrimary(t, Effective(t, before, Add, incoming))
  {
    hide Primary, SubAttribute, StripReadOnly, Fresh;
    var stripped := StripReadOnly(t.attr, incoming);
    var added := Fresh(t.attr, ElementsAt(before), ListOf(stripped));
    FreshFrom(t.attr, ElementsAt(before), ListOf(stripped));
    forall i | 0 <= i < |added| ensures !Primary(added[i]) {
      assert added[i] in added;
      StrippedListed(t.attr, incoming, added[i]);
    }
    ListNotPrimary(added);
  }

  // An immutable list that is assigned takes nothing more; one that is not holds nobody else.
  lemma ImmutableTakesNone(container: Object, t: Target, incoming: Json, walk: Object -> seq<string>)
    requires IsListAdd(t, Add) && t.attr == t.parent && t.attr.mutability == Immutable
    requires WriteIn(container, t, Add, incoming, walk).Ok?
    requires MakesPrimary(t, Effective(t, Get(container, t.name), Add, incoming))
    ensures ElementsAt(Get(container, t.name)) == []
  {
    hide Get, Set, Fresh, Unique, StripReadOnly, AddedTo, Primary, Equal;
    var before := Get(container, t.name);
    var stripped := StripReadOnly(t.attr, incoming);
    var left := Fresh(t.attr, ElementsAt(before), ListOf(stripped));
    AddedIsWritten(container, t, stripped, walk);
    if !IsUnassigned(before) {
      EqualWhole(t.attr, before, List(Added(t.attr, ElementsAt(before), stripped)));
      assert |before.elements + Unique(t.attr, left)| == |before.elements| + |Unique(t.attr, left)|;
      UniqueOfSome(t.attr, left);
      ListNotPrimary(left);
    }
  }

  // ---- Where two are left primary ----

  // A sub-attribute that tells elements apart, if there is one.
  function Telling(a: Attribute): (name: string)
    ensures !EqualFold(name, "primary")
  {
    var subs := Identifying(a.subs);
    IdentifyingNotPrimary(a.subs);
    assert |Fold("x")| == 1 && |Fold("primary")| == 7;
    if subs == [] then "x" else subs[0].name
  }

  function Newcomer(): Object {
    map["primary" := Bool(true)]
  }

  function Resident(a: Attribute): Object {
    Newcomer()[Telling(a) := Bool(true)]
  }

  lemma BothPrimary(a: Attribute)
    ensures Primary(Obj(Newcomer())) && Primary(Obj(Resident(a)))
  {
    hide Get;
    HeldUnder(Newcomer(), "primary");
    assert "primary" in Newcomer();
    GetOther(Newcomer(), Telling(a), Bool(true), "primary");
  }

  lemma NotTheSame(a: Attribute)
    ensures !SameElement(a, Obj(Resident(a)), Obj(Newcomer()))
  {
    hide Get, Equal;
    var o, q := Resident(a), Newcomer();
    var name := Telling(a);
    assert name in o && name !in q;
    if !KeyedByIdentity(a) {
      EqualWhole(a, Obj(o), Obj(q));
    } else {
      assert |Fold("primary")| == 7 && |Fold("value")| == 5;
      NothingElse(q, "primary", Bool(true), "value");
      var subs := Identifying(a.subs);
      if Lookup(a.subs, "value").None? && subs != [] {
        HeldUnder(o, name);
        NothingElse(q, "primary", Bool(true), name);
        assert FoldedValues(subs, o)[0] == Normal(CanonicalOf(subs[0], Bool(true)));
        assert FoldedValues(subs, q)[0] == Normal(CanonicalOf(subs[0], Null));
        FlagsDiffer(subs[0]);
      }
    }
  }

  lemma NothingElse(o: Object, key: string, v: Json, name: string)
    requires o == map[key := v] && !EqualFold(key, name)
    ensures Get(o, name) == Null
  {
    GetOther(map[], key, v, name);
    assert o == map[][key := v];
  }

  lemma FlagsDiffer(a: Attribute)
    ensures Normal(CanonicalOf(a, Bool(true))) != Normal(CanonicalOf(a, Null))
  {
  }

  // The resident stays primary beside the newcomer.
  lemma BothStay(t: Target, walk: Object -> seq<string>)
    requires IsListAdd(t, Add) && t.attr == t.parent && EqualFold(t.name, "primary")
    requires t.attr.mutability != Immutable && SubAttribute(t.attr, "primary").mutability != ReadOnly
    ensures var was, now := [Obj(Resident(t.attr))], [Obj(Resident(t.attr)), Obj(Newcomer())];
            && WriteIn(map[t.name := List(was)], t, Add, Obj(Newcomer()), walk)
            == Ok(Set(map[t.name := List(was)], t.name, List(now)))
            && MakesPrimary(t, Effective(t, List(was), Add, Obj(Newcomer())))
            && !PrimaryIsWritten(t, Add, List(was), List(now))
  {
    hide Get, Set, Primary, Resident, Newcomer, SameElement, StripReadOnly, WriteWhole;
    var o, q := Obj(Resident(t.attr)), Obj(Newcomer());
    var container: Object := map[t.name := List([o])];
    HeldUnder(container, t.name);
    BothPrimary(t.attr);
    NotTheSame(t.attr);
    NewcomerKept(t.attr);
    assert !Contains(t.attr, [o], q);
    assert Fresh(t.attr, [o], [q][1..]) == [];
    assert Fresh(t.attr, [o], [q]) == [q];
    UniqueOfOne(t.attr, q);
    assert [o] + [q] == [o, q];
    assert Added(t.attr, [o], q) == [o, q];
    AddedIsWritten(container, t, q, walk);
    assert List([q]).elements[0] == q;
    assert !OnlyWritten([o, q], Written(t, [o], [o, q], Add)) by {
      assert Primary([o, q][0]);
    }
  }

  lemma NewcomerKept(a: Attribute)
    requires SubAttribute(a, "primary").mutability != ReadOnly
    ensures StripReadOnly(a, Obj(Newcomer())) == Obj(Newcomer())
  {
    assert StripFields(a, Newcomer()) == Newcomer();
  }

  // ---- Exactly ----

  lemma AddBreaks(p: Patcher, word: string, path: string, parsed: FilterPath.Path, t: Target)
    requires WellNamed(p.schemas) && FilterPath.ParsePath(path) == Some(parsed) && Locate(p, parsed) == Ok(t)
    requires Lower(word) == "add" && t.filter.None? && t.sub == "" && t.attr.multi && EqualFold(t.name, "primary")
    requires t.attr.mutability != Immutable && SubAttribute(t.attr, "primary").mutability != ReadOnly
    ensures !DemotesBy(p, word, path, t)
  {
    hide Apply, WriteAt, WriteIn, At, Tidy, WellNamed, Locate, FilterPath.ParsePath, MakesPrimary, Effective,
         PrimaryIsWritten, Lower, Set, Resident, Newcomer, Only, SubAttribute;
    LocateFinds(p, parsed);
    var was, now := [Obj(Resident(t.attr))], [Obj(Resident(t.attr)), Obj(Newcomer())];
    var root := Only(t, List(was));
    BothStay(t, p.walk);
    WrittenTo(p, parsed, t, Add, was, Obj(Newcomer()), now);
    OnlyHolds(t, List(was));
    OnlyTidy(p.schemas, t, List(was));
    SentAsWrite(p, root, word, path, parsed, Obj(Newcomer()));
  }

  lemma AddKeeps(p: Patcher, word: string, path: string, parsed: FilterPath.Path, t: Target)
    requires WellNamed(p.schemas) && FilterPath.ParsePath(path) == Some(parsed) && Locate(p, parsed) == Ok(t)
    requires Lower(word) == "add" && t.filter.None? && t.sub == "" && t.attr.multi
    requires t.attr.mutability == Immutable || SubAttribute(t.attr, "primary").mutability == ReadOnly
    ensures DemotesBy(p, word, path, t)
  {
    hide Apply, WriteAt, WriteIn, At, Tidy, WellNamed, Locate, FilterPath.ParsePath, MakesPrimary, Effective,
         PrimaryIsWritten, Lower, SubAttribute;
    LocateFinds(p, parsed);
    forall root, value |
      && Tidy(p.schemas, root) && Apply(p, root, Operation(word, path, Some(value))).Ok?
      && MakesPrimary(t, Effective(t, At(root, t.extension, t.name), OpOf(word), value))
      ensures PrimaryIsWritten(t, OpOf(word), At(root, t.extension, t.name),
                               At(Apply(p, root, Operation(word, path, Some(value))).value, t.extension, t.name))
    {
      SentAsWrite(p, root, word, path, parsed, value);
      if SubAttribute(t.attr, "primary").mutability == ReadOnly {
        NothingPrimaryAdded(t, At(root, t.extension, t.name), value);
      } else {
        WroteInside(p, root, parsed, Add, value, t);
        ImmutableTakesNone(Container(root, t.extension), t, value, p.walk);
        EveryoneNew(t, At(root, t.extension, t.name),
                    At(Apply(p, root, Operation(word, path, Some(value))).value, t.extension, t.name));
      }
    }
  }

  lemma WroteInside(p: Patcher, root: Object, parsed: FilterPath.Path, op: Op, value: Json, t: Target)
    requires Locate(p, parsed) == Ok(t) && WriteAt(p, root, parsed, op, value).Ok?
    ensures WriteIn(Container(root, t.extension), t, op, value, p.walk).Ok?
    ensures At(root, t.extension, t.name) == Get(Container(root, t.extension), t.name)
  {
    hide Locate, WriteIn;
  }

  lemma EveryoneNew(t: Target, before: Json, after: Json)
    requires t.filter.None? && t.sub == "" && ElementsAt(before) == []
    ensures PrimaryIsWritten(t, Add, before, after)
  {
  }

  // Adding a primary value to a list leaves nobody else primary exactly when the list is not called "primary";
  // apart from lists that take no primary value beside another: immutable ones, and those whose flag is readOnly.
  lemma AddDemotesExactly(p: Patcher, word: string, path: string, parsed: FilterPath.Path, t: Target)
    requires WellNamed(p.schemas) && FilterPath.ParsePath(path) == Some(parsed) && Locate(p, parsed) == Ok(t)
    requires Lower(word) == "add" && t.filter.None? && t.sub == "" && t.attr.multi
    ensures DemotesBy(p, word, path, t) <==>
            || !EqualFold(t.name, "primary")
            || t.attr.mutability == Immutable || SubAttribute(t.attr, "primary").mutability == ReadOnly
  {
    hide DemotesBy, Locate, FilterPath.ParsePath, WellNamed, SubAttribute, EqualFold, Lower;
    if t.attr.mutability == Immutable || SubAttribute(t.attr, "primary").mutability == ReadOnly {
      AddKeeps(p, word, path, parsed, t);
    } else if EqualFold(t.name, "primary") {
      AddBreaks(p, word, path, parsed, t);
    } else {
      UnskippedDemotes(p, word, path, parsed, t);
    }
  }
}
