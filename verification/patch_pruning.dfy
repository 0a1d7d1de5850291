// When a value that holds no data stays where it is: an extension none of whose attributes holds data is taken out
// of the resource, with all that was in it.
module PatchPruning {
  import opened Wrappers
  import opened Text
  import opened PatchObject
  import opened PatchValue
  import opened PatchEngine
  import opened PatchMutability
  import opened PatchPrimary
  import opened PatchImmutable
  import FilterPath

  // Every operation with this word and path that succeeds leaves this very value there, whatever else the resource
  // holds and whatever is sent.
  ghost predicate StaysBy(p: Patcher, word: string, path: string, extension: string, name: string, v: Json) {
    forall root, value |
      && Tidy(p.schemas, root) && At(root, extension, name) == v
      && Apply(p, root, Operation(word, path, value)).Ok? ::
      At(Apply(p, root, Operation(word, path, value)).value, extension, name) == v
  }

  // Without a filter the container is looked at afterwards, and it may have become blank; a write to a sub-attribute
  // of a list needs a filter to succeed.
  predicate MayPrune(word: string, t: Target) {
    t.filter.None? && (Lower(word) == "remove" || t.sub == "" || !t.parent.multi)
  }

  // ---- Where the value stays ----

  // Unless the extension was taken out, the container put back holds what it held under any other name.
  lemma StaysInside(s: Schemas, root: Object, t: Target, container: Object, prune: bool, name: string)
    requires Tidy(s, root) && Defines(s, t.extension, t.name, t.parent) && !EqualFold(t.name, name)
    requires OneKey(Container(root, t.extension), t.name, container)
    requires t.extension != "" && prune ==> !AllUnassigned(container) || At(root, t.extension, name) == Null
    ensures At(WithContainer(root, t.extension, container, prune), t.extension, name) == At(root, t.extension, name)
  {
    hide Get, Set, Remove, OneKey, AllUnassigned, SchemaOf;
    OneKeySame(Container(root, t.extension), t.name, container);
    GetSame(Container(root, t.extension), container, t.name, name);
    if t.extension != "" {
      DefinesId(s, t.extension, t.name, t.parent);
    }
    PutBackSame(s, root, t.extension, container, prune, name);
    if t.extension == "" || !prune {
      NotPruned(s, root, t, container, prune);
    }
  }

  lemma NotPruned(s: Schemas, root: Object, t: Target, container: Object, prune: bool)
    requires t.extension == "" || !prune
    ensures Container(WithContainer(root, t.extension, container, prune), t.extension) == container
  {
    if t.extension != "" {
      GetSetSame(root, t.extension, Obj(container));
    }
  }

  // A value filter only succeeds on a list that holds something, and leaves one that does.
  lemma FilteredLeavesList(container: Object, t: Target, op: Op, incoming: Json, walk: Object -> seq<string>)
    requires t.filter.Some? && !SelectsValues(t) && WriteIn(container, t, op, incoming, walk).Ok?
    ensures !AllUnassigned(WriteIn(container, t, op, incoming, walk).value)
  {
    hide Get, Set, PutSelected, Promotes, Demote, Selected, StripReadOnly, AllUnassigned, Written;
    var before := Get(container, t.name);
    var elements := ElementsAt(before);
    var stripped := StripReadOnly(if WriteKey(t) == "" then t.parent else t.attr, incoming);
    PutSelectedLength(elements, t, op, stripped, elements, walk);
    var list := PutSelected(elements, t, op, stripped, elements, walk).value;
    GetSetSame(container, t.name, DemoteOthers(t, before, List(list), op, stripped));
    HoldsList(WriteIn(container, t, op, incoming, walk).value, t.name);
  }

  lemma FilteredRemovalLeavesList(container: Object, t: Target)
    requires t.filter.Some? && t.sub != "" && RemoveIn(container, t).Ok?
    ensures !AllUnassigned(RemoveIn(container, t).value)
  {
    hide Get, Set, Remove, Removable, Selected, AllUnassigned;
    var elements := ElementsAt(Get(container, t.name));
    GetSetSame(container, t.name, List(RemoveFrom(elements, t)));
    HoldsList(RemoveIn(container, t).value, t.name);
  }

  lemma BlankGoes(o: Object, name: string)
    requires !Blank(Get(o, name))
    ensures !AllUnassigned(o)
  {
  }

  // A value in the resource itself, one that holds data, none at all, or an operation that does not prune.
  ghost predicate Safe(word: string, t: Target, v: Json) {
    t.extension == "" || !Blank(v) || v == Null || !MayPrune(word, t)
  }

  lemma WriteStays(p: Patcher, root: Object, parsed: FilterPath.Path, word: string, op: Op, incoming: Json, t: Target,
                   name: string)
    requires WellNamed(p.schemas) && Tidy(p.schemas, root) && Locate(p, parsed) == Ok(t) && Lower(word) != "remove"
    requires WriteAt(p, root, parsed, op, incoming).Ok? && !EqualFold(t.name, name)
    requires Safe(word, t, At(root, t.extension, name))
    ensures At(WriteAt(p, root, parsed, op, incoming).value, t.extension, name) == At(root, t.extension, name)
  {
    hide Get, WriteIn, Locate, AllUnassigned, Defines, WellNamed, Tidy, OneKey, Blank, WithContainer, Lower;
    LocateFinds(p, parsed);
    var held := Container(root, t.extension);
    var container := WriteIn(held, t, op, incoming, p.walk).value;
    WriteOneKey(held, t, op, incoming, p.walk);
    SetIsOneKey(held, t.name, container);
    OneKeySame(held, t.name, container);
    GetSame(held, container, t.name, name);
    if !SelectsValues(t) {
      if t.filter.Some? {
        FilteredLeavesList(held, t, op, incoming, p.walk);
      } else if t.sub != "" && t.parent.multi {
        ListNeedsFilter(held, t, op, incoming, p.walk);
      } else if !Blank(Get(container, name)) {
        BlankGoes(container, name);
      }
    }
    StaysInside(p.schemas, root, t, container, !SelectsValues(t), name);
  }

  lemma ListNeedsFilter(container: Object, t: Target, op: Op, incoming: Json, walk: Object -> seq<string>)
    requires t.filter.None? && t.sub != "" && t.parent.multi
    ensures WriteIn(container, t, op, incoming, walk).Err?
  {
  }

  lemma RemovalStays(p: Patcher, root: Object, parsed: FilterPath.Path, word: string, t: Target, name: string)
    requires WellNamed(p.schemas) && Tidy(p.schemas, root) && Locate(p, parsed) == Ok(t) && Lower(word) == "remove"
    requires RemoveAt(root, t).Ok? && !EqualFold(t.name, name)
    requires Safe(word, t, At(root, t.extension, name))
    ensures At(RemoveAt(root, t).value, t.extension, name) == At(root, t.extension, name)
  {
    hide Get, RemoveIn, Locate, AllUnassigned, Defines, WellNamed, Tidy, OneKey, Blank, WithContainer, Lower;
    LocateFinds(p, parsed);
    var held := Container(root, t.extension);
    if RemoveIn(held, t).Ok? {
      var container := RemoveIn(held, t).value;
      RemoveOneKey(held, t);
      OneKeySame(held, t.name, container);
      GetSame(held, container, t.name, name);
      if t.filter.Some? {
        if t.sub != "" {
          FilteredRemovalLeavesList(held, t);
        }
      } else if !Blank(Get(container, name)) {
        BlankGoes(container, name);
      }
      StaysInside(p.schemas, root, t, container, t.filter.None? || t.sub != "", name);
    }
  }

  // ---- Where it goes ----

  // An extension that holds this one value.
  function Alone(extension: string, name: string, v: Json): Object {
    map[extension := Obj(map[name := v])]
  }

  lemma AloneHolds(s: Schemas, extension: string, name: string, v: Json)
    requires extension != ""
    ensures Container(Alone(extension, name, v), extension) == map[name := v]
    ensures Get(Alone(extension, name, v), extension) == Obj(map[name := v])
    ensures At(Alone(extension, name, v), extension, name) == v && Tidy(s, Alone(extension, name, v))
  {
    HeldUnder(Alone(extension, name, v), extension);
    HeldUnder(map[name := v], name);
  }

  lemma OtherUnheld(name: string, v: Json, other: string)
    requires !EqualFold(other, name)
    ensures var o: Object := map[name := v]; Get(o, other) == Null && Remove(o, other) == o && Key(o, other) == other
  {
    var o: Object := map[name := v];
    assert Matches(o, other) == {};
    assert Key(o, other) !in o;
  }

  // The extension is gone, and the value with it.
  lemma Gone(extension: string, name: string, v: Json, container: Object)
    requires extension != "" && AllUnassigned(container)
    ensures At(WithContainer(Alone(extension, name, v), extension, container, true), extension, name) == Null
  {
    hide AllUnassigned;
    var root := Alone(extension, name, v);
    assert Remove(root, extension) == map[];
  }

  lemma RemovesNothing(t: Target, name: string, v: Json)
    requires t.filter.None? && !EqualFold(t.name, name)
    ensures RemoveIn(map[name := v], t) == Ok(map[name := v])
  {
    hide Get, Remove;
    OtherUnheld(name, v, t.name);
  }

  lemma NothingHeld(t: Target, name: string, v: Json)
    requires Blank(v)
    ensures AllUnassigned(map[name := v, t.name := Nothing(t)])
  {
    if t.sub != "" {
      var o := Nothing(t).fields;
      forall k | k in o ensures Blank(o[k]) {
      }
    }
  }

  // What the target is set to by sending nothing.
  function Nothing(t: Target): Json {
    var none := if t.attr.multi then List([]) else Null;
    if t.sub == "" then none else Obj(map[t.sub := none])
  }

  lemma WritesNothing(t: Target, name: string, v: Json, op: Op, walk: Object -> seq<string>)
    requires t.filter.None? && !EqualFold(t.name, name) && t.name != "" && (t.sub == "" || !t.parent.multi)
    ensures WriteIn(map[name := v], t, op, Null, walk) == Ok(map[name := v, t.name := Nothing(t)])
  {
    hide Get, Set;
    var container: Object := map[name := v];
    OtherUnheld(name, v, t.name);
    SetsNew(name, v, t.name, Nothing(t));
    var none := if t.attr.multi then List([]) else Null;
    NothingCarried(t.attr, op, [], none);
    if t.sub == "" {
      assert Put(container, t, op, none, [], walk) == Ok(Set(container, t.name, none));
      assert Put(container, t, op, Null, [], walk) == Ok(Set(container, t.name, none));
      GetSetSame(container, t.name, none);
      assert !Promotes(t.name, none) && !Promotes(t.name, Null);
    } else {
      SetsFirst(t.sub, none);
      assert Put(map[], t, op, Null, [], walk) == Ok(map[t.sub := none]);
    }
  }

  lemma SetsNew(name: string, v: Json, other: string, w: Json)
    requires !EqualFold(other, name)
    ensures Set(map[name := v], other, w) == map[name := v, other := w]
  {
    OtherUnheld(name, v, other);
  }

  lemma SetsFirst(name: string, w: Json)
    ensures Get(map[], name) == Null && Set(map[], name, w) == map[name := w]
  {
  }

  lemma PruneBreaks(p: Patcher, word: string, path: string, parsed: FilterPath.Path, t: Target, name: string, v: Json)
    requires WellNamed(p.schemas) && FilterPath.ParsePath(path) == Some(parsed) && Locate(p, parsed) == Ok(t)
    requires Known(word) && !EqualFold(t.name, name) && !Safe(word, t, v)
    ensures !StaysBy(p, word, path, t.extension, name, v)
  {
    hide Get, RemoveIn, WriteIn, Locate, WellNamed, Tidy, WithContainer, Lower, FilterPath.ParsePath, At, Alone;
    SomePath(path);
    LocateFinds(p, parsed);
    var root := Alone(t.extension, name, v);
    AloneHolds(p.schemas, t.extension, name, v);
    if Lower(word) == "remove" {
      RemovesNothing(t, name, v);
      Gone(t.extension, name, v, map[name := v]);
      RemovedAt(p, root, word, path, parsed, t, map[name := v]);
    } else {
      WritesNothing(t, name, v, OpOf(word), p.walk);
      var container: Object := map[name := v, t.name := Nothing(t)];
      NothingHeld(t, name, v);
      Gone(t.extension, name, v, container);
      WrittenAt(p, root, word, path, parsed, t, container);
    }
  }

  lemma RemovedAt(p: Patcher, root: Object, word: string, path: string, parsed: FilterPath.Path, t: Target,
                  after: Object)
    requires FilterPath.ParsePath(path) == Some(parsed) && Locate(p, parsed) == Ok(t) && t.filter.None?
    requires Lower(word) == "remove" && RemoveIn(Container(root, t.extension), t) == Ok(after)
    ensures Apply(p, root, Operation(word, path, None)) == Ok(WithContainer(root, t.extension, after, true))
  {
    hide RemoveIn, Locate, FilterPath.ParsePath, Lower, WithContainer;
    SomePath(path);
    assert Lower(word) != "add" && Lower(word) != "replace";
  }

  lemma WrittenAt(p: Patcher, root: Object, word: string, path: string, parsed: FilterPath.Path, t: Target,
                  after: Object)
    requires FilterPath.ParsePath(path) == Some(parsed) && Locate(p, parsed) == Ok(t) && t.filter.None?
    requires Lower(word) == "add" || Lower(word) == "replace"
    requires Get(root, t.extension).Obj?
    requires WriteIn(Container(root, t.extension), t, OpOf(word), Null, p.walk) == Ok(after)
    ensures Apply(p, root, Operation(word, path, Some(Null))) == Ok(WithContainer(root, t.extension, after, true))
  {
    hide WriteIn, Locate, FilterPath.ParsePath, Lower, WithContainer;
    SomePath(path);
  }

  // ---- Exactly ----

  lemma SafeStays(p: Patcher, word: string, path: string, parsed: FilterPath.Path, t: Target, name: string, v: Json)
    requires WellNamed(p.schemas) && FilterPath.ParsePath(path) == Some(parsed) && Locate(p, parsed) == Ok(t)
    requires !EqualFold(t.name, name) && Safe(word, t, v)
    ensures StaysBy(p, word, path, t.extension, name, v)
  {
    hide WriteAt, RemoveAt, Locate, WellNamed, Tidy, Lower, FilterPath.ParsePath, At, Safe;
    SomePath(path);
    forall root, value |
      && Tidy(p.schemas, root) && At(root, t.extension, name) == v
      && Apply(p, root, Operation(word, path, value)).Ok?
      ensures At(Apply(p, root, Operation(word, path, value)).value, t.extension, name) == v
    {
      if Lower(word) == "remove" {
        assert Lower(word) != "add" && Lower(word) != "replace";
        RemovalStays(p, root, parsed, word, t, name);
      } else {
        WriteStays(p, root, parsed, word, OpOf(word), value.value, t, name);
      }
    }
  }

  // An operation on one attribute leaves the value of another in the same container as it is exactly when the
  // container is the resource, the value holds data or is none, or the operation cannot prune.
  lemma BlankStaysExactly(p: Patcher, word: string, path: string, parsed: FilterPath.Path, t: Target, name: string,
                          v: Json)
    requires WellNamed(p.schemas) && FilterPath.ParsePath(path) == Some(parsed) && Locate(p, parsed) == Ok(t)
    requires Known(word) && !EqualFold(t.name, name)
    ensures StaysBy(p, word, path, t.extension, name, v) <==>
            t.extension == "" || !Blank(v) || v == Null || !MayPrune(word, t)
  {
    hide StaysBy, Locate, WellNamed, FilterPath.ParsePath, EqualFold, Blank, MayPrune, Known;
    if Safe(word, t, v) {
      SafeStays(p, word, path, parsed, t, name, v);
    } else {
      PruneBreaks(p, word, path, parsed, t, name, v);
    }
  }
}
