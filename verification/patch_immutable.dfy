// Which paths let an operation change an immutable attribute that is assigned (section 7 of RFC 7643): exactly
// those that reach into the elements of a list of objects where nothing holds what is found there.
module PatchImmutable {
  import opened Wrappers
  import opened Text
  import opened PatchObject
  import opened PatchValue
  import opened PatchUnique
  import opened PatchEngine
  import opened PatchMutability
  import FilterGrammar
  import FilterLexer
  import FilterPath
  import FilterPrint

  // Every member of an object is walked once.
  ghost predicate WalksAll(walk: Object -> seq<string>) {
    forall o :: multiset(walk(o)) == multiset(o.Keys)
  }

  // No operation with this word and path that succeeds changes the attribute, whatever value is sent and whatever
  // resource holds it assigned; if so asked, only those count that hold simple values in the elements of lists.
  ghost predicate KeptBy(p: Patcher, word: string, path: string, extension: string, name: string, a: Attribute,
                         fitting: bool)
  {
    forall root, value |
      && Tidy(p.schemas, root) && Assigned(a, At(root, extension, name))
      && (fitting ==> FitsList(a, ElementsAt(At(root, extension, name))))
      && Apply(p, root, Operation(word, path, value)).Ok? ::
      Kept(a, At(root, extension, name), At(Apply(p, root, Operation(word, path, value)).value, extension, name))
  }

  predicate Known(word: string) {
    Lower(word) == "add" || Lower(word) == "replace" || Lower(word) == "remove"
  }

  // Whether an operation with this word opens its target.
  ghost predicate OpensTarget(word: string, t: Target, fitting: bool) {
    Known(word) && if Lower(word) == "remove" then OpensRemoval(t, fitting) else OpensWrite(t, OpOf(word), fitting)
  }

  // ---- A resource with one attribute ----

  ghost function Only(t: Target, v: Json): Object {
    if t.extension == "" then map[t.name := v] else map[t.extension := Obj(map[t.name := v])]
  }

  lemma HeldUnder(o: Object, name: string)
    requires name in o
    ensures Get(o, name) == o[name]
  {
  }

  lemma OnlyHolds(t: Target, v: Json)
    ensures Container(Only(t, v), t.extension) == map[t.name := v]
    ensures At(Only(t, v), t.extension, t.name) == v
  {
    hide Get;
    HeldUnder(map[t.name := v], t.name);
    if t.extension != "" {
      HeldUnder(Only(t, v), t.extension);
    }
  }

  lemma OnlyTidy(s: Schemas, t: Target, v: Json)
    ensures Tidy(s, Only(t, v))
  {
  }

  // ---- Elements that change ----

  // A name longer than any of these.
  function Unused(names: seq<string>): (name: string)
    ensures |name| > 7 && forall i :: 0 <= i < |names| ==> |name| > |names[i]|
  {
    if names == [] then "xxxxxxxx" else names[0] + Unused(names[1..])
  }

  function NamesOf(list: seq<Attribute>): (names: seq<string>)
    ensures |names| == |list| && forall i :: 0 <= i < |list| ==> names[i] == list[i].name
  {
    seq(|list|, i requires 0 <= i < |list| => list[i].name)
  }

  lemma {:induction false} LongerIsUndefined(list: seq<Attribute>, name: string)
    requires forall i :: 0 <= i < |list| ==> |name| > |list[i].name|
    ensures Lookup(list, name) == None
  {
    if list != [] {
      assert |Fold(list[0].name)| == |list[0].name| && |Fold(name)| == |name|;
      LongerIsUndefined(list[1..], name);
    }
  }

  lemma LongerIsUnmatched(o: Object, name: string)
    requires forall k :: k in o ==> |name| > |k|
    ensures Matches(o, name) == {} && name !in o
  {
    forall k | k in o ensures !EqualFold(k, name) {
      assert |Fold(k)| == |k| && |Fold(name)| == |name|;
    }
  }

  // A name that neither the attribute defines nor the object uses.
  lemma NewName(a: Attribute, o: Object, walk: Object -> seq<string>) returns (name: string)
    requires WalksAll(walk)
    ensures |name| > 7 && Lookup(a.subs, name) == None && Matches(o, name) == {} && name !in o
  {
    var names := NamesOf(a.subs) + walk(o);
    name := Unused(names);
    forall i | 0 <= i < |a.subs| ensures |name| > |a.subs[i].name| {
      assert names[i] == a.subs[i].name;
    }
    LongerIsUndefined(a.subs, name);
    forall k | k in o ensures |name| > |k| {
      assert k in multiset(walk(o));
      var i :| 0 <= i < |walk(o)| && walk(o)[i] == k;
      assert names[|a.subs| + i] == k;
    }
    LongerIsUnmatched(o, name);
  }

  lemma SingleWalk(walk: Object -> seq<string>, o: Object, name: string)
    requires WalksAll(walk) && o.Keys == {name}
    ensures walk(o) == [name]
  {
    var order := walk(o);
    assert multiset(order) == multiset{name};
    assert |order| == |multiset(order)| == 1;
    assert order[0] in multiset(order);
  }

  // Merging one member that is new to an element and to its definition.
  lemma MemberMerged(a: Attribute, o: Object, op: Op, name: string, walk: Object -> seq<string>)
    requires a.multi && WalksAll(walk) && Lookup(a.subs, name) == None && Matches(o, name) == {} && name !in o
    ensures Merge(o, a, op, map[name := Bool(true)], walk) == Ok(o[name := Bool(true)])
  {
    hide Equal, Matches, Fresh;
    var values: Object := map[name := Bool(true)];
    SingleWalk(walk, values, name);
    assert Key(o, name) == name && Held(o, name) == Null;
    assert MergeField(o, a, false, op, name, Bool(true)) == Ok(o[name := Bool(true)]);
    assert walk(values)[1..] == [];
    assert MergeWalk(o[name := Bool(true)], a, false, op, values, []) == Ok(o[name := Bool(true)]);
  }

  // The one element of a list changed in a member.
  lemma ElementChanged(a: Attribute, o: Object, p: Object, k: string)
    requires !SameMember(a, k, Held(o, k), Held(p, k))
    ensures !Kept(a, List([Obj(o)]), List([Obj(p)]))
  {
    EqualReflexive(SubAttribute(a, k), Held(o, k));
    assert [Obj(o)][0] == Obj(o) && [Obj(p)][0] == Obj(p);
  }

  // ---- Writes ----

  // A list with one element, which the filter selects, after a write to it.
  lemma OneWritten(t: Target, o: Object, op: Op, incoming: Json, walk: Object -> seq<string>, q: Object)
    requires t.filter.Some? && Selected(t, Obj(o)) && Put(o, t, op, incoming, [Obj(o)], walk) == Ok(q)
    ensures WriteFiltered(map[t.name := List([Obj(o)])], t, op, incoming, walk)
         == Ok(Set(map[t.name := List([Obj(o)])], t.name, List([Obj(q)])))
  {
    hide Put, Promotes, Set, Get, Selected;
    var container: Object, elements := map[t.name := List([Obj(o)])], [Obj(o)];
    HeldUnder(container, t.name);
    assert Holds(t, elements[0]);
    assert elements[1..] == [] && PutSelected([], t, op, incoming, elements, walk) == Ok([]);
    assert [Obj(q)] + [] == [Obj(q)];
    assert PutSelected(elements, t, op, incoming, elements, walk) == Ok([Obj(q)]);
    var written := Written(t, elements, [Obj(q)], op);
    assert written[0];
    assert Demote([Obj(q)], written) == [Obj(q)];
  }

  lemma NothingStripped(a: Attribute, name: string, v: Json)
    requires Lookup(a.subs, name) == None
    ensures StripReadOnly(a, Obj(map[name := v])) == Obj(map[name := v])
  {
    assert StripFields(a, map[name := v]) == map[name := v];
  }

  // An element selected as a whole takes a new member.
  lemma ElementWritten(t: Target, o: Object, op: Op, walk: Object -> seq<string>) returns (incoming: Json, q: Object)
    requires IsComplexList(t.parent) && t.filter.Some? && t.sub == "" && t.attr == t.parent && Selected(t, Obj(o))
    requires WalksAll(walk)
    ensures WriteIn(map[t.name := List([Obj(o)])], t, op, incoming, walk)
         == Ok(Set(map[t.name := List([Obj(o)])], t.name, List([Obj(q)])))
    ensures !Kept(t.parent, List([Obj(o)]), List([Obj(q)]))
  {
    hide WriteFiltered, Kept, Set, Selected, Merge, StripReadOnly;
    var name := NewName(t.parent, o, walk);
    incoming, q := Obj(map[name := Bool(true)]), o[name := Bool(true)];
    NothingStripped(t.parent, name, Bool(true));
    MemberMerged(t.parent, o, op, name, walk);
    OneWritten(t, o, op, incoming, walk, q);
    EqualFlag(SubAttribute(t.parent, name), Null, true);
    ElementChanged(t.parent, o, q, name);
  }

  // A value that holds this one is another one, and in no list this one is.
  lemma Wrapped(v: Json)
    ensures v != Obj(map["x" := v])
    ensures v.List? ==> forall i :: 0 <= i < |v.elements| ==> v.elements[i] != Obj(map["x" := v])
  {
    var w := Obj(map["x" := v]);
    assert w.fields["x"] == v;
  }

  lemma NotContained(a: Attribute, v: Json)
    requires a.subs == [] && v.List?
    ensures Fresh(a, v.elements, [Obj(map["x" := v])]) == [Obj(map["x" := v])]
  {
    var w := Obj(map["x" := v]);
    Wrapped(v);
    forall i | 0 <= i < |v.elements| ensures !SameElement(a, v.elements[i], w) {
      EqualWhole(a, v.elements[i], w);
    }
    assert !Contains(a, v.elements, w);
    assert Fresh(a, v.elements, [w][1..]) == [];
  }

  // A sub-attribute that nothing holds fast takes a value that its own value is only a part of.
  lemma SubPut(t: Target, o: Object, op: Op, walk: Object -> seq<string>) returns (final: Json)
    requires IsComplexList(t.parent) && t.filter.Some? && t.sub != "" && t.attr.kind != ComplexKind && t.attr.subs == []
    requires t.attr.mutability != Immutable || IsUnassigned(Get(o, t.sub))
    ensures Put(o, t, op, Obj(map["x" := Get(o, t.sub)]), [Obj(o)], walk) == Ok(Set(o, t.sub, final))
    ensures (final.Obj? || final.List?) && final != Get(o, t.sub) && !IsUnassigned(final)
  {
    hide Get, Set, Fresh, Contains, CarryForward, Equal, Selected;
    var held := Get(o, t.sub);
    var w := Obj(map["x" := held]);
    Wrapped(held);
    assert "x" in w.fields;
    var shaped := Shaped(t.attr, w);
    assert shaped == if t.attr.multi then List([w]) else w;
    if held.List? {
      NotContained(t.attr, held);
      assert |held.elements + [w]| == |held.elements| + 1;
    }
    assert held == List([w]) ==> held.elements[0] == w;
    NothingCarried(t.attr, op, [Obj(o)], shaped);
    final := Appended(held, shaped, op);
  }

  lemma SubWritten(t: Target, o: Object, op: Op, walk: Object -> seq<string>) returns (incoming: Json, q: Object)
    requires IsComplexList(t.parent) && t.filter.Some? && Selected(t, Obj(o))
    requires t.sub != "" && Lookup(t.parent.subs, t.sub) == Some(t.attr) && t.attr.kind != ComplexKind &&
             t.attr.subs == []
    requires t.attr.mutability != Immutable || IsUnassigned(Get(o, t.sub))
    ensures WriteIn(map[t.name := List([Obj(o)])], t, op, incoming, walk)
         == Ok(Set(map[t.name := List([Obj(o)])], t.name, List([Obj(q)])))
    ensures !Kept(t.parent, List([Obj(o)]), List([Obj(q)]))
  {
    hide WriteFiltered, Kept, Selected, Put, StripReadOnly, Equal, Lookup, Matches;
    incoming := Obj(map["x" := Get(o, t.sub)]);
    NothingDefined(t.attr, "x");
    NothingStripped(t.attr, "x", Get(o, t.sub));
    var final := SubPut(t, o, op, walk);
    q := Set(o, t.sub, final);
    OneWritten(t, o, op, incoming, walk, q);
    SubFold(t.parent, t.sub, Key(o, t.sub));
    EqualWhole(t.attr, Get(o, t.sub), final);
    ElementChanged(t.parent, o, q, Key(o, t.sub));
  }

  lemma NothingDefined(a: Attribute, name: string)
    requires a.subs == []
    ensures Lookup(a.subs, name) == None
  {
  }

  // ---- Repeats that demote ----

  lemma {:induction false} StripsNothing(a: Attribute, v: Json)
    requires a.subs == []
    ensures StripReadOnly(a, v) == v
    decreases v
  {
    if v.List? {
      forall i | 0 <= i < |v.elements| ensures StripReadOnly(a, v.elements[i]) == v.elements[i] {
        StripsNothing(a, v.elements[i]);
      }
    } else if v.Obj? {
      assert StripFields(a, v.fields) == v.fields;
    }
  }

  lemma {:induction false} FreshOfHeld(a: Attribute, elements: seq<Json>, candidates: seq<Json>)
    requires forall i :: 0 <= i < |candidates| ==> Contains(a, elements, candidates[i])
    ensures Fresh(a, elements, candidates) == []
  {
    hide Contains;
    if candidates != [] {
      FreshOfHeld(a, elements, candidates[1..]);
    }
  }

  // What is contained in a list without sub-attributes is contained by itself.
  lemma UniqueHeld(a: Attribute, list: seq<Json>)
    requires a.subs == []
    ensures Fresh(a, list, Unique(a, list)) == []
  {
    hide Unique, Equal;
    UniqueSameMembers(a, list);
    var kept := Unique(a, list);
    forall i | 0 <= i < |kept| ensures Contains(a, list, kept[i]) {
      EqualReflexive(a, kept[i]);
      assert SameElement(a, kept[i], kept[i]);
      assert Contains(a, kept, kept[i]);
    }
    FreshOfHeld(a, list, kept);
  }

  // The value to send again: the gate lets it pass, and it promotes.
  lemma Repeated(t: Target, op: Op, held: Json) returns (v: Json)
    requires t.attr.subs == [] && t.filter.Some? && Repeatable(t, op, held)
    ensures Promotes(t.sub, v) && Final(t, op, held, v) == held
  {
    hide Get, Unique, Equal, Fresh;
    v := if EqualFold(t.sub, "primary") then Bool(true) else held;
    if t.attr.multi {
      if EqualFold(t.sub, "primary") {
        UniqueOfOne(t.attr, v);
        if op == Add {
          var i :| 0 <= i < |held.elements| && held.elements[i] == v;
          EqualReflexive(t.attr, v);
          assert SameElement(t.attr, held.elements[i], v);
          FreshOfHeld(t.attr, held.elements, [v]);
          assert held.elements + [] == held.elements;
        }
      } else if op == Add {
        UniqueHeld(t.attr, held.elements);
        assert held.elements + [] == held.elements;
      }
    }
  }

  // The first element repeats what it holds, and the second is demoted.
  lemma PairWritten(t: Target, o: Object, other: Object, op: Op, walk: Object -> seq<string>)
    returns (incoming: Json, now: seq<Json>)
    requires IsComplexList(t.parent) && t.filter.Some? && t.sub != ""
    requires Lookup(t.parent.subs, t.sub) == Some(t.attr) && t.attr.kind != ComplexKind && t.attr.subs == []
    requires Selected(t, Obj(o)) && Repeatable(t, op, Get(o, t.sub)) && Primary(Obj(other)) && !Selected(t, Obj(other))
    ensures WriteIn(map[t.name := List([Obj(o), Obj(other)])], t, op, incoming, walk)
         == Ok(Set(map[t.name := List([Obj(o), Obj(other)])], t.name, List(now)))
    ensures now != [] && !Kept(t.parent, List([Obj(o), Obj(other)]), List(now))
  {
    hide Selected, Put, StripReadOnly, Equal, Lookup, Get, Set, Promotes, Repeatable, Demoted, Kept, Final,
         WriteFiltered;
    incoming := Repeated(t, op, Get(o, t.sub));
    StripsNothing(t.attr, incoming);
    var q := RepeatPut(t, o, op, incoming, [Obj(o), Obj(other)], walk);
    PairFiltered(t, o, other, op, incoming, q, walk);
    now := [Obj(q), Demoted(Obj(other))];
    DemotedChanges(t.parent, Obj(o), Obj(q), other);
  }

  lemma RepeatPut(t: Target, o: Object, op: Op, v: Json, stored: seq<Json>, walk: Object -> seq<string>)
    returns (q: Object)
    requires IsComplexList(t.parent) && t.filter.Some? && t.sub != "" && t.attr.kind != ComplexKind && t.attr.subs == []
    requires Final(t, op, Get(o, t.sub), v) == Get(o, t.sub)
    ensures Put(o, t, op, v, stored, walk) == Ok(q)
  {
    hide Get, Set, Unique, Fresh, Equal, CarryForward;
    var held := Get(o, t.sub);
    EqualReflexive(t.attr, held);
    q := Put(o, t, op, v, stored, walk).value;
  }

  lemma PairFiltered(t: Target, o: Object, other: Object, op: Op, v: Json, q: Object, walk: Object -> seq<string>)
    requires t.filter.Some? && t.sub != "" && Promotes(t.sub, v)
    requires Selected(t, Obj(o)) && !Selected(t, Obj(other))
    requires Put(o, t, op, v, [Obj(o), Obj(other)], walk) == Ok(q)
    ensures WriteFiltered(map[t.name := List([Obj(o), Obj(other)])], t, op, v, walk)
         == Ok(Set(map[t.name := List([Obj(o), Obj(other)])], t.name, List([Obj(q), Demoted(Obj(other))])))
  {
    hide Put, Promotes, Set, Get, Selected, Demoted;
    var elements := [Obj(o), Obj(other)];
    var container: Object := map[t.name := List(elements)];
    HeldUnder(container, t.name);
    assert Holds(t, elements[0]) && !Holds(t, elements[1]);
    var rest := elements[1..];
    assert rest == [Obj(other)] && rest[1..] == [];
    assert PutSelected(rest, t, op, v, elements, walk) == Ok([Obj(other)] + []);
    var after := [Obj(q), Obj(other)];
    assert [Obj(q)] + ([Obj(other)] + []) == after;
    assert PutSelected(elements, t, op, v, elements, walk) == Ok(after);
    assert Demote(after, Written(t, elements, after, op)) == [Obj(q), Demoted(Obj(other))];
  }

  // An element that is primary no more is another one.
  lemma DemotedChanges(a: Attribute, x: Json, y: Json, o: Object)
    requires Primary(Obj(o))
    ensures !Kept(a, List([x, Obj(o)]), List([y, Demoted(Obj(o))]))
  {
    hide SubAttribute, Equal;
    var k := Key(o, "primary");
    var q := Set(o, "primary", Bool(false));
    EqualFlag(SubAttribute(a, k), Bool(true), false);
    assert !SameMember(a, k, Held(o, k), Held(q, k));
    var was, now := List([x, Obj(o)]), List([y, Obj(q)]);
    assert was.elements[1] == Obj(o) && now.elements[1] == Obj(q);
    EqualWhole(a, was, now);
  }

  // ---- Removals ----

  lemma SubRemoved(t: Target, o: Object) returns (q: Object)
    requires IsComplexList(t.parent) && t.sub != "" && Lookup(t.parent.subs, t.sub) == Some(t.attr)
    requires Holds(t, Obj(o)) && !IsUnassigned(Get(o, t.sub)) && !t.attr.required && t.attr.mutability != Immutable
    ensures RemoveIn(map[t.name := List([Obj(o)])], t)
         == Ok(Set(map[t.name := List([Obj(o)])], t.name, List([Obj(q)])))
    ensures !Kept(t.parent, List([Obj(o)]), List([Obj(q)])) && q == Remove(o, t.sub)
  {
    hide Kept, Selected, Set, Equal, Lookup, Matches;
    q := Remove(o, t.sub);
    var container: Object, elements := map[t.name := List([Obj(o)])], [Obj(o)];
    HeldUnder(container, t.name);
    assert Holds(t, elements[0]) && Removable(o, t);
    assert RemoveFrom(elements, t) == [Obj(q)];
    SubFold(t.parent, t.sub, Key(o, t.sub));
    EqualNull(t.attr, Get(o, t.sub));
    ElementChanged(t.parent, o, q, Key(o, t.sub));
  }

  // ---- Exactly ----

  // What is done to the one container of a resource shows in the resource.
  lemma Shown(s: Schemas, t: Target, was: seq<Json>, now: seq<Json>, prune: bool)
    requires Defines(s, t.extension, t.name, t.parent) && now != []
    ensures var root := Only(t, List(was));
            var container := Set(Container(root, t.extension), t.name, List(now));
            At(WithContainer(root, t.extension, container, prune), t.extension, t.name) == List(now)
  {
    hide Set, Get, At;
    var root := Only(t, List(was));
    var held := Container(root, t.extension);
    var container := Set(held, t.name, List(now));
    OnlyTidy(s, t, List(was));
    if t.extension != "" {
      DefinesId(s, t.extension, t.name, t.parent);
    }
    GetSetSame(held, t.name, List(now));
    HoldsList(container, t.name);
    PutBackSame(s, root, t.extension, container, prune, t.name);
  }

  lemma HoldsList(o: Object, name: string)
    requires Get(o, name).List? && Get(o, name).elements != []
    ensures !AllUnassigned(o)
  {
    assert !Blank(Get(o, name));
  }

  lemma SomePath(path: string)
    requires FilterPath.ParsePath(path).Some?
    ensures path != ""
  {
  }

  lemma SimpleSubs(p: Patcher, parsed: FilterPath.Path, t: Target)
    requires WellNamed(p.schemas) && Locate(p, parsed) == Ok(t) && ProtectedList(t.parent) && t.sub != ""
    ensures Lookup(t.parent.subs, t.sub) == Some(t.attr) && t.attr.kind != ComplexKind && t.attr.subs == []
  {
    LocateFinds(p, parsed);
    LookupFinds(t.parent.subs, t.sub);
  }

  // What is written to the one attribute of a resource.
  lemma WrittenTo(p: Patcher, parsed: FilterPath.Path, t: Target, op: Op, was: seq<Json>, incoming: Json,
                  now: seq<Json>)
    requires WellNamed(p.schemas) && Locate(p, parsed) == Ok(t) && now != []
    requires WriteIn(map[t.name := List(was)], t, op, incoming, p.walk)
          == Ok(Set(map[t.name := List(was)], t.name, List(now)))
    ensures var root := Only(t, List(was));
            WriteAt(p, root, parsed, op, incoming).Ok? &&
            At(WriteAt(p, root, parsed, op, incoming).value, t.extension, t.name) == List(now)
  {
    hide WriteIn, Set, Get, At, Locate, WithContainer;
    OnlyHolds(t, List(was));
    LocateFinds(p, parsed);
    Shown(p.schemas, t, was, now, !SelectsValues(t));
    if t.extension != "" {
      HeldUnder(Only(t, List(was)), t.extension);
    }
  }

  // A write whose own element changes, or a write that demotes one it leaves out.
  lemma ChangingWrite(t: Target, op: Op, fitting: bool, walk: Object -> seq<string>)
    returns (was: seq<Json>, incoming: Json, now: seq<Json>)
    requires ProtectedList(t.parent) && WalksAll(walk) && OpensWrite(t, op, fitting)
    requires if t.sub == "" then t.attr == t.parent
             else Lookup(t.parent.subs, t.sub) == Some(t.attr) && t.attr.kind != ComplexKind && t.attr.subs == []
    ensures WriteIn(map[t.name := List(was)], t, op, incoming, walk)
         == Ok(Set(map[t.name := List(was)], t.name, List(now)))
    ensures was != [] && now != [] && (fitting ==> FitsList(t.parent, was)) && !Kept(t.parent, List(was), List(now))
  {
    hide WriteIn, Set, Get, Kept, WalksAll, Selected, Lookup, Fits, Primary, Repeatable, ProtectedList;
    IsObjectList(t.parent);
    var o: Object :| Selected(t, Obj(o)) && (fitting ==> Fits(t.parent, o)) && Yields(t, op, o, LeavesSome(t, fitting));
    if t.sub == "" {
      var q;
      incoming, q := ElementWritten(t, o, op, walk);
      was, now := [Obj(o)], [Obj(q)];
    } else if Unheld(t, o) {
      var q;
      incoming, q := SubWritten(t, o, op, walk);
      was, now := [Obj(o)], [Obj(q)];
    } else {
      var other: Object :| Primary(Obj(other)) && !Selected(t, Obj(other)) && (fitting ==> Fits(t.parent, other));
      was := [Obj(o), Obj(other)];
      incoming, now := PairWritten(t, o, other, op, walk);
    }
  }

  lemma WriteBreaks(p: Patcher, word: string, path: string, parsed: FilterPath.Path, t: Target, fitting: bool)
    requires WellNamed(p.schemas) && WalksAll(p.walk) && FilterPath.ParsePath(path) == Some(parsed)
    requires Locate(p, parsed) == Ok(t) && ProtectedList(t.parent)
    requires Known(word) && Lower(word) != "remove" && OpensWrite(t, OpOf(word), fitting)
    ensures !KeptBy(p, word, path, t.extension, t.name, t.parent, fitting)
  {
    hide WriteAt, WriteIn, Set, Get, At, Locate, Kept, ProtectedList, WellNamed, Tidy, WalksAll, FilterPath.ParsePath,
         Lower, Only, Lookup, OpensWrite, FitsList;
    SomePath(path);
    IsObjectList(t.parent);
    LocateFinds(p, parsed);
    if t.sub != "" {
      SimpleSubs(p, parsed, t);
    }
    var was, incoming, now := ChangingWrite(t, OpOf(word), fitting, p.walk);
    WrittenTo(p, parsed, t, OpOf(word), was, incoming, now);
    Breaks(p, word, path, t, was, Some(incoming), now, fitting);
  }

  // One resource and one value are enough to break the guarantee.
  lemma Breaks(p: Patcher, word: string, path: string, t: Target, was: seq<Json>, value: Option<Json>, now: seq<Json>,
               fitting: bool)
    requires var root := Only(t, List(was));
             && Apply(p, root, Operation(word, path, value)).Ok?
             && At(Apply(p, root, Operation(word, path, value)).value, t.extension, t.name) == List(now)
    requires IsComplexList(t.parent) && was != [] && (fitting ==> FitsList(t.parent, was))
    requires !Kept(t.parent, List(was), List(now))
    ensures !KeptBy(p, word, path, t.extension, t.name, t.parent, fitting)
  {
    hide Apply, At, Kept, Tidy, Only, FitsList;
    var root := Only(t, List(was));
    OnlyHolds(t, List(was));
    OnlyTidy(p.schemas, t, List(was));
    assert Assigned(t.parent, At(root, t.extension, t.name));
  }

  lemma RemovalBreaks(p: Patcher, word: string, path: string, parsed: FilterPath.Path, t: Target, fitting: bool)
    requires WellNamed(p.schemas) && FilterPath.ParsePath(path) == Some(parsed)
    requires Locate(p, parsed) == Ok(t) && ProtectedList(t.parent)
    requires Lower(word) == "remove" && OpensRemoval(t, fitting)
    ensures !KeptBy(p, word, path, t.extension, t.name, t.parent, fitting)
  {
    hide RemoveIn, Set, Get, At, Locate, Kept, ProtectedList, WellNamed, Tidy, FilterPath.ParsePath, Lower, Holds, Only,
         Lookup, WithContainer, Fits;
    SomePath(path);
    IsObjectList(t.parent);
    var o: Object :| Holds(t, Obj(o)) && (fitting ==> Fits(t.parent, o)) && !IsUnassigned(Get(o, t.sub));
    LocateFinds(p, parsed);
    SimpleSubs(p, parsed, t);
    var q := SubRemoved(t, o);
    OnlyHolds(t, List([Obj(o)]));
    Shown(p.schemas, t, [Obj(o)], [Obj(q)], true);
    assert Lower(word) != "add" && Lower(word) != "replace";
    Breaks(p, word, path, t, [Obj(o)], None, [Obj(q)], fitting);
  }

  lemma NotOpened(p: Patcher, word: string, path: string, parsed: FilterPath.Path, t: Target, fitting: bool)
    requires WellNamed(p.schemas) && FilterPath.ParsePath(path) == Some(parsed) && Locate(p, parsed) == Ok(t)
    requires Guarded(t.parent) && !OpensTarget(word, t, fitting)
    ensures KeptBy(p, word, path, t.extension, t.name, t.parent, fitting)
  {
    hide Apply, At, Kept, Assigned, Tidy, WellNamed, Guarded, FitsList, Locate, OpensTarget, FilterPath.ParsePath;
    forall root, value
      | Tidy(p.schemas, root) && Assigned(t.parent, At(root, t.extension, t.name)) &&
          (fitting ==> FitsList(t.parent, ElementsAt(At(root, t.extension, t.name)))) &&
          Apply(p, root, Operation(word, path, value)).Ok?
      ensures Kept(t.parent, At(root, t.extension, t.name),
                   At(Apply(p, root, Operation(word, path, value)).value, t.extension, t.name))
    {
      ShutKeeps(p, root, Operation(word, path, value), parsed, t, fitting);
    }
  }

  lemma ShutKeeps(p: Patcher, root: Object, operation: Operation, parsed: FilterPath.Path, t: Target, fitting: bool)
    requires WellNamed(p.schemas) && FilterPath.ParsePath(operation.path) == Some(parsed) && Locate(p, parsed) == Ok(t)
    requires Guarded(t.parent) && !OpensTarget(operation.op, t, fitting) && Apply(p, root, operation).Ok?
    requires Tidy(p.schemas, root) && Assigned(t.parent, At(root, t.extension, t.name))
    requires fitting ==> FitsList(t.parent, ElementsAt(At(root, t.extension, t.name)))
    ensures Kept(t.parent, At(root, t.extension, t.name), At(Apply(p, root, operation).value, t.extension, t.name))
  {
    hide Apply, At, Kept, Assigned, Tidy, WellNamed, Step, Touches, Guarded, Opens, FitsList, Locate, OpensTarget,
         FilterPath.ParsePath, Known, Defines, Addresses, Lookup, SchemaOf;
    LocateFinds(p, parsed);
    OnlyKnown(p, root, operation);
    StaysShut(p, root, operation, parsed, t, fitting);
    OperationStep(p, root, operation, t.extension, t.name, t.parent);
    StepKeeps(p, root, operation, t);
  }

  // What the word does not open in any list that fits, it does not open in this one.
  lemma StaysShut(p: Patcher, root: Object, operation: Operation, parsed: FilterPath.Path, t: Target, fitting: bool)
    requires FilterPath.ParsePath(operation.path) == Some(parsed) && Locate(p, parsed) == Ok(t) && Known(operation.op)
    requires fitting ==> FitsList(t.parent, ElementsAt(At(root, t.extension, t.name)))
    requires !OpensTarget(operation.op, t, fitting)
    ensures !Opens(p, root, operation, t.extension, t.name)
  {
    hide FilterPath.ParsePath, Locate, At, OpensIn, OpensOut, OpensWrite, OpensRemoval, FitsList, Lower, Addresses;
    var elements := ElementsAt(At(root, t.extension, t.name));
    if OpensIn(t, OpOf(operation.op), elements) {
      OpensSomewhere(t, OpOf(operation.op), elements, fitting);
    }
    if OpensOut(t, elements) {
      OpensOutSomewhere(t, elements, fitting);
    }
  }

  lemma OnlyKnown(p: Patcher, root: Object, operation: Operation)
    requires Apply(p, root, operation).Ok?
    ensures Known(operation.op)
  {
    hide Write, RemovePath, Lower;
  }

  lemma StepKeeps(p: Patcher, root: Object, operation: Operation, t: Target)
    requires Apply(p, root, operation).Ok? && Guarded(t.parent) && Assigned(t.parent, At(root, t.extension, t.name))
    requires Step(p.schemas, root, Apply(p, root, operation).value, t.extension, t.name, t.parent,
                  Touches(p, operation, t.extension, t.name), Opens(p, root, operation, t.extension, t.name))
    requires !Opens(p, root, operation, t.extension, t.name)
    ensures Kept(t.parent, At(root, t.extension, t.name), At(Apply(p, root, operation).value, t.extension, t.name))
  {
    hide Apply, At, Kept, Assigned, Tidy, Touches, Opens, Guarded;
  }

  // An operation keeps an assigned immutable attribute exactly when its word does not open what its path addresses.
  // Asked of all resources, or of those that hold simple values where the schema says so.
  lemma ImmutableKeptExactly(p: Patcher, word: string, path: string, parsed: FilterPath.Path, t: Target, fitting: bool)
    requires WellNamed(p.schemas) && WalksAll(p.walk)
    requires FilterPath.ParsePath(path) == Some(parsed) && Locate(p, parsed) == Ok(t) && Guarded(t.parent)
    ensures KeptBy(p, word, path, t.extension, t.name, t.parent, fitting) <==> !OpensTarget(word, t, fitting)
  {
    hide KeptBy, Locate, FilterPath.ParsePath, WalksAll, WellNamed, Lower, Holds, Selected, Fits, Yields;
    if !OpensTarget(word, t, fitting) {
      NotOpened(p, word, path, parsed, t, fitting);
    } else if Lower(word) == "remove" {
      RemovalBreaks(p, word, path, parsed, t, fitting);
    } else {
      WriteBreaks(p, word, path, parsed, t, fitting);
    }
  }

  // ---- Paths as they are sent ----

  lemma SomeElement(name: string)
    ensures var o: Object := map[name := Bool(true)]; Get(o, name) == Bool(true)
  {
    HeldUnder(map[name := Bool(true)], name);
  }

  lemma LowerWords()
    ensures Lower("add") == "add" && Lower("remove") == "remove" && Lower("replace") == "replace"
  {
  }

  // Removing "path.sub" without a filter: held back only by the sub-attribute itself.
  lemma PlainRemoval(p: Patcher, path: string, t: Target, fitting: bool)
    requires WellNamed(p.schemas) && WalksAll(p.walk) && FilterPrint.WfPath(path)
    requires Locate(p, FilterPath.Path(FilterPrint.SplitPath(path), None)) == Ok(t) && ProtectedList(t.parent) &&
             t.sub != ""
    ensures KeptBy(p, "remove", path, t.extension, t.name, t.parent, fitting) <==>
            t.attr.required || t.attr.mutability == Immutable
  {
    hide KeptBy, WalksAll, FilterPath.ParsePath, FilterPrint.SplitPath, FilterPrint.WfPath, Get, Lower, WellNamed;
    FilterPath.PlainPathReads(path);
    LowerWords();
    ImmutableKeptExactly(p, "remove", path, FilterPath.Path(FilterPrint.SplitPath(path), None), t, fitting);
    SomeElement(t.sub);
    assert Holds(t, Obj(map[t.sub := Bool(true)]));
  }

  // A filter for the elements that hold the sub-attribute.
  ghost predicate TestsPresence(sub: string, selects: Predicate) {
    forall o: Object :: selects(Obj(o)) <==> !IsUnassigned(Get(o, sub))
  }

  // The path "path[of pr].sub", or "path[of pr]".
  function Presence(path: string, of: string, sub: string): FilterPath.Path {
    FilterPath.Path(FilterPrint.SplitPath(path).(subAttribute := sub), Some(FilterGrammar.Present(of)))
  }

  // Only the sub-attribute holds such a write back, and not if an element that has none of it may be primary: that
  // is so for the flag itself, and for any other unless it holds no objects.
  predicate HeldBack(t: Target, fitting: bool) {
    t.sub != "" && t.attr.mutability == Immutable &&
    (t.sub == "primary" || (fitting && !EqualFold(t.sub, "primary")))
  }

  lemma NothingYields(t: Target, fitting: bool)
    requires t.filter.Some? && TestsPresence(t.sub, t.filter.value) && HeldBack(t, fitting)
    requires Lookup(t.parent.subs, t.sub) == Some(t.attr) && t.parent.kind == ComplexKind
    ensures !OpensWrite(t, Replace, fitting)
  {
    hide Get, Lookup;
    if t.sub == "primary" {
      forall o: Object | Primary(Obj(o)) ensures Selected(t, Obj(o)) {
      }
    } else {
      forall o: Object | Fits(t.parent, o) && Selected(t, Obj(o)) ensures !Repeatable(t, Replace, Get(o, t.sub)) {
        FittingHeld(t, o);
      }
    }
  }

  lemma FittingHeld(t: Target, o: Object)
    requires Fits(t.parent, o) && Lookup(t.parent.subs, t.sub) == Some(t.attr)
    ensures !SomePrimary(Get(o, t.sub))
  {
    LookupFold(t.parent.subs, t.sub, Key(o, t.sub));
  }

  // An element that is selected, and another that is primary and left out.
  lemma SomethingYields(t: Target, of: string, fitting: bool)
    requires IsComplexList(t.parent) && t.filter.Some? && TestsPresence(of, t.filter.value) && of != ""
    requires t.sub == "" || (t.sub == of && Lookup(t.parent.subs, t.sub) == Some(t.attr))
    requires !HeldBack(t, fitting)
    ensures OpensWrite(t, Replace, fitting)
  {
    hide Get, Lookup, Repeatable, Fits;
    if t.sub == "" || t.attr.mutability != Immutable {
      var o: Object := map[of := Bool(true)];
      SomeElement(of);
      FitsOne(t.parent, of, Bool(true));
      assert Selected(t, Obj(o));
    } else {
      var held := Repeat(t);
      var o: Object := map[of := held];
      HeldUnder(o, of);
      if EqualFold(of, "primary") {
        if t.attr.multi {
          FitsMany(t, of, [Bool(true)]);
        } else {
          FitsOne(t.parent, of, Bool(true));
        }
      }
      RepeatRepeats(t);
      assert Selected(t, Obj(o));
      LeftOut(t, of, fitting);
    }
  }

  // A value that may be repeated, to promote its element.
  function Repeat(t: Target): Json {
    var v := if EqualFold(t.sub, "primary") then Bool(true) else Obj(map["primary" := Bool(true)]);
    if t.attr.multi then List([v]) else v
  }

  lemma RepeatRepeats(t: Target)
    ensures Repeatable(t, Replace, Repeat(t)) && !IsUnassigned(Repeat(t))
  {
    hide Get;
    var o: Object := map["primary" := Bool(true)];
    HeldUnder(o, "primary");
    assert "primary" in o && Primary(Obj(o));
    UniqueOfOne(t.attr, Obj(o));
    if t.attr.multi && !EqualFold(t.sub, "primary") {
      assert Primary(Repeat(t).elements[0]);
    }
  }

  lemma LeftOut(t: Target, of: string, fitting: bool)
    requires IsComplexList(t.parent) && t.filter.Some? && TestsPresence(of, t.filter.value) && of != "primary"
    ensures LeavesSome(t, fitting)
  {
    hide Get;
    var o: Object := map["primary" := Bool(true), of := Null];
    HeldUnder(o, "primary");
    HeldUnder(o, of);
    assert Primary(Obj(o)) && !Selected(t, Obj(o)) && Fits(t.parent, o);
  }

  lemma FitsOne(a: Attribute, name: string, v: Json)
    requires !v.Obj? && !v.List?
    ensures Fits(a, map[name := v])
  {
  }

  lemma FitsMany(t: Target, name: string, list: seq<Json>)
    requires Lookup(t.parent.subs, name) == Some(t.attr) && t.attr.multi
    requires forall i :: 0 <= i < |list| ==> !list[i].Obj?
    ensures Fits(t.parent, map[name := List(list)])
  {
  }

  // Replacing "path[sub pr].sub": held back by an immutable sub-attribute; and replacing "path[sub pr]" by nothing.
  lemma PresentWrite(p: Patcher, path: string, of: string, sub: string, t: Target, fitting: bool)
    requires WellNamed(p.schemas) && WalksAll(p.walk)
    requires FilterPrint.WfPath(path) && FilterPrint.SplitPath(path).subAttribute == "" && FilterPrint.WfPath(of)
    requires sub == "" || (sub == of && FilterLexer.MatchName(sub) == |sub|)
    requires var parsed := Presence(path, of, sub);
             Locate(p, parsed) == Ok(t) && t.sub == sub
    requires ProtectedList(t.parent) && t.filter.Some? && TestsPresence(of, t.filter.value)
    ensures var parsed := Presence(path, of, sub);
            KeptBy(p, "replace", FilterPath.PrintPath(parsed), t.extension, t.name, t.parent, fitting) <==>
              HeldBack(t, fitting)
  {
    hide KeptBy, WalksAll, FilterPath.ParsePath, FilterPath.PrintPath, FilterPrint.SplitPath, FilterPrint.WfPath, Get,
         Lower, WellNamed, Locate, FilterLexer.MatchName, OpensWrite, HeldBack, TestsPresence, ProtectedList;
    var parsed := Presence(path, of, sub);
    FilterPath.FilteredPathReads(path, FilterGrammar.Present(of), sub);
    LowerWords();
    ImmutableKeptExactly(p, "replace", FilterPath.PrintPath(parsed), parsed, t, fitting);
    IsObjectList(t.parent);
    if sub != "" {
      SimpleSubs(p, parsed, t);
    }
    if HeldBack(t, fitting) {
      HeldBackSub(t, fitting);
      NothingYields(t, fitting);
    } else {
      SomePathName(of);
      SomethingYields(t, of, fitting);
    }
  }

  lemma HeldBackSub(t: Target, fitting: bool)
    requires HeldBack(t, fitting)
    ensures t.sub != ""
  {
  }

  lemma SomePathName(path: string)
    requires FilterPrint.WfPath(path)
    ensures path != ""
  {
  }
}
