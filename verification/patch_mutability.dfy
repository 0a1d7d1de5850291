// What a run of PATCH operations may not do: change readOnly attributes, change immutable ones that
// are assigned, or touch an attribute no operation names (section 7 of RFC 7643).
module PatchMutability {
  import opened Wrappers
  import opened Text
  import opened PatchObject
  import opened PatchValue
  import opened PatchUnique
  import opened PatchEngine
  import FilterPrint
  import FilterPath

  ghost function At(root: Object, extension: string, name: string): Json {
    Get(Container(root, extension), name)
  }

  // Attributes have names, and none of the base schema is named like an extension.
  predicate WellNamed(s: Schemas) {
    && (forall i :: 0 <= i < |s.base.attributes| ==> s.base.attributes[i].name != "")
    && (forall e, i :: 0 <= e < |s.extensions| && 0 <= i < |s.extensions[e].attributes| ==>
          s.extensions[e].attributes[i].name != "")
    && (forall e, i :: 0 <= e < |s.extensions| && 0 <= i < |s.base.attributes| ==>
          !EqualFold(s.base.attributes[i].name, s.extensions[e].id))
  }

  // The resource spells the id of an extension in one way only.
  ghost predicate Tidy(s: Schemas, root: Object) {
    forall e :: 0 <= e < |s.extensions| ==> OneSpelling(root, s.extensions[e].id)
  }

  ghost predicate OneSpelling(o: Object, name: string) {
    forall k, l :: k in Matches(o, name) && l in Matches(o, name) ==> k == l
  }

  // Nothing happened to an attribute; an extension whose attributes hold no data may have been taken out.
  ghost predicate Undisturbed(extension: string, before: Json, after: Json) {
    after == before || (extension != "" && Blank(before) && after == Null)
  }

  ghost predicate KeptFields(a: Attribute, x: Object, y: Object) {
    forall k: string :: Equal(SubAttribute(a, k), Held(x, k), Held(y, k))
  }

  // Equal, or unassigned both times, which is the same (section 2.5 of RFC 7643).
  predicate SameMember(a: Attribute, k: string, x: Json, y: Json) {
    Equal(SubAttribute(a, k), x, y) || (IsUnassigned(x) && IsUnassigned(y))
  }

  ghost predicate SameFields(a: Attribute, x: Object, y: Object) {
    forall k: string :: SameMember(a, k, Held(x, k), Held(y, k))
  }

  // The element itself, or one with the same sub-attributes.
  ghost predicate KeptElement(a: Attribute, x: Json, y: Json) {
    x == y || (x.Obj? && y.Obj? && SameFields(a, x.fields, y.fields))
  }

  ghost predicate KeptList(a: Attribute, xs: seq<Json>, ys: seq<Json>) {
    |xs| == |ys| && forall i :: 0 <= i < |xs| ==> KeptElement(a, xs[i], ys[i])
  }

  // Equal as a value, sub-attribute by sub-attribute, or element by element.
  ghost predicate Kept(a: Attribute, before: Json, after: Json) {
    || Equal(a, before, after)
    || (a.kind == ComplexKind && before.Obj? && after.Obj? && KeptFields(a, before.fields, after.fields))
    || (IsComplexList(a) && before.List? && after.List? && KeptList(a, before.elements, after.elements))
  }

  predicate IsComplexList(a: Attribute) {
    a.kind == ComplexKind && a.multi
  }

  // Attributes without sub-attributes, and singular complex ones with no complex attribute inside.
  predicate Protected(a: Attribute) {
    a.mutability == Immutable &&
    ((a.kind != ComplexKind && a.subs == []) ||
     (a.kind == ComplexKind && !a.multi &&
      forall i :: 0 <= i < |a.subs| ==> a.subs[i].kind != ComplexKind || a.subs[i].multi))
  }

  // Lists of objects whose sub-attributes are simple (section 2.3.8 of RFC 7643 allows no others).
  predicate ProtectedList(a: Attribute) {
    && a.mutability == Immutable && IsComplexList(a)
    && forall i :: 0 <= i < |a.subs| ==> a.subs[i].kind != ComplexKind && a.subs[i].subs == []
  }

  // The immutable attributes as RFC 7643 lets them be defined.
  predicate Guarded(a: Attribute) {
    Protected(a) || ProtectedList(a)
  }

  ghost predicate Assigned(a: Attribute, v: Json) {
    !Blank(v) && (a.kind == ComplexKind ==> if a.multi then v.List? else v.Obj?)
  }

  // ---- What reaches into an immutable list ----

  // Nothing holds what is written to this element: the gate on the parent is for singular attributes only, and
  // the one on the sub-attribute for an immutable one that is assigned.
  ghost predicate Unheld(t: Target, o: Object) {
    t.sub == "" || t.attr.mutability != Immutable || IsUnassigned(Get(o, t.sub))
  }

  // The gate lets a held value be sent again, and sending it makes the element primary: the flag itself, or a
  // value that is an object with the flag.
  ghost predicate Repeatable(t: Target, op: Op, held: Json) {
    if t.attr.multi then
      held.List? &&
      if EqualFold(t.sub, "primary") then
        if op == Add then Bool(true) in held.elements else held.elements == [Bool(true)]
      else SomePrimary(held) && (op == Replace ==> Unique(t.attr, held.elements) == held.elements)
    else
      if EqualFold(t.sub, "primary") then held == Bool(true) else SomePrimary(held) && (op == Add ==> !held.List?)
  }

  // A write changes one of these elements: one that the filter selects, where nothing holds it, or one that it
  // leaves out, which is primary and gives way to one that is selected.
  ghost predicate OpensIn(t: Target, op: Op, elements: seq<Json>) {
    IsComplexList(t.parent) && t.filter.Some? &&
    exists i :: 0 <= i < |elements| && elements[i].Obj? && Selected(t, elements[i]) &&
                Yields(t, op, elements[i].fields, LeavesPrimary(t, elements))
  }

  // A selected element can be written, or its primary flag taken over from one that is left out.
  ghost predicate Yields(t: Target, op: Op, o: Object, left: bool) {
    Unheld(t, o) || (left && Repeatable(t, op, Get(o, t.sub)))
  }

  ghost predicate LeavesPrimary(t: Target, elements: seq<Json>)
    requires t.filter.Some?
  {
    exists j :: 0 <= j < |elements| && Primary(elements[j]) && !Selected(t, elements[j])
  }

  // A sub-attribute is removed from one of these elements, with a filter or without, unless it is held fast itself.
  ghost predicate OpensOut(t: Target, elements: seq<Json>) {
    IsComplexList(t.parent) && t.sub != "" && !t.attr.required && t.attr.mutability != Immutable &&
    exists i :: 0 <= i < |elements| && Holds(t, elements[i]) && !IsUnassigned(Get(elements[i].fields, t.sub))
  }

  // ---- Whether there are elements that a path reaches into ----

  predicate SimpleValue(a: Attribute, v: Json) {
    !v.Obj? && (v.List? ==> a.multi && forall i :: 0 <= i < |v.elements| ==> !v.elements[i].Obj?)
  }

  // The sub-attributes hold simple values, as their definitions say.
  ghost predicate Fits(a: Attribute, o: Object) {
    forall k :: k in o && Lookup(a.subs, k).Some? ==> SimpleValue(SubAttribute(a, k), o[k])
  }

  ghost predicate FitsList(a: Attribute, elements: seq<Json>) {
    forall i :: 0 <= i < |elements| && elements[i].Obj? ==> Fits(a, elements[i].fields)
  }

  // A write opens its target: the filter selects some object where nothing holds what is written, or one where
  // repeating what is held makes it primary while it leaves out one that is. Only objects that fit count, if so asked.
  ghost predicate OpensWrite(t: Target, op: Op, fitting: bool) {
    IsComplexList(t.parent) && t.filter.Some? &&
    exists o: Object ::
      Selected(t, Obj(o)) && (fitting ==> Fits(t.parent, o)) && Yields(t, op, o, LeavesSome(t, fitting))
  }

  ghost predicate LeavesSome(t: Target, fitting: bool)
    requires t.filter.Some?
  {
    exists o: Object :: Primary(Obj(o)) && !Selected(t, Obj(o)) && (fitting ==> Fits(t.parent, o))
  }

  ghost predicate OpensRemoval(t: Target, fitting: bool) {
    IsComplexList(t.parent) && t.sub != "" && !t.attr.required && t.attr.mutability != Immutable &&
    exists o: Object :: Holds(t, Obj(o)) && (fitting ==> Fits(t.parent, o)) && !IsUnassigned(Get(o, t.sub))
  }

  lemma OpensSomewhere(t: Target, op: Op, elements: seq<Json>, fitting: bool)
    requires OpensIn(t, op, elements) && (fitting ==> FitsList(t.parent, elements))
    ensures OpensWrite(t, op, fitting)
  {
    hide Repeatable, Unheld, Fits, Get;
    var i :| 0 <= i < |elements| && elements[i].Obj? && Selected(t, elements[i]) &&
             Yields(t, op, elements[i].fields, LeavesPrimary(t, elements));
    var o := elements[i].fields;
    assert Selected(t, Obj(o));
    if !Unheld(t, o) {
      var j :| 0 <= j < |elements| && Primary(elements[j]) && !Selected(t, elements[j]);
      assert !Selected(t, Obj(elements[j].fields));
    }
  }

  lemma OpensOutSomewhere(t: Target, elements: seq<Json>, fitting: bool)
    requires OpensOut(t, elements) && (fitting ==> FitsList(t.parent, elements))
    ensures OpensRemoval(t, fitting)
  {
    hide Fits, Get, Selected;
    var i :| 0 <= i < |elements| && Holds(t, elements[i]) && !IsUnassigned(Get(elements[i].fields, t.sub));
    assert Holds(t, Obj(elements[i].fields));
  }

  // What happens to an attribute: nothing unless it is named, and no change once it is immutable and assigned,
  // unless the operation opens it.
  ghost predicate Respects(a: Attribute, extension: string, touched: bool, open: bool, before: Json, after: Json) {
    && (a.mutability == ReadOnly || !touched ==> Undisturbed(extension, before, after))
    && (Guarded(a) && !open && Assigned(a, before) ==> Kept(a, before, after) && Assigned(a, after))
  }

  // ---- Names ----

  lemma {:induction false} LookupFinds(list: seq<Attribute>, name: string)
    requires Lookup(list, name).Some?
    ensures exists i :: 0 <= i < |list| && list[i] == Lookup(list, name).value && EqualFold(list[i].name, name)
  {
    if EqualFold(list[0].name, name) {
    } else {
      LookupFinds(list[1..], name);
      var i :| 0 <= i < |list[1..]| && list[1..][i] == Lookup(list[1..], name).value &&
          EqualFold(list[1..][i].name, name);
      assert list[i + 1] == Lookup(list, name).value;
    }
  }

  lemma {:induction false} FindSchemaFinds(list: seq<Schema>, uri: string)
    requires FindSchema(list, uri).Some?
    ensures EqualFold(FindSchema(list, uri).value.id, uri)
    ensures exists e :: 0 <= e < |list| && list[e] == FindSchema(list, uri).value
  {
    if !EqualFold(list[0].id, uri) {
      FindSchemaFinds(list[1..], uri);
      var e :| 0 <= e < |list[1..]| && list[1..][e] == FindSchema(list[1..], uri).value;
      assert list[e + 1] == FindSchema(list, uri).value;
    }
  }

  lemma {:induction false} FindSchemaFold(list: seq<Schema>, u: string, v: string)
    requires EqualFold(u, v)
    ensures FindSchema(list, u) == FindSchema(list, v)
  {
    if list != [] {
      FindSchemaFold(list[1..], u, v);
    }
  }

  // The ids that paths resolve to differ under folding, or are the same.
  lemma IdsDistinct(s: Schemas, u: string, v: string)
    requires SchemaOf(s, u).Some? && SchemaOf(s, v).Some?
    requires SchemaOf(s, u).value.id != "" && EqualFold(SchemaOf(s, u).value.id, SchemaOf(s, v).value.id)
    ensures SchemaOf(s, u) == SchemaOf(s, v)
  {
    var x, y := SchemaOf(s, u).value, SchemaOf(s, v).value;
    FindSchemaFinds(s.extensions, u);
    assert |Fold(x.id)| == |x.id| && |Fold(y.id)| == |y.id|;
    FindSchemaFinds(s.extensions, v);
    FindSchemaFold(s.extensions, u, v);
  }

  // ---- Objects that differ under one name ----

  ghost predicate SameBut(o: Object, p: Object, name: string) {
    forall k: string :: !EqualFold(k, name) ==> ((k in o <==> k in p) && Held(o, k) == Held(p, k))
  }

  lemma GetSame(o: Object, p: Object, name: string, n: string)
    requires SameBut(o, p, name) && !EqualFold(name, n)
    ensures Matches(o, n) == Matches(p, n)
    ensures Get(o, n) == Get(p, n)
  {
    assert forall k :: EqualFold(k, n) ==> !EqualFold(k, name);
    KeyDepends(o, p, n);
  }

  lemma SetKeepsSpelling(o: Object, n: string, v: Json, name: string)
    requires OneSpelling(o, name)
    ensures OneSpelling(Set(o, n, v), name)
  {
    var k := Key(o, n);
    if k !in o {
      assert Matches(Set(o, n, v), name) <= Matches(o, name) + {n};
      if EqualFold(n, name) {
        assert Matches(o, name) == Matches(o, n);
      }
    } else {
      assert Matches(Set(o, n, v), name) == Matches(o, name);
    }
  }

  lemma RemoveKeepsSpelling(o: Object, n: string, name: string)
    requires OneSpelling(o, name)
    ensures OneSpelling(Remove(o, n), name)
  {
    assert Matches(Remove(o, n), name) <= Matches(o, name);
  }

  lemma RemoveOnly(o: Object, name: string)
    requires OneSpelling(o, name)
    ensures Get(Remove(o, name), name) == Null
  {
    if Matches(o, name) != {} {
      assert Key(o, name) in Matches(o, name);
    }
    forall k ensures k !in Matches(Remove(o, name), name) {
      assert k in Matches(Remove(o, name), name) ==> k in Matches(o, name);
    }
  }

  // ---- Every write or removal changes one key of one container ----

  // The new container: the old one with a new value under the target's name, or without it.
  ghost predicate OneKey(before: Object, name: string, after: Object) {
    after == before || SetsKey(before, name, after) || after == Remove(before, name)
  }

  ghost predicate SetsKey(before: Object, name: string, after: Object) {
    after == Set(before, name, Get(after, name))
  }

  lemma OneKeySame(before: Object, name: string, after: Object)
    requires OneKey(before, name, after)
    ensures SameBut(before, after, name)
  {
    hide Get;
  }

  lemma OneKeySet(o: Object, name: string, v: Json)
    ensures SetsKey(o, name, Set(o, name, v)) && OneKey(o, name, Set(o, name, v))
  {
    GetSetSame(o, name, v);
  }

  lemma WriteOneKey(container: Object, t: Target, op: Op, incoming: Json, walk: Object -> seq<string>)
    requires t.name != "" && WriteIn(container, t, op, incoming, walk).Ok?
    ensures SetsKey(container, t.name, WriteIn(container, t, op, incoming, walk).value)
  {
    hide Get, Set, Remove, Merge, PutValue, PutSelected, DemoteOthers, Fresh, StripReadOnly, Promotes, Coerce,
         Substitute, Keeps, Equal, Writable, Gated, HoldsAny, Unique, OneKey, SetsKey;
    var stripped := StripReadOnly(if WriteKey(t) == "" then t.parent else t.attr, incoming);
    var after := WriteIn(container, t, op, incoming, walk).value;
    if SelectsValues(t) {
      var elements := ElementsAt(Get(container, t.name));
      var matched := MatchedBy(t, elements);
      var placed := incoming == Null || Keeps(t.attr, elements, matched, incoming);
      OneKeySet(container, t.name, List(Substitute(elements, matched, incoming, placed)));
    } else if t.filter.Some? {
      var elements := ElementsAt(Get(container, t.name));
      var list := PutSelected(elements, t, op, stripped, elements, walk).value;
      OneKeySet(container, t.name, DemoteOthers(t, Get(container, t.name), List(list), op, stripped));
    } else if t.sub == "" {
      WholeOneKey(container, t, op, stripped, walk);
    } else {
      var next := Put(AsObject(Get(container, t.name)), t, op, stripped, [], walk).value;
      OneKeySet(container, t.name, Obj(next));
    }
  }

  lemma PutOneKey(holder: Object, t: Target, op: Op, incoming: Json, stored: seq<Json>, walk: Object -> seq<string>)
    requires WriteKey(t) != "" && Put(holder, t, op, incoming, stored, walk).Ok?
    ensures SetsKey(holder, WriteKey(t), Put(holder, t, op, incoming, stored, walk).value)
  {
    hide Get, Set, Remove, Merge, Fresh, Equal, Writable, Gated, Unique, CarryForward, OneKey, SetsKey;
    var key := WriteKey(t);
    if incoming.Obj? && t.attr.kind == ComplexKind && !t.attr.multi {
      OneKeySet(holder, key, Obj(Merge(AsObject(Get(holder, key)), t.attr, op, incoming.fields, walk).value));
    } else {
      var before := Get(holder, key);
      var shaped := Shaped(t.attr, incoming);
      var v := if op == Add && t.attr.multi && before.List? && !IsListAdd(t, op)
               then List(Fresh(t.attr, before.elements, ListOf(shaped))) else shaped;
      OneKeySet(holder, key, Appended(before, CarryForward(t.attr, op, stored, v), op));
    }
  }

  lemma WholeOneKey(container: Object, t: Target, op: Op, incoming: Json, walk: Object -> seq<string>)
    requires t.name != "" && t.filter.None? && t.sub == "" && WriteWhole(container, t, op, incoming, walk).Ok?
    ensures SetsKey(container, t.name, WriteWhole(container, t, op, incoming, walk).value)
  {
    hide Get, Set, Remove, Put, DemoteOthers, Fresh, Promotes;
    var before := Get(container, t.name);
    var added := if IsListAdd(t, op) then List(Fresh(t.attr, ElementsAt(before), ListOf(incoming))) else incoming;
    PutOneKey(container, t, op, added, ElementsAt(before), walk);
    var next := Put(container, t, op, added, ElementsAt(before), walk).value;
    var after := Get(next, t.name);
    SetTwice(container, t.name, after, DemoteOthers(t, before, after, op, added));
    OneKeySet(container, t.name, DemoteOthers(t, before, after, op, added));
  }

  lemma RemoveOneKey(container: Object, t: Target)
    requires RemoveIn(container, t).Ok?
    ensures OneKey(container, t.name, RemoveIn(container, t).value)
  {
    hide Get, Set, Remove, Removable, Substitute, Keeps, Equal, Writable, HoldsAny, OneKey, SetsKey;
    var before := Get(container, t.name);
    var elements := ElementsAt(before);
    var after := RemoveIn(container, t).value;
    if t.filter.Some? && t.sub == "" {
      var matched := MatchedBy(t, elements);
      OneKeySet(container, t.name, List(Substitute(elements, matched, Null, true)));
    } else if t.sub == "" {
      RemoveIsOneKey(container, t.name);
    } else if t.filter.None? && before.Obj? {
      OneKeySet(container, t.name, Obj(Remove(before.fields, t.sub)));
    } else if t.filter.None? && !before.List? {
      RemoveIsOneKey(container, t.name);
    } else {
      OneKeySet(container, t.name, List(RemoveFrom(elements, t)));
    }
  }

  lemma RemoveIsOneKey(o: Object, name: string)
    ensures OneKey(o, name, Remove(o, name)) && OneKey(o, name, o)
  {
  }

  // ---- The target of an operation ----

  // A schema is found again under its id.
  lemma FoundUnderId(s: Schemas, uri: string)
    requires SchemaOf(s, uri).Some?
    ensures SchemaOf(s, SchemaOf(s, uri).value.id) == SchemaOf(s, uri)
  {
    if uri != "" && !EqualFold(s.base.id, uri) {
      FindSchemaFinds(s.extensions, uri);
      var id := FindSchema(s.extensions, uri).value.id;
      assert |Fold(id)| == |id| && |Fold(uri)| == |uri|;
      FindSchemaFold(s.extensions, id, uri);
    }
  }

  lemma LocateFinds(p: Patcher, path: FilterPath.Path)
    requires WellNamed(p.schemas) && Locate(p, path).Ok?
    ensures var t := Locate(p, path).value;
            && t.name == path.attribute.name && t.name != ""
            && Addresses(p.schemas, path.attribute, t.extension, t.name)
            && Defines(p.schemas, t.extension, t.name, t.parent)
            && t.parent.mutability != ReadOnly && t.attr.mutability != ReadOnly
            && (t.filter.Some? ==> t.parent.multi)
            && (if t.sub == "" then t.attr == t.parent else Lookup(t.parent.subs, t.sub) == Some(t.attr))
  {
    hide FindSchema, Lookup;
    var schema := SchemaOf(p.schemas, path.attribute.uri).value;
    FoundUnderId(p.schemas, path.attribute.uri);
    LookupFinds(schema.attributes, path.attribute.name);
    if schema.id != "" {
      FindSchemaFinds(p.schemas.extensions, path.attribute.uri);
    } else {
      EmptyIdIsBase(p.schemas, path.attribute.uri);
    }
    assert Fold("") == "" && |Fold(path.attribute.name)| == |path.attribute.name|;
  }

  lemma EmptyIdIsBase(s: Schemas, uri: string)
    requires SchemaOf(s, uri).Some? && SchemaOf(s, uri).value.id == ""
    ensures SchemaOf(s, uri).value.attributes == s.base.attributes
  {
    assert Fold("") == "" && |Fold(uri)| == |uri|;
    if uri != "" && !EqualFold(s.base.id, uri) {
      FindSchemaFinds(s.extensions, uri);
    }
  }

  // What a path addresses: an attribute, under any spelling.
  ghost predicate Addresses(s: Schemas, path: FilterPrint.AttrPath, extension: string, name: string) {
    SchemaOf(s, path.uri).Some? && SchemaOf(s, path.uri).value.id == extension && EqualFold(path.name, name)
  }

  // ---- One container put back into the resource ----

  lemma PutBackElsewhere(s: Schemas, root: Object, t: Target, container: Object, prune: bool,
                         extension: string, name: string, a: Attribute)
    requires WellNamed(s) && Tidy(s, root) && Defines(s, extension, name, a)
    requires Defines(s, t.extension, t.name, t.parent)
    requires OneKey(Container(root, t.extension), t.name, container)
    requires t.extension != extension
    ensures At(WithContainer(root, t.extension, container, prune), extension, name) == At(root, extension, name)
  {
    hide Get, Set, Remove, AllUnassigned, OneKey, Defines;
    var after := WithContainer(root, t.extension, container, prune);
    if t.extension == "" {
      OneKeySame(root, t.name, container);
      DefinesBase(s, t.name, t.parent);
      DefinesId(s, extension, name, a);
      BaseNotExtension(s, t.name, extension);
      GetSame(root, after, t.name, extension);
    } else {
      RootKey(root, t.extension, container, prune);
      if extension == "" {
        DefinesBase(s, name, a);
        DefinesId(s, t.extension, t.name, t.parent);
        BaseNotExtension(s, name, t.extension);
        GetSame(root, after, t.extension, name);
      } else {
        DefinesId(s, extension, name, a);
        if EqualFold(t.extension, extension) {
          DefinesId(s, t.extension, t.name, t.parent);
          IdsDistinct(s, t.extension, extension);
        }
        GetSame(root, after, t.extension, extension);
      }
    }
  }

  lemma DefinesBase(s: Schemas, name: string, a: Attribute)
    requires Defines(s, "", name, a)
    ensures Lookup(s.base.attributes, name) == Some(a)
  {
  }

  lemma DefinesId(s: Schemas, extension: string, name: string, a: Attribute)
    requires Defines(s, extension, name, a)
    ensures SchemaOf(s, extension).Some? && SchemaOf(s, extension).value.id == extension
    ensures Lookup(SchemaOf(s, extension).value.attributes, name) == Some(a)
  {
  }

  // No name of a base attribute stands for an extension.
  lemma BaseNotExtension(s: Schemas, name: string, extension: string)
    requires WellNamed(s) && Lookup(s.base.attributes, name).Some?
    requires extension != "" && SchemaOf(s, extension).Some? && SchemaOf(s, extension).value.id == extension
    ensures !EqualFold(name, extension) && !EqualFold(extension, name)
  {
    LookupFinds(s.base.attributes, name);
    FindSchemaFinds(s.extensions, extension);
  }

  lemma RootKey(root: Object, extension: string, container: Object, prune: bool)
    requires extension != ""
    ensures SameBut(root, WithContainer(root, extension, container, prune), extension)
  {
    hide AllUnassigned, Get;
  }

  lemma PutBackSame(s: Schemas, root: Object, extension: string, container: Object, prune: bool, name: string)
    requires Tidy(s, root)
    requires extension == "" || (SchemaOf(s, extension).Some? && SchemaOf(s, extension).value.id == extension)
    ensures var after := At(WithContainer(root, extension, container, prune), extension, name);
            after == Get(container, name) || (extension != "" && AllUnassigned(container) && after == Null)
  {
    hide AllUnassigned;
    if extension != "" {
      FindSchemaFinds(s.extensions, extension);
      assert OneSpelling(root, extension);
      RemoveOnly(root, extension);
      GetSetSame(root, extension, Obj(container));
    }
  }

  lemma BlankMembers(o: Object, name: string)
    requires AllUnassigned(o)
    ensures Blank(Get(o, name))
  {
  }

  // ---- An immutable value survives the operation that addresses it ----

  lemma SubFold(a: Attribute, n: string, m: string)
    requires EqualFold(n, m)
    ensures SubAttribute(a, n) == SubAttribute(a, m)
  {
    LookupFold(a.subs, n, m);
  }

  lemma KeptFieldsTransitive(a: Attribute, x: Object, y: Object, z: Object)
    requires KeptFields(a, x, y) && KeptFields(a, y, z)
    ensures KeptFields(a, x, z)
  {
    forall k: string ensures Equal(SubAttribute(a, k), Held(x, k), Held(z, k)) {
      EqualTransitive(SubAttribute(a, k), Held(x, k), Held(y, k), Held(z, k));
    }
  }

  lemma KeptFieldsAssigned(a: Attribute, x: Object, y: Object)
    requires KeptFields(a, x, y) && !Blank(Obj(x))
    ensures !Blank(Obj(y))
  {
    var k :| k in x && !Blank(x[k]);
    EqualBlank(SubAttribute(a, k), Held(x, k), Held(y, k));
    assert Blank(Null);
  }

  // One sub-attribute written through its key, with an equal value.
  lemma KeptFieldsSet(a: Attribute, o: Object, n: string, v: Json)
    requires Equal(SubAttribute(a, n), Get(o, n), v)
    ensures KeptFields(a, o, o[Key(o, n) := v])
  {
    hide Equal, SubAttribute;
    var key := Key(o, n);
    SubFold(a, n, key);
    forall k: string ensures Equal(SubAttribute(a, k), Held(o, k), Held(o[key := v], k)) {
      EqualReflexive(SubAttribute(a, k), Held(o, k));
    }
  }

  lemma KeptFieldsRemove(a: Attribute, o: Object, n: string)
    requires Equal(SubAttribute(a, n), Get(o, n), Null)
    ensures KeptFields(a, o, Remove(o, n))
  {
    hide SubAttribute;
    forall k: string ensures Equal(SubAttribute(a, k), Held(o, k), Held(Remove(o, n), k)) {
      EqualReflexive(SubAttribute(a, k), Held(o, k));
    }
  }

  lemma {:induction false} MergeKeeps(holder: Object, a: Attribute, op: Op, values: Object, order: seq<string>)
    requires MergeWalk(holder, a, true, op, values, order).Ok?
    ensures KeptFields(a, holder, MergeWalk(holder, a, true, op, values, order).value)
    decreases |order|
  {
    hide Equal, SubAttribute, KeptFields, Shaped, Fresh, Writable;
    if order == [] {
      KeptFieldsSame(a, holder);
    } else if order[0] !in values {
      MergeKeeps(holder, a, op, values, order[1..]);
    } else {
      var next := MergeField(holder, a, true, op, order[0], values[order[0]]).value;
      var key := Key(holder, order[0]);
      KeptFieldsSet(a, holder, order[0], next[key]);
      MergeKeeps(next, a, op, values, order[1..]);
      KeptFieldsTransitive(a, holder, next, MergeWalk(next, a, true, op, values, order[1..]).value);
    }
  }

  lemma KeptFieldsSame(a: Attribute, o: Object)
    ensures KeptFields(a, o, o)
  {
    forall k: string ensures Equal(SubAttribute(a, k), Held(o, k), Held(o, k)) {
      EqualReflexive(SubAttribute(a, k), Held(o, k));
    }
  }

  // Filling from nothing, or no sub-attributes to fill, leaves a candidate as it is.
  lemma NothingCarried(a: Attribute, op: Op, stored: seq<Json>, candidate: Json)
    requires stored == [] || a.subs == []
    ensures CarryForward(a, op, stored, candidate) == candidate
  {
    if candidate.List? && a.subs != [] {
      forall i | 0 <= i < |candidate.elements|
        ensures FillElement(a, stored, candidate.elements[i]) == candidate.elements[i]
      {
        assert !Contains(a, stored, candidate.elements[i]);
      }
      assert candidate.elements == seq(|candidate.elements|,
          i requires 0 <= i < |candidate.elements| => FillElement(a, stored, candidate.elements[i]));
    }
  }

  lemma {:induction false} AdmitAllGrows(a: Attribute, kept: seq<Json>, list: seq<Json>)
    requires kept != []
    ensures AdmitAll(a, kept, list) != []
    decreases |list|
  {
    if list != [] {
      AdmitAllGrows(a, Admit(a, kept, list[0]), list[1..]);
    }
  }

  lemma UniqueOfSome(a: Attribute, list: seq<Json>)
    requires Unique(a, list) == []
    ensures list == []
  {
    if |list| >= 2 {
      assert Admit(a, [], list[0]) == [list[0]];
      AdmitAllGrows(a, [list[0]], list[1..]);
    }
  }

  // An attribute without sub-attributes, written as a whole: gated on the very value that is stored.
  lemma WholeKeepsSimple(container: Object, t: Target, op: Op, incoming: Json, walk: Object -> seq<string>)
    requires Protected(t.parent) && t.attr == t.parent && t.parent.kind != ComplexKind &&
             Assigned(t.parent, Get(container, t.name))
    requires t.name != "" && t.filter.None? && t.sub == "" && WriteWhole(container, t, op, incoming, walk).Ok?
    ensures Equal(t.parent, Get(container, t.name), Get(WriteWhole(container, t, op, incoming, walk).value, t.name))
  {
    hide Fresh, Unique, Promotes, Set, Get, CarryForward, Demote, Equal;
    var before := Get(container, t.name);
    var added := if IsListAdd(t, op) then List(Fresh(t.attr, ElementsAt(before), ListOf(incoming))) else incoming;
    var shaped := Shaped(t.attr, added);
    NothingCarried(t.attr, op, ElementsAt(before), shaped);
    assert op == Add && t.attr.multi ==> IsListAdd(t, op);
    var final := Appended(before, shaped, op);
    var next := Put(container, t, op, added, ElementsAt(before), walk).value;
    assert next == Set(container, t.name, final);
    GetSetSame(container, t.name, final);
    assert Equal(t.parent, before, final);
    if final.List? {
      EqualLists(t.parent, before, final);
      if op == Add {
        NothingAdded(t, before, added);
      } else {
        AllWritten(t, before, final, op, added);
        GetSetSame(next, t.name, final);
      }
    }
  }

  lemma EqualLists(a: Attribute, before: Json, after: Json)
    requires Equal(a, before, after) && after.List?
    ensures before == after
  {
  }

  // Adding to a list what leaves it as it is promotes nothing.
  lemma NothingAdded(t: Target, before: Json, added: Json)
    requires before.List? && Appended(before, Shaped(t.attr, added), Add) == before
    ensures !Promotes(t.name, added)
  {
    var list := ListOf(Shaped(t.attr, added));
    assert |before.elements + list| == |before.elements| + |list|;
    assert list == [];
    if t.attr.multi {
      UniqueOfSome(t.attr, ListOf(added));
    }
    assert added == Null || added == List([]);
  }

  lemma AllWritten(t: Target, before: Json, after: Json, op: Op, incoming: Json)
    requires after.List? && t.filter.None? && op == Replace
    ensures DemoteOthers(t, before, after, op, incoming) == after
  {
    var written := Written(t, ElementsAt(before), after.elements, op);
    assert Demote(after.elements, written) == after.elements;
  }

  lemma WholeKeepsComplex(container: Object, t: Target, op: Op, incoming: Json, walk: Object -> seq<string>)
    requires Protected(t.parent) && t.attr == t.parent && t.parent.kind == ComplexKind &&
             Assigned(t.parent, Get(container, t.name))
    requires t.name != "" && t.filter.None? && t.sub == "" && WriteWhole(container, t, op, incoming, walk).Ok?
    ensures Kept(t.parent, Get(container, t.name), Get(WriteWhole(container, t, op, incoming, walk).value, t.name))
    ensures Get(WriteWhole(container, t, op, incoming, walk).value, t.name).Obj?
  {
    hide Promotes, Set, Get, CarryForward, DemoteOthers, KeptFields;
    var before := Get(container, t.name);
    assert !IsListAdd(t, op);
    if incoming.Obj? {
      var merged := Merge(before.fields, t.attr, op, incoming.fields, walk).value;
      MergeKeeps(before.fields, t.attr, op, incoming.fields, walk(incoming.fields));
      GetSetSame(container, t.name, Obj(merged));
    }
  }

  lemma SubKeeps(container: Object, t: Target, op: Op, incoming: Json, walk: Object -> seq<string>)
    requires Protected(t.parent) && t.sub != "" && Lookup(t.parent.subs, t.sub) == Some(t.attr) &&
             Assigned(t.parent, Get(container, t.name))
    requires t.filter.None? && WriteSub(container, t, op, incoming, walk).Ok?
    ensures Kept(t.parent, Get(container, t.name), Get(WriteSub(container, t, op, incoming, walk).value, t.name))
    ensures Get(WriteSub(container, t, op, incoming, walk).value, t.name).Obj?
  {
    hide Get, CarryForward, Fresh, Unique, Equal, KeptFields, Lookup;
    var before := Get(container, t.name);
    LookupFinds(t.parent.subs, t.sub);
    assert t.parent.kind == ComplexKind && before.Obj?;
    assert !(t.attr.kind == ComplexKind && !t.attr.multi);
    var holder := before.fields;
    var held := Get(holder, t.sub);
    var shaped := Shaped(t.attr, incoming);
    var v := if op == Add && t.attr.multi && held.List? && !IsListAdd(t, op)
             then List(Fresh(t.attr, held.elements, ListOf(shaped))) else shaped;
    NothingCarried(t.attr, op, [], v);
    var final := Appended(held, v, op);
    var next := Put(holder, t, op, incoming, [], walk).value;
    assert next == Set(holder, t.sub, final);
    KeptFieldsSet(t.parent, holder, t.sub, final);
    GetSetSame(container, t.name, Obj(next));
  }

  lemma WriteKeeps(container: Object, t: Target, op: Op, incoming: Json, walk: Object -> seq<string>)
    requires Protected(t.parent) && t.name != "" && (t.filter.Some? ==> t.parent.multi)
    requires if t.sub == "" then t.attr == t.parent else Lookup(t.parent.subs, t.sub) == Some(t.attr)
    requires Assigned(t.parent, Get(container, t.name)) && WriteIn(container, t, op, incoming, walk).Ok?
    ensures var after := Get(WriteIn(container, t, op, incoming, walk).value, t.name);
            Kept(t.parent, Get(container, t.name), after) && Assigned(t.parent, after)
  {
    hide WriteWhole, WriteSub, WriteFiltered, Kept, StripReadOnly, Get, Equal, Substitute, Keeps, Coerce, Set;
    var before := Get(container, t.name);
    var stripped := StripReadOnly(if WriteKey(t) == "" then t.parent else t.attr, incoming);
    var after := Get(WriteIn(container, t, op, incoming, walk).value, t.name);
    if t.sub != "" {
      LookupFinds(t.parent.subs, t.sub);
      SubKeeps(container, t, op, stripped, walk);
    } else if t.filter.Some? {
      RewriteKeeps(container, t, MatchedBy(t, ElementsAt(before)), incoming);
      EqualReflexive(t.parent, before);
      EqualIsKept(t.parent, before, after);
    } else if t.parent.kind == ComplexKind {
      WholeKeepsComplex(container, t, op, stripped, walk);
    } else {
      WholeKeepsSimple(container, t, op, stripped, walk);
      EqualIsKept(t.parent, before, after);
    }
    KeptAssigned(t.parent, before, after);
  }

  lemma EqualIsKept(a: Attribute, before: Json, after: Json)
    requires Equal(a, before, after)
    ensures Kept(a, before, after)
  {
  }

  lemma KeptAssigned(a: Attribute, before: Json, after: Json)
    requires Kept(a, before, after) && Assigned(a, before) && (a.kind == ComplexKind ==> after.Obj?)
    ensures Assigned(a, after)
  {
    if Equal(a, before, after) {
      EqualBlank(a, before, after);
    } else {
      KeptFieldsAssigned(a, before.fields, after.fields);
    }
  }

  // A list rewritten around the values a filter selects.
  lemma RewriteKeeps(container: Object, t: Target, matched: seq<bool>, incoming: Json)
    requires t.attr.mutability == Immutable && |matched| == |ElementsAt(Get(container, t.name))| && true in matched
    requires Rewrite(container, t, matched, incoming).Ok?
    ensures Get(Rewrite(container, t, matched, incoming).value, t.name) == Get(container, t.name)
  {
    hide Set, Get, Substitute, Keeps;
    var elements := ElementsAt(Get(container, t.name));
    var placed := incoming == Null || Keeps(t.attr, elements, matched, incoming);
    var after := Substitute(elements, matched, incoming, placed);
    assert elements != [];
    assert List(elements) == Get(container, t.name);
    GetSetSame(container, t.name, List(after));
  }

  lemma RemoveKeeps(container: Object, t: Target)
    requires Protected(t.parent) && (t.filter.Some? ==> t.parent.multi)
    requires if t.sub == "" then t.attr == t.parent else Lookup(t.parent.subs, t.sub) == Some(t.attr)
    requires Assigned(t.parent, Get(container, t.name)) && RemoveIn(container, t).Ok?
    requires !(t.filter.None? && t.sub == "")
    ensures var after := Get(RemoveIn(container, t).value, t.name);
            Kept(t.parent, Get(container, t.name), after) && Assigned(t.parent, after)
  {
    hide Get, Set, Substitute, Keeps, KeptFields;
    var before := Get(container, t.name);
    if t.filter.Some? && t.sub == "" {
      RewriteKeeps(container, t, MatchedBy(t, ElementsAt(before)), Null);
      EqualReflexive(t.parent, before);
    } else {
      LookupFinds(t.parent.subs, t.sub);
      KeptFieldsRemove(t.parent, before.fields, t.sub);
      GetSetSame(container, t.name, Obj(Remove(before.fields, t.sub)));
      KeptAssigned(t.parent, before, Obj(Remove(before.fields, t.sub)));
    }
  }

  // Taking away an assigned immutable attribute is refused.
  lemma RemoveRefused(container: Object, t: Target)
    requires Guarded(t.parent) && t.attr == t.parent && t.filter.None? && t.sub == ""
    requires Assigned(t.parent, Get(container, t.name))
    ensures RemoveIn(container, t).Err?
  {
  }

  // ---- An immutable list of objects survives whatever does not open it ----

  lemma SameFieldsTransitive(a: Attribute, x: Object, y: Object, z: Object)
    requires SameFields(a, x, y) && SameFields(a, y, z)
    ensures SameFields(a, x, z)
  {
    forall k: string ensures SameMember(a, k, Held(x, k), Held(z, k)) {
      SameMemberTransitive(a, k, Held(x, k), Held(y, k), Held(z, k));
    }
  }

  lemma SameMemberTransitive(a: Attribute, k: string, x: Json, y: Json, z: Json)
    requires SameMember(a, k, x, y) && SameMember(a, k, y, z)
    ensures SameMember(a, k, x, z)
  {
    hide Equal, SubAttribute;
    var s := SubAttribute(a, k);
    if Equal(s, x, y) {
      EqualBlank(s, x, y);
      if Equal(s, y, z) {
        EqualTransitive(s, x, y, z);
      }
    } else if Equal(s, y, z) {
      EqualBlank(s, y, z);
    }
  }

  // Only a flag equals a flag.
  lemma EqualFlag(a: Attribute, v: Json, flag: bool)
    ensures Equal(a, v, Bool(flag)) <==> v == Bool(flag)
    ensures Equal(a, Bool(flag), v) <==> v == Bool(flag)
  {
  }

  lemma KeptListTransitive(a: Attribute, xs: seq<Json>, ys: seq<Json>, zs: seq<Json>)
    requires KeptList(a, xs, ys) && KeptList(a, ys, zs)
    ensures KeptList(a, xs, zs)
  {
    hide SameFields;
    forall i | 0 <= i < |xs| ensures KeptElement(a, xs[i], zs[i]) {
      assert KeptElement(a, xs[i], ys[i]) && KeptElement(a, ys[i], zs[i]);
      if xs[i] != ys[i] && ys[i] != zs[i] {
        SameFieldsTransitive(a, xs[i].fields, ys[i].fields, zs[i].fields);
      }
    }
  }

  lemma IsObjectList(a: Attribute)
    requires ProtectedList(a)
    ensures a.mutability == Immutable && IsComplexList(a)
  {
  }

  // One element, through a sub-attribute that is immutable and assigned.
  lemma PutKeeps(o: Object, t: Target, op: Op, incoming: Json, stored: seq<Json>, walk: Object -> seq<string>)
    requires ProtectedList(t.parent) && t.filter.Some? && t.sub != "" && Lookup(t.parent.subs, t.sub) == Some(t.attr)
    requires !Unheld(t, o) && Put(o, t, op, incoming, stored, walk).Ok?
    ensures SameFields(t.parent, o, Put(o, t, op, incoming, stored, walk).value)
  {
    hide Get, CarryForward, Fresh, Unique, Equal, KeptFields, Lookup, SameFields;
    LookupFinds(t.parent.subs, t.sub);
    assert t.attr.kind != ComplexKind && t.attr.subs == [];
    var held := Get(o, t.sub);
    var shaped := Shaped(t.attr, incoming);
    var v := if op == Add && t.attr.multi && held.List? && !IsListAdd(t, op)
             then List(Fresh(t.attr, held.elements, ListOf(shaped))) else shaped;
    NothingCarried(t.attr, op, stored, v);
    var final := Appended(held, v, op);
    assert Put(o, t, op, incoming, stored, walk).value == Set(o, t.sub, final);
    KeptFieldsSet(t.parent, o, t.sub, final);
    AllFieldsSame(t.parent, o, Set(o, t.sub, final));
  }

  lemma AllFieldsSame(a: Attribute, x: Object, y: Object)
    requires KeptFields(a, x, y)
    ensures SameFields(a, x, y)
  {
  }

  lemma {:induction false} PutSelectedKeeps(elements: seq<Json>, t: Target, op: Op, incoming: Json, stored: seq<Json>,
                                            walk: Object -> seq<string>)
    requires ProtectedList(t.parent) && t.filter.Some? && t.sub != "" && Lookup(t.parent.subs, t.sub) == Some(t.attr)
    requires forall i :: 0 <= i < |elements| && Holds(t, elements[i]) ==> !Unheld(t, elements[i].fields)
    requires PutSelected(elements, t, op, incoming, stored, walk).Ok?
    ensures KeptList(t.parent, elements, PutSelected(elements, t, op, incoming, stored, walk).value)
    decreases |elements|
  {
    hide Get, Put, SameFields, ProtectedList, Lookup, Selected;
    if elements != [] {
      if Holds(t, elements[0]) {
        PutKeeps(elements[0].fields, t, op, incoming, stored, walk);
      }
      PutSelectedKeeps(elements[1..], t, op, incoming, stored, walk);
    }
  }

  // What passes the gate and promotes is a repeat.
  lemma RepeatsHeld(t: Target, op: Op, held: Json, v: Json)
    requires t.attr.subs == [] && t.filter.Some? && !IsUnassigned(held) && Promotes(t.sub, v)
    requires Equal(t.attr, held, Final(t, op, held, v))
    ensures Repeatable(t, op, held)
  {
    hide Get, Unique, Equal;
    var final := Final(t, op, held, v);
    if !t.attr.multi {
      if op == Add && held.List? {
        EqualWhole(t.attr, held, final);
      } else if EqualFold(t.sub, "primary") {
        EqualFlag(t.attr, held, true);
      } else {
        EqualWhole(t.attr, held, v);
      }
    } else if op == Replace || !held.List? {
      EqualWhole(t.attr, held, final);
      RepeatsList(t, held, v);
    } else {
      EqualWhole(t.attr, held, final);
      RepeatsAdded(t, held, v);
    }
  }

  // What an element's sub-attribute would be.
  ghost function Final(t: Target, op: Op, held: Json, v: Json): Json {
    var shaped := Shaped(t.attr, v);
    Appended(held, if op == Add && t.attr.multi && held.List? then List(Fresh(t.attr, held.elements, ListOf(shaped)))
                   else shaped, op)
  }

  // Objects and lists are equal only when they are the same.
  lemma EqualWhole(a: Attribute, x: Json, y: Json)
    requires y.Obj? || y.List?
    ensures Equal(a, x, y) <==> x == y
    ensures Equal(a, y, x) <==> x == y
  {
  }

  lemma PromotesListed(t: Target, v: Json) returns (w: Json)
    requires Promotes(t.sub, v)
    ensures w in ListOf(v) && if EqualFold(t.sub, "primary") then w == Bool(true) && ListOf(v) == [w] else Primary(w)
  {
    hide Get;
    if EqualFold(t.sub, "primary") || Primary(v) {
      w := v;
    } else {
      var i :| 0 <= i < |v.elements| && Primary(v.elements[i]);
      w := v.elements[i];
    }
  }

  // An attribute without sub-attributes tells its values apart as they are, so a primary one is found as itself.
  lemma SamePrimary(a: Attribute, x: Json, w: Json)
    requires a.subs == [] && SameElement(a, x, w) && (Primary(w) || w == Bool(true))
    ensures x == w
  {
    hide Get, Equal;
    if w.Obj? {
      EqualWhole(a, x, w);
    } else {
      EqualFlag(a, x, true);
    }
  }

  lemma RepeatsList(t: Target, held: Json, v: Json)
    requires t.attr.subs == [] && t.attr.multi && Promotes(t.sub, v) && held == List(Unique(t.attr, ListOf(v)))
    ensures Repeatable(t, Replace, held) && Repeatable(t, Add, held)
  {
    hide Get, Unique, Equal;
    var w := PromotesListed(t, v);
    if EqualFold(t.sub, "primary") {
      UniqueOfOne(t.attr, w);
    } else {
      UniqueKeepsPrimary(t.attr, ListOf(v), w);
      UniqueIdempotent(t.attr, ListOf(v));
      var k :| 0 <= k < |held.elements| && Primary(held.elements[k]) && StandsFor(t.attr, held.elements[k], w);
      assert SomePrimary(held);
    }
  }

  lemma UniqueOfOne(a: Attribute, w: Json)
    ensures Unique(a, [w]) == [w]
  {
  }

  lemma {:induction false} FreshHolds(a: Attribute, elements: seq<Json>, candidates: seq<Json>)
    requires Fresh(a, elements, candidates) == []
    ensures forall i :: 0 <= i < |candidates| ==> Contains(a, elements, candidates[i])
  {
    hide Contains;
    if candidates != [] {
      assert Contains(a, elements, candidates[0]);
      FreshHolds(a, elements, candidates[1..]);
      assert forall i :: 1 <= i < |candidates| ==> candidates[i] == candidates[1..][i - 1];
    }
  }

  lemma RepeatsAdded(t: Target, held: Json, v: Json)
    requires t.attr.subs == [] && t.attr.multi && Promotes(t.sub, v) && held.List? && held == Final(t, Add, held, v)
    ensures Repeatable(t, Add, held)
  {
    hide Get, Unique, Equal, Fresh, SameElement;
    var list := Unique(t.attr, ListOf(v));
    var added := Fresh(t.attr, held.elements, list);
    assert |held.elements + added| == |held.elements| + |added|;
    FreshHolds(t.attr, held.elements, list);
    var w := PromotesListed(t, v);
    var k: nat;
    if EqualFold(t.sub, "primary") {
      UniqueOfOne(t.attr, w);
      k := 0;
    } else {
      UniqueKeepsPrimary(t.attr, ListOf(v), w);
      k :| 0 <= k < |list| && Primary(list[k]) && StandsFor(t.attr, list[k], w);
    }
    assert Contains(t.attr, held.elements, list[k]);
    var i :| 0 <= i < |held.elements| && SameElement(t.attr, held.elements[i], list[k]);
    SamePrimary(t.attr, held.elements[i], list[k]);
  }

  // A write that passes the gate at an immutable sub-attribute, and promotes, repeats what the element holds.
  lemma PutRepeats(o: Object, t: Target, op: Op, incoming: Json, stored: seq<Json>, walk: Object -> seq<string>)
    requires ProtectedList(t.parent) && t.filter.Some? && t.sub != "" && Lookup(t.parent.subs, t.sub) == Some(t.attr)
    requires !Unheld(t, o) && Put(o, t, op, incoming, stored, walk).Ok? && Promotes(t.sub, incoming)
    ensures Repeatable(t, op, Get(o, t.sub))
  {
    hide Get, CarryForward, Fresh, Unique, Equal, Lookup, Promotes, Repeatable;
    LookupFinds(t.parent.subs, t.sub);
    RepeatsHeld(t, op, Get(o, t.sub), incoming);
  }

  lemma {:induction false} PutSelectedOne(elements: seq<Json>, i: nat, t: Target, op: Op, incoming: Json,
                                          stored: seq<Json>, walk: Object -> seq<string>)
    requires PutSelected(elements, t, op, incoming, stored, walk).Ok? && i < |elements|
    ensures var after := PutSelected(elements, t, op, incoming, stored, walk).value;
            && |after| == |elements|
            && if Holds(t, elements[i]) then Put(elements[i].fields, t, op, incoming, stored, walk).Ok?
               else after[i] == elements[i]
    decreases |elements|
  {
    hide Put, Holds;
    if i > 0 {
      PutSelectedOne(elements[1..], i - 1, t, op, incoming, stored, walk);
    } else if |elements| > 1 {
      PutSelectedOne(elements[1..], 0, t, op, incoming, stored, walk);
    }
  }

  // Whoever is left out is not primary, so nobody is demoted.
  lemma NobodyDemoted(elements: seq<Json>, t: Target, op: Op, incoming: Json, walk: Object -> seq<string>)
    requires ProtectedList(t.parent) && t.filter.Some? && t.sub != "" && Lookup(t.parent.subs, t.sub) == Some(t.attr)
    requires !OpensIn(t, op, elements) && HoldsAny(t, elements) && Promotes(t.sub, incoming)
    requires PutSelected(elements, t, op, incoming, elements, walk).Ok?
    ensures var put := PutSelected(elements, t, op, incoming, elements, walk).value;
            |put| == |elements| && Demote(put, Written(t, elements, put, op)) == put
  {
    hide Put, PutSelected, Promotes, Repeatable, Unheld, Get, Lookup, ProtectedList;
    var put := PutSelected(elements, t, op, incoming, elements, walk).value;
    var i :| 0 <= i < |elements| && Holds(t, elements[i]);
    IsObjectList(t.parent);
    PutSelectedOne(elements, i, t, op, incoming, elements, walk);
    PutRepeats(elements[i].fields, t, op, incoming, elements, walk);
    assert !LeavesPrimary(t, elements);
    forall j | 0 <= j < |elements| && !Selected(t, elements[j]) ensures !Primary(put[j]) {
      PutSelectedOne(elements, j, t, op, incoming, elements, walk);
    }
    assert Demote(put, Written(t, elements, put, op)) == put;
  }

  lemma FilteredKeeps(container: Object, t: Target, op: Op, incoming: Json, walk: Object -> seq<string>)
    requires ProtectedList(t.parent) && t.filter.Some? && t.sub != "" && Lookup(t.parent.subs, t.sub) == Some(t.attr)
    requires Get(container, t.name).List? && !OpensIn(t, op, Get(container, t.name).elements)
    requires WriteFiltered(container, t, op, incoming, walk).Ok?
    ensures var after := Get(WriteFiltered(container, t, op, incoming, walk).value, t.name);
            after.List? && KeptList(t.parent, Get(container, t.name).elements, after.elements)
  {
    hide Get, Set, PutSelected, Promotes, Demote, Selected, HoldsAny, KeptList, Lookup, ProtectedList, Unheld,
         Repeatable, Written, LeavesPrimary;
    var before := Get(container, t.name);
    var put := PutSelected(before.elements, t, op, incoming, before.elements, walk).value;
    IsObjectList(t.parent);
    PutSelectedKeeps(before.elements, t, op, incoming, before.elements, walk);
    GetSetSame(container, t.name, DemoteOthers(t, before, List(put), op, incoming));
    if Promotes(WriteKey(t), incoming) {
      NobodyDemoted(before.elements, t, op, incoming, walk);
    }
  }

  lemma FillMemberSame(o: Object, subs: seq<Attribute>)
    ensures FillMember(o, o, subs) == o
    decreases |subs|
  {
    if subs != [] {
      FillMemberSame(o, subs[1..]);
    }
  }

  lemma ContainsEarlier(a: Attribute, list: seq<Json>, f: nat, i: nat, want: Json)
    requires f < |list| && i < |list| && SameElement(a, list[f], want)
    ensures f < i ==> Contains(a, list[..i], want)
  {
    if f < i {
      assert list[..i][f] == list[f];
    }
  }

  // In a list without repeats every element is found as itself.
  lemma FoundItself(a: Attribute, list: seq<Json>, i: nat)
    requires NoRepeats(a, list) && i < |list| && KeyedByIdentity(a) && list[i].Obj? && Contains(a, list, list[i])
    ensures FirstSame(a, list, list[i]) == i
  {
    hide Identity;
    var f := FirstSame(a, list, list[i]);
    ContainsEarlier(a, list, f, i, list[i]);
    assert SameElement(a, list[i], list[i]);
  }

  lemma CarriedSame(a: Attribute, op: Op, list: seq<Json>)
    requires NoRepeats(a, list)
    ensures CarryForward(a, op, list, List(list)) == List(list)
  {
    hide FillMember, SameElement, NoRepeats;
    forall i | 0 <= i < |list| ensures FillElement(a, list, list[i]) == list[i] {
      if list[i].Obj? && FindStored(a, list, list[i].fields).Some? {
        FoundItself(a, list, i);
        FillMemberSame(list[i].fields, FillSubs(a.subs));
      }
    }
    assert list == seq(|list|, i requires 0 <= i < |list| => FillElement(a, list, list[i]));
  }

  lemma AddCarriesNothing(a: Attribute, stored: seq<Json>, candidate: Json)
    ensures CarryForward(a, Add, stored, candidate) == candidate
  {
  }

  // A list written as a whole, past the gate: it is what it was.
  lemma WholeKeepsList(container: Object, t: Target, op: Op, incoming: Json, walk: Object -> seq<string>)
    requires ProtectedList(t.parent) && t.attr == t.parent && Assigned(t.parent, Get(container, t.name))
    requires t.name != "" && t.filter.None? && t.sub == "" && WriteWhole(container, t, op, incoming, walk).Ok?
    ensures Get(WriteWhole(container, t, op, incoming, walk).value, t.name) == Get(container, t.name)
  {
    hide Fresh, Unique, Promotes, Set, Get, CarryForward, Demote, Equal;
    var before := Get(container, t.name);
    var added := if IsListAdd(t, op) then List(Fresh(t.attr, ElementsAt(before), ListOf(incoming))) else incoming;
    var shaped := Shaped(t.attr, added);
    var final := Appended(before, shaped, op);
    EqualLists(t.parent, before, final);
    UniqueSameMembers(t.attr, ListOf(added));
    if op == Replace {
      CarriedSame(t.attr, op, before.elements);
    } else {
      AddCarriesNothing(t.attr, before.elements, shaped);
    }
    var next := Put(container, t, op, added, ElementsAt(before), walk).value;
    assert next == Set(container, t.name, before);
    GetSetSame(container, t.name, before);
    if op == Add {
      NothingAdded(t, before, added);
    } else {
      AllWritten(t, before, before, op, added);
      GetSetSame(next, t.name, before);
    }
  }

  // Where the filter selects no object there is nothing to write to.
  lemma NothingSelected(container: Object, t: Target, op: Op, incoming: Json, walk: Object -> seq<string>)
    requires IsComplexList(t.parent) && t.filter.Some? && t.sub == ""
    requires !OpensIn(t, op, ElementsAt(Get(container, t.name)))
    ensures WriteIn(container, t, op, incoming, walk).Err?
  {
    hide PutSelected, StripReadOnly, Get, DemoteOthers;
    var elements := ElementsAt(Get(container, t.name));
    forall i | 0 <= i < |elements| ensures !Holds(t, elements[i]) {
      assert elements[i].Obj? ==> Unheld(t, elements[i].fields);
    }
  }

  lemma WriteKeepsList(container: Object, t: Target, op: Op, incoming: Json, walk: Object -> seq<string>)
    requires ProtectedList(t.parent) && t.name != "" && !OpensIn(t, op, ElementsAt(Get(container, t.name)))
    requires if t.sub == "" then t.attr == t.parent else Lookup(t.parent.subs, t.sub) == Some(t.attr)
    requires Assigned(t.parent, Get(container, t.name)) && WriteIn(container, t, op, incoming, walk).Ok?
    ensures var after := Get(WriteIn(container, t, op, incoming, walk).value, t.name);
            Kept(t.parent, Get(container, t.name), after) && Assigned(t.parent, after)
  {
    hide WriteWhole, WriteFiltered, StripReadOnly, Get, Equal, KeptList, ProtectedList, Lookup, OpensIn;
    var before := Get(container, t.name);
    var stripped := StripReadOnly(if WriteKey(t) == "" then t.parent else t.attr, incoming);
    IsObjectList(t.parent);
    if t.filter.Some? {
      if t.sub == "" {
        NothingSelected(container, t, op, incoming, walk);
      } else {
        FilteredKeeps(container, t, op, stripped, walk);
        KeptLength(t.parent, before.elements, Get(WriteIn(container, t, op, incoming, walk).value, t.name).elements);
      }
    } else {
      WholeKeepsList(container, t, op, stripped, walk);
      EqualReflexive(t.parent, before);
    }
  }

  lemma KeptLength(a: Attribute, xs: seq<Json>, ys: seq<Json>)
    requires KeptList(a, xs, ys)
    ensures |xs| == |ys|
  {
  }

  lemma RemoveFromKeeps(elements: seq<Json>, t: Target)
    requires IsComplexList(t.parent) && t.sub != "" && Lookup(t.parent.subs, t.sub) == Some(t.attr)
    requires !OpensOut(t, elements)
    requires forall i :: 0 <= i < |elements| && Holds(t, elements[i]) ==> Removable(elements[i].fields, t)
    ensures KeptList(t.parent, elements, RemoveFrom(elements, t))
  {
    hide Get, SameFields, Remove, Lookup, Selected;
    forall i | 0 <= i < |elements| ensures KeptElement(t.parent, elements[i], RemoveFrom(elements, t)[i]) {
      if Holds(t, elements[i]) {
        var o := elements[i].fields;
        EqualNull(t.attr, Get(o, t.sub));
        RemovedSame(t.parent, o, t.sub);
      }
    }
  }

  lemma RemovedSame(a: Attribute, o: Object, n: string)
    requires IsUnassigned(Get(o, n))
    ensures SameFields(a, o, Remove(o, n))
  {
    hide SubAttribute, Equal;
    forall k: string ensures SameMember(a, k, Held(o, k), Held(Remove(o, n), k)) {
      EqualReflexive(SubAttribute(a, k), Held(o, k));
    }
  }

  lemma EqualNull(a: Attribute, v: Json)
    ensures Equal(a, v, Null) <==> v == Null
  {
  }

  lemma RemoveKeepsList(container: Object, t: Target)
    requires ProtectedList(t.parent) && !(t.filter.None? && t.sub == "")
    requires !OpensOut(t, ElementsAt(Get(container, t.name)))
    requires if t.sub == "" then t.attr == t.parent else Lookup(t.parent.subs, t.sub) == Some(t.attr)
    requires Assigned(t.parent, Get(container, t.name)) && RemoveIn(container, t).Ok?
    ensures var after := Get(RemoveIn(container, t).value, t.name);
            Kept(t.parent, Get(container, t.name), after) && Assigned(t.parent, after)
  {
    hide Get, Set, Substitute, Keeps, KeptList, Removable, HoldsAny, OpensOut, ProtectedList, Lookup, Equal;
    var before := Get(container, t.name);
    IsObjectList(t.parent);
    if t.sub == "" {
      RewriteKeeps(container, t, MatchedBy(t, ElementsAt(before)), Null);
      EqualReflexive(t.parent, before);
    } else {
      RemoveFromKeeps(before.elements, t);
      GetSetSame(container, t.name, List(RemoveFrom(before.elements, t)));
    }
  }

  // ---- One operation ----

  lemma UndisturbedRespects(a: Attribute, extension: string, touched: bool, open: bool, before: Json, after: Json)
    requires Undisturbed(extension, before, after)
    ensures Respects(a, extension, touched, open, before, after)
  {
    EqualReflexive(a, before);
  }

  lemma RespectsTransitive(a: Attribute, extension: string, t: bool, u: bool, p: bool, q: bool, x: Json, y: Json,
                           z: Json)
    requires Respects(a, extension, t, p, x, y) && Respects(a, extension, u, q, y, z)
    ensures Respects(a, extension, t || u, p || q, x, z)
  {
    hide KeptFields, KeptList, Equal, Guarded;
    if Guarded(a) && !p && !q && Assigned(a, x) {
      KeptTransitive(a, x, y, z);
    }
    assert Blank(Null);
  }

  lemma KeptTransitive(a: Attribute, x: Json, y: Json, z: Json)
    requires Kept(a, x, y) && Kept(a, y, z)
    ensures Kept(a, x, z)
  {
    hide KeptFields, KeptList;
    if Equal(a, x, y) && Equal(a, y, z) {
      EqualTransitive(a, x, y, z);
    } else if Equal(a, x, y) {
      assert x == y;
    } else if Equal(a, y, z) {
      assert y == z;
    } else if y.Obj? {
      KeptFieldsTransitive(a, x.fields, y.fields, z.fields);
    } else {
      KeptListTransitive(a, x.elements, y.elements, z.elements);
    }
  }

  // What a new container does to an attribute, if what it does under the target's own name is right.
  lemma PutBackRespects(s: Schemas, root: Object, t: Target, container: Object, prune: bool, opens: bool,
                        extension: string, name: string, a: Attribute)
    requires WellNamed(s) && Tidy(s, root) && Defines(s, extension, name, a)
    requires Defines(s, t.extension, t.name, t.parent) && t.parent.mutability != ReadOnly
    requires OneKey(Container(root, t.extension), t.name, container)
    requires var held := Container(root, t.extension);
             Guarded(t.parent) && !opens && Assigned(t.parent, Get(held, t.name)) ==>
               && Kept(t.parent, Get(held, t.name), Get(container, t.name))
               && Assigned(t.parent, Get(container, t.name))
               && container != Remove(held, t.name)
    ensures Tidy(s, WithContainer(root, t.extension, container, prune))
    ensures var touched := t.extension == extension && EqualFold(t.name, name);
            Respects(a, extension, touched, touched && opens, At(root, extension, name),
                     At(WithContainer(root, t.extension, container, prune), extension, name))
  {
    hide Get, Set, Remove, Equal, Kept, Assigned, Guarded, AllUnassigned, Defines, WellNamed, Tidy;
    PutBackTidy(s, root, t, container, prune);
    var before, after := At(root, extension, name),
        At(WithContainer(root, t.extension, container, prune), extension, name);
    var touched := t.extension == extension && EqualFold(t.name, name);
    if t.extension != extension {
      PutBackElsewhere(s, root, t, container, prune, extension, name, a);
      UndisturbedRespects(a, extension, touched, touched && opens, before, after);
    } else {
      var held := Container(root, t.extension);
      if extension != "" {
        DefinesId(s, extension, name, a);
      }
      PutBackSame(s, root, extension, container, prune, name);
      if !EqualFold(t.name, name) {
        OneKeySame(held, t.name, container);
        GetSame(held, container, t.name, name);
      } else {
        SameAttribute(s, t, extension, name, a);
        SameNameRespects(held, container, t, name, touched, opens);
      }
      if AllUnassigned(container) {
        BlankMembers(container, name);
      }
      PrunedRespects(a, extension, touched, touched && opens, before, Get(container, name), after);
    }
  }

  lemma PrunedRespects(a: Attribute, extension: string, touched: bool, open: bool, before: Json, kept: Json,
                       after: Json)
    requires Respects(a, extension, touched, open, before, kept) || kept == before
    requires after == kept || (extension != "" && Blank(kept) && after == Null)
    ensures Respects(a, extension, touched, open, before, after)
  {
    if kept == before {
      UndisturbedRespects(a, extension, touched, open, before, kept);
    }
    UndisturbedRespects(a, extension, touched, open, kept, after);
    RespectsTransitive(a, extension, touched, touched, open, open, before, kept, after);
  }

  lemma SameAttribute(s: Schemas, t: Target, extension: string, name: string, a: Attribute)
    requires Defines(s, extension, name, a) && Defines(s, t.extension, t.name, t.parent)
    requires t.extension == extension && EqualFold(t.name, name)
    ensures a == t.parent
  {
    LookupFold(SchemaOf(s, extension).value.attributes, t.name, name);
  }

  lemma SameNameRespects(held: Object, container: Object, t: Target, name: string, touched: bool, opens: bool)
    requires EqualFold(t.name, name) && touched && t.parent.mutability != ReadOnly
    requires OneKey(held, t.name, container)
    requires Guarded(t.parent) && !opens && Assigned(t.parent, Get(held, t.name)) ==>
               && Kept(t.parent, Get(held, t.name), Get(container, t.name))
               && Assigned(t.parent, Get(container, t.name))
               && container != Remove(held, t.name)
    ensures Respects(t.parent, t.extension, touched, opens, Get(held, name), Get(container, name))
  {
    hide Get, Set, Remove, Kept, Assigned, Guarded;
    UndisturbedRespects(t.parent, t.extension, touched, opens, Get(held, name), Get(held, name));
    if container == Set(held, t.name, Get(container, t.name)) {
      GetSetFold(held, t.name, Get(container, t.name), name);
    } else if container == Remove(held, t.name) {
      GetRemoveFold(held, t.name, name);
    }
  }

  lemma PutBackTidy(s: Schemas, root: Object, t: Target, container: Object, prune: bool)
    requires WellNamed(s) && Tidy(s, root) && Defines(s, t.extension, t.name, t.parent)
    requires OneKey(Container(root, t.extension), t.name, container)
    ensures Tidy(s, WithContainer(root, t.extension, container, prune))
  {
    hide Get, Set, Remove, OneSpelling, AllUnassigned;
    forall e | 0 <= e < |s.extensions|
      ensures OneSpelling(WithContainer(root, t.extension, container, prune), s.extensions[e].id)
    {
      var id := s.extensions[e].id;
      if t.extension == "" {
        SetKeepsSpelling(root, t.name, Get(container, t.name), id);
        RemoveKeepsSpelling(root, t.name, id);
      } else {
        SetKeepsSpelling(root, t.extension, Obj(container), id);
        RemoveKeepsSpelling(root, t.extension, id);
      }
    }
  }

  // Setting a key is not removing it.
  lemma StillThere(held: Object, name: string, after: Object)
    requires SetsKey(held, name, after)
    ensures after != Remove(held, name)
  {
    assert Key(held, name) in after;
  }

  // What an operation did to the whole resource, seen through one attribute.
  ghost predicate Step(s: Schemas, root: Object, after: Object, extension: string, name: string, a: Attribute,
                       touched: bool, open: bool)
  {
    Tidy(s, after) && Respects(a, extension, touched, open, At(root, extension, name), At(after, extension, name))
  }

  lemma StepSame(s: Schemas, root: Object, extension: string, name: string, a: Attribute, touched: bool, open: bool)
    requires Tidy(s, root)
    ensures Step(s, root, root, extension, name, a, touched, open)
  {
    UndisturbedRespects(a, extension, touched, open, At(root, extension, name), At(root, extension, name));
  }

  lemma StepThen(s: Schemas, root: Object, mid: Object, after: Object, extension: string, name: string, a: Attribute,
                 t: bool, u: bool, p: bool, q: bool)
    requires Step(s, root, mid, extension, name, a, t, p) && Step(s, mid, after, extension, name, a, u, q)
    ensures Step(s, root, after, extension, name, a, t || u, p || q)
  {
    RespectsTransitive(a, extension, t, u, p, q,
                       At(root, extension, name), At(mid, extension, name), At(after, extension, name));
  }

  // What a path names and, if it is this attribute, whether a write there opens it as it is.
  ghost predicate PathOpensWrite(p: Patcher, root: Object, path: FilterPath.Path, op: Op, extension: string,
                                 name: string)
  {
    Addresses(p.schemas, path.attribute, extension, name) && Locate(p, path).Ok? &&
    var t := Locate(p, path).value;
    OpensIn(t, op, ElementsAt(At(root, t.extension, t.name)))
  }

  ghost predicate PathOpensRemoval(p: Patcher, root: Object, path: FilterPath.Path, extension: string, name: string) {
    Addresses(p.schemas, path.attribute, extension, name) && Locate(p, path).Ok? &&
    var t := Locate(p, path).value;
    OpensOut(t, ElementsAt(At(root, t.extension, t.name)))
  }

  lemma WriteStep(p: Patcher, root: Object, path: FilterPath.Path, op: Op, incoming: Json,
                  extension: string, name: string, a: Attribute)
    requires WellNamed(p.schemas) && Tidy(p.schemas, root) && Defines(p.schemas, extension, name, a)
    requires WriteAt(p, root, path, op, incoming).Ok?
    ensures Step(p.schemas, root, WriteAt(p, root, path, op, incoming).value, extension, name, a,
                 Addresses(p.schemas, path.attribute, extension, name),
                 PathOpensWrite(p, root, path, op, extension, name))
  {
    hide Get, Set, Remove, Kept, Assigned, Protected, ProtectedList, WriteIn, Locate, OneKey, Defines, WellNamed, Tidy,
         Respects, AllUnassigned, OpensIn, Lookup;
    LocateFinds(p, path);
    var t := Locate(p, path).value;
    var held := Container(root, t.extension);
    var container := WriteIn(held, t, op, incoming, p.walk).value;
    var open := OpensIn(t, op, ElementsAt(Get(held, t.name)));
    WriteOneKey(held, t, op, incoming, p.walk);
    StillThere(held, t.name, container);
    SetIsOneKey(held, t.name, container);
    if Assigned(t.parent, Get(held, t.name)) {
      if Protected(t.parent) {
        WriteKeeps(held, t, op, incoming, p.walk);
      } else if ProtectedList(t.parent) && !open {
        WriteKeepsList(held, t, op, incoming, p.walk);
      }
    }
    PutBackRespects(p.schemas, root, t, container, !SelectsValues(t), open, extension, name, a);
  }

  // Without a filter nothing is open.
  lemma UnfilteredOpensNothing(p: Patcher, root: Object, path: FilterPath.Path, op: Op, extension: string,
                               name: string)
    requires path.filter.None?
    ensures !PathOpensWrite(p, root, path, op, extension, name)
  {
  }

  lemma SetIsOneKey(o: Object, name: string, after: Object)
    requires SetsKey(o, name, after)
    ensures OneKey(o, name, after)
  {
  }

  lemma RemoveStep(p: Patcher, root: Object, path: FilterPath.Path, extension: string, name: string, a: Attribute)
    requires WellNamed(p.schemas) && Tidy(p.schemas, root) && Defines(p.schemas, extension, name, a)
    requires Locate(p, path).Ok? && RemoveAt(root, Locate(p, path).value).Ok?
    ensures Step(p.schemas, root, RemoveAt(root, Locate(p, path).value).value, extension, name, a,
                 Addresses(p.schemas, path.attribute, extension, name),
                 PathOpensRemoval(p, root, path, extension, name))
  {
    hide Get, Set, Remove, Kept, Assigned, Protected, ProtectedList, RemoveIn, Locate, OneKey, Defines, WellNamed, Tidy,
         Respects, AllUnassigned, OpensOut, Lookup;
    LocateFinds(p, path);
    var t := Locate(p, path).value;
    var held := Container(root, t.extension);
    if RemoveIn(held, t).Err? {
      StepSame(p.schemas, root, extension, name, a, Addresses(p.schemas, path.attribute, extension, name),
               PathOpensRemoval(p, root, path, extension, name));
    } else {
      var open := OpensOut(t, ElementsAt(Get(held, t.name)));
      RemoveOneKey(held, t);
      if Guarded(t.parent) && Assigned(t.parent, Get(held, t.name)) && !open {
        if t.filter.None? && t.sub == "" {
          RemoveRefused(held, t);
        } else {
          if Protected(t.parent) {
            RemoveKeeps(held, t);
          } else {
            RemoveKeepsList(held, t);
          }
          RemoveInside(held, t);
        }
      }
      PutBackRespects(p.schemas, root, t, RemoveIn(held, t).value, t.filter.None? || t.sub != "", open,
                      extension, name, a);
    }
  }

  // Removing something inside an assigned attribute leaves the attribute there.
  lemma RemoveInside(container: Object, t: Target)
    requires RemoveIn(container, t).Ok? && !(t.filter.None? && t.sub == "")
    requires Assigned(t.parent, Get(container, t.name))
    ensures RemoveIn(container, t).value != Remove(container, t.name)
  {
    hide Substitute, Keeps, Removable, Equal, Writable;
    assert Blank(Null);
    assert Key(container, t.name) in RemoveIn(container, t).value;
  }

  // ---- Runs ----

  // Whether an operation names the attribute: in its path, or among the members of its value.
  ghost predicate Touches(p: Patcher, operation: Operation, extension: string, name: string) {
    if operation.path != "" then
      FilterPath.ParsePath(operation.path).Some? &&
      Addresses(p.schemas, FilterPath.ParsePath(operation.path).value.attribute, extension, name)
    else
      operation.value.Some? && operation.value.value.Obj? &&
      exists key :: key in operation.value.value.fields &&
          KeyTouches(p, key, operation.value.value.fields[key], extension, name)
  }

  ghost predicate KeyTouches(p: Patcher, key: string, incoming: Json, extension: string, name: string) {
    match SchemaOf(p.schemas, key)
    case Some(schema) => schema.id == extension && incoming.Obj? && exists k ::
        k in incoming.fields && EqualFold(k, name)
    case None => !EqualFold(key, "schemas") && Addresses(p.schemas, KeyPath(key), extension, name)
  }

  lemma {:induction false} MergeSchemaStep(p: Patcher, root: Object, uri: string, op: Op, values: Object,
                                           order: seq<string>,
                                           extension: string, name: string, a: Attribute)
    requires WellNamed(p.schemas) && Tidy(p.schemas, root) && Defines(p.schemas, extension, name, a)
    requires SchemaOf(p.schemas, uri).Some? && SchemaOf(p.schemas, uri).value.id == uri
    requires MergeSchema(p, root, uri, op, values, order).Ok?
    ensures Step(p.schemas, root, MergeSchema(p, root, uri, op, values, order).value, extension, name, a,
                 uri == extension && exists k :: k in values && EqualFold(k, name), false)
    decreases |order|
  {
    hide WriteAt, Step, Tidy, WellNamed, Defines, EqualFold, SchemaOf, PathOpensWrite;
    var touched := uri == extension && exists k :: k in values && EqualFold(k, name);
    if order == [] {
      StepSame(p.schemas, root, extension, name, a, touched, false);
    } else if order[0] !in values {
      MergeSchemaStep(p, root, uri, op, values, order[1..], extension, name, a);
    } else {
      var path := FilterPath.Path(FilterPrint.AttrPath(uri, order[0], ""), None);
      var next := WriteAt(p, root, path, op, values[order[0]]).value;
      var first := Addresses(p.schemas, path.attribute, extension, name);
      WriteStep(p, root, path, op, values[order[0]], extension, name, a);
      UnfilteredOpensNothing(p, root, path, op, extension, name);
      StepTidy(p.schemas, root, next, extension, name, a, first, false);
      MergeSchemaStep(p, next, uri, op, values, order[1..], extension, name, a);
      StepThen(p.schemas, root, next, MergeSchema(p, next, uri, op, values, order[1..]).value, extension, name, a,
               first, touched, false, false);
      assert first ==> touched;
    }
  }

  lemma StepTidy(s: Schemas, root: Object, after: Object, extension: string, name: string, a: Attribute, touched: bool,
                 open: bool)
    requires Step(s, root, after, extension, name, a, touched, open)
    ensures Tidy(s, after)
  {
  }

  lemma StepTouches(s: Schemas, root: Object, after: Object, extension: string, name: string, a: Attribute,
                    t: bool, u: bool, p: bool, q: bool)
    requires Step(s, root, after, extension, name, a, t, p) && (t ==> u) && (p ==> q)
    ensures Step(s, root, after, extension, name, a, u, q)
  {
  }

  lemma MergeKeyStep(p: Patcher, root: Object, key: string, op: Op, incoming: Json, extension: string, name: string,
                     a: Attribute)
    requires WellNamed(p.schemas) && Tidy(p.schemas, root) && Defines(p.schemas, extension, name, a)
    requires MergeKey(p, root, key, op, incoming).Ok?
    ensures Step(p.schemas, root, MergeKey(p, root, key, op, incoming).value, extension, name, a,
                 KeyTouches(p, key, incoming, extension, name), false)
  {
    hide WriteAt, Step, Tidy, WellNamed, Defines, EqualFold, SchemaOf, MergeSchema, KeyPath, Addresses, RepeatsReadOnly,
         PathOpensWrite;
    match SchemaOf(p.schemas, key) {
      case Some(schema) =>
        FoundUnderId(p.schemas, key);
        MergeSchemaStep(p, root, schema.id, op, incoming.fields, p.walk(incoming.fields), extension, name, a);
      case None =>
        if EqualFold(key, "schemas") || RepeatsReadOnly(p, root, KeyPath(key), incoming) {
          StepSame(p.schemas, root, extension, name, a, KeyTouches(p, key, incoming, extension, name), false);
        } else {
          WriteStep(p, root, FilterPath.Path(KeyPath(key), None), op, incoming, extension, name, a);
          UnfilteredOpensNothing(p, root, FilterPath.Path(KeyPath(key), None), op, extension, name);
        }
    }
  }

  lemma {:induction false} MergeRootStep(p: Patcher, root: Object, op: Op, values: Object, order: seq<string>,
                                         extension: string, name: string, a: Attribute)
    requires WellNamed(p.schemas) && Tidy(p.schemas, root) && Defines(p.schemas, extension, name, a)
    requires MergeRoot(p, root, op, values, order).Ok?
    ensures Step(p.schemas, root, MergeRoot(p, root, op, values, order).value, extension, name, a,
                 exists key :: key in values && KeyTouches(p, key, values[key], extension, name), false)
    decreases |order|
  {
    hide MergeKey, Step, Tidy, WellNamed, Defines, KeyTouches;
    var touched := exists key :: key in values && KeyTouches(p, key, values[key], extension, name);
    if order == [] {
      StepSame(p.schemas, root, extension, name, a, touched, false);
    } else if order[0] !in values {
      MergeRootStep(p, root, op, values, order[1..], extension, name, a);
    } else {
      var next := MergeKey(p, root, order[0], op, values[order[0]]).value;
      var first := KeyTouches(p, order[0], values[order[0]], extension, name);
      MergeKeyStep(p, root, order[0], op, values[order[0]], extension, name, a);
      StepTidy(p.schemas, root, next, extension, name, a, first, false);
      MergeRootStep(p, next, op, values, order[1..], extension, name, a);
      StepThen(p.schemas, root, next, MergeRoot(p, next, op, values, order[1..]).value, extension, name, a,
               first, touched, false, false);
    }
  }

  function OpOf(word: string): Op {
    if Lower(word) == "add" then Add else Replace
  }

  // Whether an operation opens the attribute as it is; a value without a path opens nothing.
  ghost predicate Opens(p: Patcher, root: Object, operation: Operation, extension: string, name: string) {
    operation.path != "" &&
    match FilterPath.ParsePath(operation.path)
    case None => false
    case Some(path) =>
      if Lower(operation.op) == "remove" then PathOpensRemoval(p, root, path, extension, name)
      else PathOpensWrite(p, root, path, OpOf(operation.op), extension, name)
  }

  // Whether an operation opens the attribute of some resource.
  ghost predicate MayOpen(p: Patcher, operation: Operation, extension: string, name: string) {
    operation.path != "" &&
    match FilterPath.ParsePath(operation.path)
    case None => false
    case Some(path) =>
      Addresses(p.schemas, path.attribute, extension, name) && Locate(p, path).Ok? &&
      if Lower(operation.op) == "remove" then OpensRemoval(Locate(p, path).value, false)
      else OpensWrite(Locate(p, path).value, OpOf(operation.op), false)
  }

  lemma OpensMayOpen(p: Patcher, root: Object, operation: Operation, extension: string, name: string)
    requires Opens(p, root, operation, extension, name)
    ensures MayOpen(p, operation, extension, name)
  {
    hide Locate, FilterPath.ParsePath, Lower, OpensIn, OpensOut, OpensWrite, OpensRemoval, At, Addresses;
    var t := Locate(p, FilterPath.ParsePath(operation.path).value).value;
    var elements := ElementsAt(At(root, t.extension, t.name));
    if Lower(operation.op) == "remove" {
      OpensOutSomewhere(t, elements, false);
    } else {
      OpensSomewhere(t, OpOf(operation.op), elements, false);
    }
  }

  lemma OperationStep(p: Patcher, root: Object, operation: Operation, extension: string, name: string, a: Attribute)
    requires WellNamed(p.schemas) && Tidy(p.schemas, root) && Defines(p.schemas, extension, name, a)
    requires Apply(p, root, operation).Ok?
    ensures Step(p.schemas, root, Apply(p, root, operation).value, extension, name, a,
                 Touches(p, operation, extension, name), Opens(p, root, operation, extension, name))
  {
    hide WriteAt, RemoveAt, MergeRoot, Locate, Step, Tidy, WellNamed, Defines, KeyTouches, Addresses,
         FilterPath.ParsePath, Lower, PathOpensWrite, PathOpensRemoval;
    if operation.path == "" {
      var op := if Lower(operation.op) == "add" then Add else Replace;
      var values := operation.value.value.fields;
      MergeRootStep(p, root, op, values, p.walk(values), extension, name, a);
    } else {
      var parsed := FilterPath.ParsePath(operation.path).value;
      if Lower(operation.op) == "remove" {
        RemoveStep(p, root, parsed, extension, name, a);
      } else {
        var op := if Lower(operation.op) == "add" then Add else Replace;
        WriteStep(p, root, parsed, op, operation.value.value, extension, name, a);
      }
    }
  }

  ghost predicate AnyTouches(p: Patcher, operations: seq<Operation>, extension: string, name: string) {
    exists i :: 0 <= i < |operations| && Touches(p, operations[i], extension, name)
  }

  ghost predicate AnyMayOpen(p: Patcher, operations: seq<Operation>, extension: string, name: string) {
    exists i :: 0 <= i < |operations| && MayOpen(p, operations[i], extension, name)
  }

  lemma {:induction false} RunStep(p: Patcher, root: Object, operations: seq<Operation>, extension: string,
                                   name: string, a: Attribute)
    requires WellNamed(p.schemas) && Tidy(p.schemas, root) && Defines(p.schemas, extension, name, a)
    requires ApplyAll(p, root, operations).Ok?
    ensures Step(p.schemas, root, ApplyAll(p, root, operations).value, extension, name, a,
                 AnyTouches(p, operations, extension, name), AnyMayOpen(p, operations, extension, name))
    decreases |operations|
  {
    hide Apply, Step, Tidy, WellNamed, Defines, Touches, Opens, MayOpen;
    var touched, open := AnyTouches(p, operations, extension, name), AnyMayOpen(p, operations, extension, name);
    if operations == [] {
      StepSame(p.schemas, root, extension, name, a, touched, open);
    } else {
      var next, rest := Apply(p, root, operations[0]).value, operations[1..];
      var first, later := Touches(p, operations[0], extension, name), AnyTouches(p, rest, extension, name);
      var opens, reopens := Opens(p, root, operations[0], extension, name), AnyMayOpen(p, rest, extension, name);
      OperationStep(p, root, operations[0], extension, name, a);
      StepTidy(p.schemas, root, next, extension, name, a, first, opens);
      RunStep(p, next, rest, extension, name, a);
      StepThen(p.schemas, root, next, ApplyAll(p, next, rest).value, extension, name, a, first, later, opens, reopens);
      assert forall i :: 0 <= i < |rest| ==> rest[i] == operations[i + 1];
      if opens {
        OpensMayOpen(p, root, operations[0], extension, name);
      }
      StepTouches(p.schemas, root, ApplyAll(p, root, operations).value, extension, name, a,
                  first || later, touched, opens || reopens, open);
    }
  }

  // ---- The guarantees ----

  lemma ReadOnlySurvives(p: Patcher, root: Object, operations: seq<Operation>, extension: string, name: string,
                         a: Attribute)
    requires WellNamed(p.schemas) && Tidy(p.schemas, root) && Defines(p.schemas, extension, name, a)
    requires a.mutability == ReadOnly && ApplyAll(p, root, operations).Ok?
    ensures Undisturbed(extension, At(root, extension, name), At(ApplyAll(p, root, operations).value, extension, name))
  {
    hide ApplyAll, At, Undisturbed, AnyTouches, AnyMayOpen;
    RunStep(p, root, operations, extension, name, a);
  }

  lemma ImmutableSurvives(p: Patcher, root: Object, operations: seq<Operation>, extension: string, name: string,
                          a: Attribute)
    requires WellNamed(p.schemas) && Tidy(p.schemas, root) && Defines(p.schemas, extension, name, a)
    requires Guarded(a) && Assigned(a, At(root, extension, name)) && ApplyAll(p, root, operations).Ok?
    requires !AnyMayOpen(p, operations, extension, name)
    ensures Kept(a, At(root, extension, name), At(ApplyAll(p, root, operations).value, extension, name))
  {
    hide ApplyAll, At, Guarded, Assigned, Kept, AnyTouches, AnyMayOpen;
    RunStep(p, root, operations, extension, name, a);
  }

  // Singular attributes, and those without sub-attributes, are opened by nothing.
  lemma ProtectedSurvives(p: Patcher, root: Object, operations: seq<Operation>, extension: string, name: string,
                          a: Attribute)
    requires WellNamed(p.schemas) && Tidy(p.schemas, root) && Defines(p.schemas, extension, name, a)
    requires Protected(a) && Assigned(a, At(root, extension, name)) && ApplyAll(p, root, operations).Ok?
    ensures Kept(a, At(root, extension, name), At(ApplyAll(p, root, operations).value, extension, name))
  {
    hide ApplyAll, At, Assigned, Kept, MayOpen;
    forall i | 0 <= i < |operations| ensures !MayOpen(p, operations[i], extension, name) {
      NeverOpens(p, operations[i], extension, name, a);
    }
    ImmutableSurvives(p, root, operations, extension, name, a);
  }

  lemma NeverOpens(p: Patcher, operation: Operation, extension: string, name: string, a: Attribute)
    requires WellNamed(p.schemas) && Defines(p.schemas, extension, name, a) && !IsComplexList(a)
    ensures !MayOpen(p, operation, extension, name)
  {
    hide Locate, FilterPath.ParsePath, Lower, Defines, WellNamed;
    if MayOpen(p, operation, extension, name) {
      LocateFinds(p, FilterPath.ParsePath(operation.path).value);
      SameAttribute(p.schemas, Locate(p, FilterPath.ParsePath(operation.path).value).value, extension, name, a);
    }
  }

  lemma UntouchedSurvives(p: Patcher, root: Object, operations: seq<Operation>, extension: string, name: string,
                          a: Attribute)
    requires WellNamed(p.schemas) && Tidy(p.schemas, root) && Defines(p.schemas, extension, name, a)
    requires !AnyTouches(p, operations, extension, name) && ApplyAll(p, root, operations).Ok?
    ensures Undisturbed(extension, At(root, extension, name), At(ApplyAll(p, root, operations).value, extension, name))
  {
    hide ApplyAll, At, Undisturbed, AnyTouches, AnyMayOpen;
    RunStep(p, root, operations, extension, name, a);
  }
}
