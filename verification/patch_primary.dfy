// After a write that makes a value primary, only values it wrote are primary (section 3.5.2 of RFC 7644).
module PatchPrimary {
  import opened Text
  import opened PatchObject
  import opened PatchValue
  import opened PatchEngine
  import opened PatchMutability
  import FilterPath

  ghost predicate OnlyWritten(after: seq<Json>, written: seq<bool>) {
    |after| == |written| && forall i :: 0 <= i < |after| && Primary(after[i]) ==> written[i]
  }

  lemma DemoteLeavesWritten(elements: seq<Json>, written: seq<bool>)
    requires |elements| == |written|
    ensures OnlyWritten(Demote(elements, written), written)
  {
    hide Get, Set;
    forall i | 0 <= i < |elements| && !written[i] ensures !Primary(Demote(elements, written)[i]) {
      if Primary(elements[i]) {
        GetSetSame(elements[i].fields, "primary", Bool(false));
      }
    }
  }

  // What is written is a primary value, or the flag of one.
  ghost predicate MakesPrimary(t: Target, v: Json) {
    if t.sub != "" then EqualFold(t.sub, "primary") && v == Bool(true) else SomePrimary(v)
  }

  // An attribute of this name is taken for the flag, so adding to it demotes nobody.
  predicate Skips(t: Target, op: Op) {
    op == Add && t.filter.None? && t.sub == "" && EqualFold(t.name, "primary")
  }

  // An attribute written as a whole: an add appends what it writes, a replacement writes everything.
  lemma WholeDemotes(container: Object, t: Target, op: Op, incoming: Json, walk: Object -> seq<string>)
    requires t.name != "" && t.filter.None? && t.sub == "" && WriteWhole(container, t, op, incoming, walk).Ok?
    ensures var before := Get(container, t.name);
            var added := if IsListAdd(t, op) then List(Fresh(t.attr, ElementsAt(before), ListOf(incoming)))
                else incoming;
            var after := Get(WriteWhole(container, t, op, incoming, walk).value, t.name);
            SomePrimary(added) && !Skips(t, op) && after.List? ==>
              OnlyWritten(after.elements, Written(t, ElementsAt(before), after.elements, op))
  {
    hide Get, Set, Put, Fresh, SomePrimary, Demote, Written, OnlyWritten;
    var before := Get(container, t.name);
    var added := if IsListAdd(t, op) then List(Fresh(t.attr, ElementsAt(before), ListOf(incoming))) else incoming;
    var next := Put(container, t, op, added, ElementsAt(before), walk).value;
    var put := Get(next, t.name);
    if SomePrimary(added) && op == Replace && put.List? {
      EveryoneWritten(t, before, next, op, added);
    } else if SomePrimary(added) && !Skips(t, op) && put.List? {
      GetSetSame(next, t.name, DemoteOthers(t, before, put, op, added));
      WrittenByLength(t, ElementsAt(before), put.elements,
                      Demote(put.elements, Written(t, ElementsAt(before), put.elements, op)), op);
      DemoteLeavesWritten(put.elements, Written(t, ElementsAt(before), put.elements, op));
    }
  }

  // A replacement without a filter writes every element.
  lemma EveryoneWritten(t: Target, before: Json, next: Object, op: Op, added: Json)
    requires t.filter.None? && op == Replace
    ensures forall list :: OnlyWritten(list, Written(t, ElementsAt(before), list, op))
  {
  }

  // What counts as written depends on the list from before and on how long the new one is.
  lemma WrittenByLength(t: Target, before: seq<Json>, after: seq<Json>, other: seq<Json>, op: Op)
    requires |after| == |other|
    ensures Written(t, before, after, op) == Written(t, before, other, op)
    ensures |Written(t, before, after, op)| == |after|
  {
    hide Selected;
  }

  lemma {:induction false} PutSelectedLength(elements: seq<Json>, t: Target, op: Op, incoming: Json, stored: seq<Json>,
                                             walk: Object -> seq<string>)
    requires PutSelected(elements, t, op, incoming, stored, walk).Ok?
    ensures |PutSelected(elements, t, op, incoming, stored, walk).value| == |elements|
    decreases |elements|
  {
    hide Put, Holds;
    if elements != [] {
      PutSelectedLength(elements[1..], t, op, incoming, stored, walk);
    }
  }

  // The values a filter selects: whoever is primary was among them.
  lemma FilteredDemotes(container: Object, t: Target, op: Op, incoming: Json, walk: Object -> seq<string>)
    requires t.filter.Some? && WriteFiltered(container, t, op, incoming, walk).Ok?
    requires Promotes(WriteKey(t), incoming)
    ensures var before := ElementsAt(Get(container, t.name));
            var after := Get(WriteFiltered(container, t, op, incoming, walk).value, t.name);
            after.List? && |after.elements| == |before| &&
            forall i :: 0 <= i < |before| && Primary(after.elements[i]) ==> Selected(t, before[i])
  {
    hide Get, Set, PutSelected, Promotes, Primary, Selected, HoldsAny;
    var before := Get(container, t.name);
    var elements := ElementsAt(before);
    var put := PutSelected(elements, t, op, incoming, elements, walk).value;
    PutSelectedLength(elements, t, op, incoming, elements, walk);
    GetSetSame(container, t.name, DemoteOthers(t, before, List(put), op, incoming));
    DemoteLeavesWritten(put, Written(t, elements, put, op));
  }

  // What a write amounts to: readOnly parts are left out, and what a list holds already is not added.
  ghost function Effective(t: Target, before: Json, op: Op, incoming: Json): Json {
    var stripped := StripReadOnly(if WriteKey(t) == "" then t.parent else t.attr, incoming);
    if IsListAdd(t, op) then List(Fresh(t.attr, ElementsAt(before), ListOf(stripped))) else stripped
  }

  // A value that a kind can read is neither an object nor a list.
  lemma CoercedIsPlain(a: Attribute, v: Json)
    requires Coerce(a.kind, v).Some?
    ensures !SomePrimary(StripReadOnly(a, v))
  {
  }

  lemma PromotesFiltered(t: Target, v: Json)
    requires t.filter.Some? && MakesPrimary(t, v)
    ensures Promotes(WriteKey(t), v)
  {
    assert |Fold("")| == 0 && |Fold("primary")| == 7;
  }

  lemma ContainerDemotes(container: Object, t: Target, op: Op, incoming: Json, walk: Object -> seq<string>)
    requires t.name != "" && WriteIn(container, t, op, incoming, walk).Ok? && (t.sub == "" ==> t.attr == t.parent)
    requires MakesPrimary(t, Effective(t, Get(container, t.name), op, incoming)) && !Skips(t, op)
    ensures PrimaryIsWritten(t, op, Get(container, t.name),
                             Get(WriteIn(container, t, op, incoming, walk).value, t.name))
  {
    hide Get, Set, WriteWhole, WriteFiltered, Put, Fresh, SomePrimary, StripReadOnly, Selected, Rewrite, Coerce,
         EqualFold;
    var before := Get(container, t.name);
    var stripped := StripReadOnly(if WriteKey(t) == "" then t.parent else t.attr, incoming);
    if SelectsValues(t) {
      CoercedIsPlain(t.parent, incoming);
    } else if t.filter.Some? {
      PromotesFiltered(t, stripped);
      FilteredDemotes(container, t, op, stripped, walk);
    } else if t.sub == "" {
      WholeDemotes(container, t, op, stripped, walk);
    } else {
      GetSetSame(container, t.name, Obj(Put(AsObject(before), t, op, stripped, [], walk).value));
    }
  }

  // Whoever is primary afterwards was written.
  ghost predicate PrimaryIsWritten(t: Target, op: Op, before: Json, after: Json) {
    after.List? ==> OnlyWritten(after.elements, Written(t, ElementsAt(before), after.elements, op))
  }

  // A write of a primary value: afterwards every primary value of the attribute was written by it.
  lemma PromotionDemotes(p: Patcher, root: Object, path: FilterPath.Path, op: Op, incoming: Json)
    requires WellNamed(p.schemas) && Tidy(p.schemas, root) && WriteAt(p, root, path, op, incoming).Ok?
    requires var t := Locate(p, path).value;
             MakesPrimary(t, Effective(t, At(root, t.extension, t.name), op, incoming)) && !Skips(t, op)
    ensures var t := Locate(p, path).value;
            PrimaryIsWritten(t, op, At(root, t.extension, t.name),
                             At(WriteAt(p, root, path, op, incoming).value, t.extension, t.name))
  {
    hide Get, WriteIn, Locate, MakesPrimary, Skips, Effective, Written, OnlyWritten, Defines;
    LocateFinds(p, path);
    var t := Locate(p, path).value;
    var held := Container(root, t.extension);
    ContainerDemotes(held, t, op, incoming, p.walk);
    if t.extension != "" {
      DefinesId(p.schemas, t.extension, t.name, t.parent);
    }
    PutBackSame(p.schemas, root, t.extension, WriteIn(held, t, op, incoming, p.walk).value, !SelectsValues(t), t.name);
  }
}
