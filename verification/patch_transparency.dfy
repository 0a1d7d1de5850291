// The indexes kept for lists are transparent: run over what a PATCH request amounts to, they leave the very lists
// that the engine without any cache leaves (section 3.5.2.1 of RFC 7644).
module PatchTransparency {
  import opened Wrappers
  import opened Folding
  import opened Text
  import opened PatchObject
  import opened PatchValue
  import opened PatchEngine
  import opened PatchMutability
  import opened PatchIndex
  import FilterPath
  import FilterPrint

  // ---- The lists of a resource ----

  // Names equal under folding are spelled in one way only.
  ghost predicate SpelledOnce(o: Object) {
    forall k, l :: k in o && l in o && EqualFold(k, l) ==> k == l
  }

  // An extension under the id that its attributes are found by.
  ghost predicate IsExtension(s: Schemas, id: string) {
    id != "" && SchemaOf(s, id).Some? && SchemaOf(s, id).value.id == id
  }

  ghost predicate IsHolder(s: Schemas, extension: string) {
    extension == "" || IsExtension(s, extension)
  }

  ghost function Holders(s: Schemas): set<string> {
    set id | id in {""} + (set e | 0 <= e < |s.extensions| :: s.extensions[e].id) && IsHolder(s, id)
  }

  ghost predicate Spelled(s: Schemas, root: Object) {
    forall extension :: IsHolder(s, extension) ==> SpelledOnce(Container(root, extension))
  }

  ghost predicate IsListAt(s: Schemas, root: Object, slot: Slot) {
    IsHolder(s, slot.extension) && Fold(slot.folded) == slot.folded && At(root, slot.extension, slot.folded).List?
  }

  ghost function Slots(s: Schemas, root: Object): set<Slot> {
    set extension, k | extension in Holders(s) && k in Container(root, extension) :: SlotOf(extension, k)
  }

  // Every list of the resource and of its extensions.
  ghost function ListsOf(s: Schemas, root: Object): map<Slot, seq<Json>> {
    map slot | slot in Slots(s, root) && IsListAt(s, root, slot) :: At(root, slot.extension, slot.folded).elements
  }

  lemma HolderListed(s: Schemas, extension: string)
    ensures extension in Holders(s) <==> IsHolder(s, extension)
  {
    if IsExtension(s, extension) {
      FindSchemaFinds(s.extensions, extension);
    }
  }

  lemma FoldTwice(name: string)
    ensures Fold(Fold(name)) == Fold(name)
  {
    hide Least, SameCycle;
    forall i | 0 <= i < |name| ensures FoldChar(FoldChar(name[i])) == FoldChar(name[i]) {
      LeastFolds(name[i]);
    }
  }

  lemma LeastFolds(c: char)
    ensures FoldChar(FoldChar(c)) == FoldChar(c)
  {
    hide SameCycle;
    SameLeast(SIMPLE_FOLD, c, FoldChar(c));
  }

  lemma ListsAt(s: Schemas, root: Object, slot: Slot)
    ensures slot in ListsOf(s, root) <==> IsListAt(s, root, slot)
    ensures IsListAt(s, root, slot) ==> ListsOf(s, root)[slot] == At(root, slot.extension, slot.folded).elements
  {
    if IsListAt(s, root, slot) {
      var o := Container(root, slot.extension);
      var k := Key(o, slot.folded);
      HolderListed(s, slot.extension);
      assert k in o && Fold(k) == slot.folded;
      assert SlotOf(slot.extension, k) == slot;
    }
  }

  // Where names are spelled once, every spelling reads the same.
  lemma GetFold(o: Object, name: string, other: string)
    requires SpelledOnce(o) && EqualFold(name, other)
    ensures Get(o, name) == Get(o, other)
  {
    var k, l := Key(o, name), Key(o, other);
    assert EqualFold(k, l);
    if k in o {
      assert k in Matches(o, other);
    }
    if l in o {
      assert l in Matches(o, name);
    }
  }

  // ---- Spelling is kept ----

  lemma SetSpelled(o: Object, name: string, v: Json)
    requires SpelledOnce(o)
    ensures SpelledOnce(Set(o, name, v))
  {
    var k := Key(o, name);
    forall x, y | x in Set(o, name, v) && y in Set(o, name, v) && EqualFold(x, y) ensures x == y {
      if k !in o {
        assert Matches(o, name) == {};
        assert x in o ==> x !in Matches(o, name);
        assert y in o ==> y !in Matches(o, name);
      }
    }
  }

  lemma RemoveSpelled(o: Object, name: string)
    requires SpelledOnce(o)
    ensures SpelledOnce(Remove(o, name))
  {
  }

  lemma OneKeySpelled(o: Object, name: string, after: Object)
    requires SpelledOnce(o) && OneKey(o, name, after)
    ensures SpelledOnce(after)
  {
    hide Get, Set, Remove, SpelledOnce;
    SetSpelled(o, name, Get(after, name));
    RemoveSpelled(o, name);
  }

  // ---- One container put back ----

  lemma DefinesHolder(s: Schemas, t: Target)
    requires Defines(s, t.extension, t.name, t.parent)
    ensures IsHolder(s, t.extension)
  {
  }

  lemma HoldersDiffer(s: Schemas, e: string, f: string)
    requires IsExtension(s, e) && IsExtension(s, f) && e != f
    ensures !EqualFold(e, f)
  {
    if EqualFold(e, f) {
      IdsDistinct(s, e, f);
    }
  }

  // The container itself afterwards: the new one, unless it was taken out.
  lemma Replaced(s: Schemas, root: Object, extension: string, container: Object, prune: bool)
    requires Spelled(s, root) && IsHolder(s, extension)
    ensures var after := WithContainer(root, extension, container, prune);
            if extension != "" && prune && AllUnassigned(container)
            then Container(after, extension) == map[] && Get(after, extension) == Null
            else Container(after, extension) == container
  {
    hide AllUnassigned, SchemaOf, SpelledOnce, OneSpelling, Get, Set, Remove;
    if extension != "" {
      assert SpelledOnce(Container(root, ""));
      OneWay(root, extension);
      RemoveOnly(root, extension);
      GetSetSame(root, extension, Obj(container));
    }
  }

  lemma OneWay(o: Object, name: string)
    requires SpelledOnce(o)
    ensures OneSpelling(o, name)
  {
  }

  // The other containers are what they were.
  lemma OthersKept(s: Schemas, root: Object, t: Target, container: Object, prune: bool, extension: string)
    requires WellNamed(s) && Defines(s, t.extension, t.name, t.parent) && IsExtension(s, extension)
    requires OneKey(Container(root, t.extension), t.name, container) && t.extension != extension
    ensures Container(WithContainer(root, t.extension, container, prune), extension) == Container(root, extension)
  {
    hide Get, Set, Remove, AllUnassigned, OneKey, WellNamed, SchemaOf;
    var after := WithContainer(root, t.extension, container, prune);
    if t.extension == "" {
      OneKeySame(root, t.name, container);
      DefinesBase(s, t.name, t.parent);
      BaseNotExtension(s, t.name, extension);
      GetSame(root, after, t.name, extension);
    } else {
      RootKey(root, t.extension, container, prune);
      DefinesId(s, t.extension, t.name, t.parent);
      HoldersDiffer(s, t.extension, extension);
      GetSame(root, after, t.extension, extension);
    }
  }

  lemma RootSpelled(root: Object, extension: string, container: Object, prune: bool)
    requires SpelledOnce(root) && (extension == "" ==> SpelledOnce(container))
    ensures SpelledOnce(WithContainer(root, extension, container, prune))
  {
    hide SpelledOnce, AllUnassigned, Get, Set, Remove;
    if extension != "" {
      SetSpelled(root, extension, Obj(container));
      RemoveSpelled(root, extension);
    }
  }

  lemma PutBackSpelled(s: Schemas, root: Object, t: Target, container: Object, prune: bool)
    requires WellNamed(s) && Spelled(s, root) && Defines(s, t.extension, t.name, t.parent)
    requires OneKey(Container(root, t.extension), t.name, container)
    ensures Spelled(s, WithContainer(root, t.extension, container, prune))
  {
    hide SpelledOnce, AllUnassigned, WithContainer, OneKey, Defines, WellNamed, SchemaOf;
    var after := WithContainer(root, t.extension, container, prune);
    DefinesHolder(s, t);
    OneKeySpelled(Container(root, t.extension), t.name, container);
    assert SpelledOnce(Container(root, ""));
    RootSpelled(root, t.extension, container, prune);
    forall extension | IsHolder(s, extension) ensures SpelledOnce(Container(after, extension)) {
      if extension == "" {
      } else if extension == t.extension {
        Replaced(s, root, extension, container, prune);
        assert SpelledOnce(map[]) by { NothingSpelled(); }
      } else {
        OthersKept(s, root, t, container, prune, extension);
      }
    }
  }

  lemma NothingSpelled()
    ensures SpelledOnce(map[])
  {
  }

  // ---- Adding to one list ----

  // What a list add does to the resource, before the extension is looked at.
  ghost predicate IsAdd(s: Schemas, root: Object, t: Target, container: Object, list: seq<Json>) {
    && Defines(s, t.extension, t.name, t.parent)
    && container == Set(Container(root, t.extension), t.name, List(list))
    && (t.extension != "" ==> Get(root, t.extension) == Null || Get(root, t.extension).Obj?)
  }

  lemma AddOneKey(s: Schemas, root: Object, t: Target, container: Object, list: seq<Json>)
    requires IsAdd(s, root, t, container, list)
    ensures OneKey(Container(root, t.extension), t.name, container) && Get(container, t.name) == List(list)
  {
    hide Get, Set, Remove, OneKey;
    OneKeySet(Container(root, t.extension), t.name, List(list));
    GetSetSame(Container(root, t.extension), t.name, List(list));
  }

  // A list of the same container.
  lemma SlotInside(s: Schemas, root: Object, t: Target, container: Object, list: seq<Json>, folded: string)
    requires IsAdd(s, root, t, container, list) && SpelledOnce(container) && Fold(folded) == folded
    ensures Get(container, folded) == if folded == Fold(t.name) then List(list) else At(root, t.extension, folded)
  {
    hide Get, Set, SpelledOnce;
    AddOneKey(s, root, t, container, list);
    if folded == Fold(t.name) {
      GetFold(container, t.name, folded);
    } else {
      GetSetOther(Container(root, t.extension), t.name, List(list), folded);
    }
  }

  // The resource itself, when the list is in an extension: the extension is no list.
  lemma SlotAtRoot(root: Object, after: Object, extension: string, folded: string)
    requires SpelledOnce(root) && SpelledOnce(after) && SameBut(root, after, extension)
    requires !Get(root, extension).List? && !Get(after, extension).List?
    ensures Get(after, folded).List? <==> Get(root, folded).List?
    ensures Get(after, folded).List? ==> Get(after, folded) == Get(root, folded)
  {
    hide Get, SpelledOnce;
    if EqualFold(extension, folded) {
      GetFold(root, extension, folded);
      GetFold(after, extension, folded);
    } else {
      GetSame(root, after, extension, folded);
    }
  }

  // Every other list is where it was.
  lemma SlotElsewhere(s: Schemas, root: Object, t: Target, container: Object, list: seq<Json>, slot: Slot)
    requires WellNamed(s) && Spelled(s, root) && IsAdd(s, root, t, container, list) && slot.extension != t.extension
    ensures var after := WithContainer(root, t.extension, container, true);
            && (IsListAt(s, after, slot) <==> IsListAt(s, root, slot))
            && (IsListAt(s, root, slot) ==>
                At(after, slot.extension, slot.folded) == At(root, slot.extension, slot.folded))
  {
    hide Get, Set, SpelledOnce, AllUnassigned, WithContainer, SchemaOf, Defines, WellNamed, OneKey, SameBut;
    var after := WithContainer(root, t.extension, container, true);
    AddOneKey(s, root, t, container, list);
    DefinesHolder(s, t);
    if IsHolder(s, slot.extension) {
      if slot.extension == "" {
        PutBackSpelled(s, root, t, container, true);
        assert SpelledOnce(Container(root, "")) && SpelledOnce(Container(after, ""));
        RootKey(root, t.extension, container, true);
        NoList(s, root, t, container, list);
        SlotAtRoot(root, after, t.extension, slot.folded);
      } else {
        OthersKept(s, root, t, container, true, slot.extension);
      }
    }
  }

  lemma NoList(s: Schemas, root: Object, t: Target, container: Object, list: seq<Json>)
    requires Spelled(s, root) && IsAdd(s, root, t, container, list) && t.extension != ""
    ensures !Get(root, t.extension).List? && !Get(WithContainer(root, t.extension, container, true), t.extension).List?
  {
    hide Set, SpelledOnce, AllUnassigned, SchemaOf, Get;
    DefinesHolder(s, t);
    Replaced(s, root, t.extension, container, true);
    GetSetSame(root, t.extension, Obj(container));
  }

  // The container stays: one list is what it was made, and all others are what they were.
  lemma ListsAdded(s: Schemas, root: Object, t: Target, container: Object, list: seq<Json>)
    requires WellNamed(s) && Spelled(s, root) && IsAdd(s, root, t, container, list)
    requires !(t.extension != "" && AllUnassigned(container))
    ensures ListsOf(s, WithContainer(root, t.extension, container, true)) ==
            ListsOf(s, root)[SlotOf(t.extension, t.name) := list]
  {
    hide Get, Set, SpelledOnce, AllUnassigned, WithContainer, SchemaOf, Defines, WellNamed, OneKey, ListsOf, Spelled;
    var after := WithContainer(root, t.extension, container, true);
    var there := SlotOf(t.extension, t.name);
    AddOneKey(s, root, t, container, list);
    DefinesHolder(s, t);
    Replaced(s, root, t.extension, container, true);
    SpelledAt(s, root, t.extension);
    OneKeySpelled(Container(root, t.extension), t.name, container);
    FoldTwice(t.name);
    forall slot
      ensures slot in ListsOf(s, after) <==> slot == there || slot in ListsOf(s, root)
      ensures slot in ListsOf(s, after) ==> ListsOf(s, after)[slot] == ListsOf(s, root)[there := list][slot]
    {
      ListsAt(s, after, slot);
      ListsAt(s, root, slot);
      if slot.extension != t.extension {
        SlotElsewhere(s, root, t, container, list, slot);
      } else if Fold(slot.folded) == slot.folded {
        SlotInside(s, root, t, container, list, slot.folded);
      }
    }
  }

  lemma SpelledAt(s: Schemas, root: Object, extension: string)
    requires Spelled(s, root) && IsHolder(s, extension)
    ensures SpelledOnce(Container(root, extension))
  {
  }

  // The container goes, since nothing in it holds data: its lists go with it, and were empty.
  lemma ListsPruned(s: Schemas, root: Object, t: Target, container: Object, list: seq<Json>)
    requires WellNamed(s) && Spelled(s, root) && IsAdd(s, root, t, container, list)
    requires t.extension != "" && AllUnassigned(container)
    ensures ListsOf(s, WithContainer(root, t.extension, container, true))
         == Pruned(ListsOf(s, root)[SlotOf(t.extension, t.name) := list], t.extension)
  {
    hide Get, Set, SpelledOnce, AllUnassigned, WithContainer, SchemaOf, Defines, WellNamed, OneKey, ListsOf, Spelled;
    var after := WithContainer(root, t.extension, container, true);
    var there := SlotOf(t.extension, t.name);
    var added := ListsOf(s, root)[there := list];
    AddOneKey(s, root, t, container, list);
    DefinesHolder(s, t);
    Replaced(s, root, t.extension, container, true);
    SpelledAt(s, root, t.extension);
    OneKeySpelled(Container(root, t.extension), t.name, container);
    FoldTwice(t.name);
    forall slot | slot in added && slot.extension == t.extension ensures added[slot] == [] {
      ListsAt(s, root, slot);
      SlotInside(s, root, t, container, list, slot.folded);
      BlankMembers(container, slot.folded);
      assert Get(container, slot.folded) == List(added[slot]);
      BlankList(added[slot]);
    }
    forall slot
      ensures slot in ListsOf(s, after) <==> slot in added && slot.extension != t.extension
      ensures slot in ListsOf(s, after) ==> ListsOf(s, after)[slot] == added[slot]
    {
      ListsAt(s, after, slot);
      ListsAt(s, root, slot);
      if slot.extension != t.extension {
        SlotElsewhere(s, root, t, container, list, slot);
      } else {
        NothingHeld(slot.folded);
      }
    }
  }

  lemma BlankList(list: seq<Json>)
    requires Blank(List(list))
    ensures list == []
  {
  }

  lemma NothingHeld(name: string)
    ensures Get(map[], name) == Null
  {
  }

  // ---- What operations amount to ----

  // An add to a list is one; anything else is whatever it makes of the lists, and drops all indexes.
  ghost function WriteSteps(p: Patcher, root: Object, path: FilterPath.Path, op: Op, incoming: Json): seq<Step>
    requires WriteAt(p, root, path, op, incoming).Ok?
  {
    var t := Locate(p, path).value;
    if IsListAdd(t, op) then
      var container := WriteIn(Container(root, t.extension), t, op, incoming, p.walk).value;
      [Adding(t, StripReadOnly(t.attr, incoming))] +
      if t.extension != "" && AllUnassigned(container) then [Pruning(t.extension)] else []
      else [Changing(ListsOf(p.schemas, WriteAt(p, root, path, op, incoming).value))]
  }

  ghost function SchemaSteps(p: Patcher, root: Object, uri: string, op: Op, values: Object,
                             order: seq<string>): seq<Step>
    requires MergeSchema(p, root, uri, op, values, order).Ok?
    decreases |order|
  {
    if order == [] then []
    else if order[0] !in values then SchemaSteps(p, root, uri, op, values, order[1..])
    else
      var path, incoming := FilterPath.Path(FilterPrint.AttrPath(uri, order[0], ""), None), values[order[0]];
      var next := WriteAt(p, root, path, op, incoming).value;
      WriteSteps(p, root, path, op, incoming) + SchemaSteps(p, next, uri, op, values, order[1..])
  }

  ghost function KeySteps(p: Patcher, root: Object, key: string, op: Op, incoming: Json): seq<Step>
    requires MergeKey(p, root, key, op, incoming).Ok?
  {
    match SchemaOf(p.schemas, key)
    case Some(schema) => SchemaSteps(p, root, schema.id, op, incoming.fields, p.walk(incoming.fields))
    case None =>
      if EqualFold(key, "schemas") || RepeatsReadOnly(p, root, KeyPath(key), incoming) then []
      else WriteSteps(p, root, FilterPath.Path(KeyPath(key), None), op, incoming)
  }

  ghost function RootSteps(p: Patcher, root: Object, op: Op, values: Object, order: seq<string>): seq<Step>
    requires MergeRoot(p, root, op, values, order).Ok?
    decreases |order|
  {
    if order == [] then []
    else if order[0] !in values then RootSteps(p, root, op, values, order[1..])
    else
      var next := MergeKey(p, root, order[0], op, values[order[0]]).value;
      KeySteps(p, root, order[0], op, values[order[0]]) + RootSteps(p, next, op, values, order[1..])
  }

  ghost function OperationSteps(p: Patcher, root: Object, operation: Operation): seq<Step>
    requires Apply(p, root, operation).Ok?
  {
    if Lower(operation.op) == "remove" then [Changing(ListsOf(p.schemas, Apply(p, root, operation).value))]
    else
      var op := if Lower(operation.op) == "add" then Add else Replace;
      if operation.path == "" then
        RootSteps(p, root, op, operation.value.value.fields, p.walk(operation.value.value.fields))
      else WriteSteps(p, root, FilterPath.ParsePath(operation.path).value, op, operation.value.value)
  }

  ghost function StepsFor(p: Patcher, root: Object, operations: seq<Operation>): seq<Step>
    requires ApplyAll(p, root, operations).Ok?
    decreases |operations|
  {
    if operations == [] then []
    else OperationSteps(p, root, operations[0]) + StepsFor(p, Apply(p, root, operations[0]).value, operations[1..])
  }

  // ---- Steps one after another ----

  lemma {:induction false} StepsJoined(doc: map<Slot, seq<Json>>, xs: seq<Step>, ys: seq<Step>)
    requires StepsOn(doc, xs).Some?
    ensures StepsOn(doc, xs + ys) == StepsOn(StepsOn(doc, xs).value, ys)
    decreases |xs|
  {
    hide StepOn;
    if xs == [] {
      assert xs + ys == ys;
    } else {
      StepsJoined(StepOn(doc, xs[0]).value, xs[1..], ys);
      assert (xs + ys)[1..] == xs[1..] + ys;
    }
  }

  lemma OneStep(doc: map<Slot, seq<Json>>, step: Step)
    ensures StepsOn(doc, [step]) == StepOn(doc, step)
  {
    if StepOn(doc, step).Some? {
      assert StepsOn(StepOn(doc, step).value, [step][1..]) == StepOn(doc, step);
    }
  }

  // Steps that may be taken, and that lead from the lists of one resource to those of the next.
  ghost predicate Leads(s: Schemas, root: Object, steps: seq<Step>, after: Object) {
    && (forall i :: 0 <= i < |steps| ==> StepOk(s, steps[i]))
    && StepsOn(ListsOf(s, root), steps) == Some(ListsOf(s, after))
    && Spelled(s, after)
  }

  lemma LeadsNowhere(s: Schemas, root: Object)
    requires Spelled(s, root)
    ensures Leads(s, root, [], root)
  {
  }

  lemma LeadsOn(s: Schemas, root: Object, xs: seq<Step>, mid: Object, ys: seq<Step>, after: Object)
    requires Leads(s, root, xs, mid) && Leads(s, mid, ys, after)
    ensures Leads(s, root, xs + ys, after)
  {
    hide StepOk, ListsOf, Spelled;
    StepsJoined(ListsOf(s, root), xs, ys);
  }

  lemma LeadsChanging(s: Schemas, root: Object, after: Object)
    requires Spelled(s, after)
    ensures Leads(s, root, [Changing(ListsOf(s, after))], after)
  {
    hide ListsOf, Spelled;
    OneStep(ListsOf(s, root), Changing(ListsOf(s, after)));
  }

  // ---- Names without a colon ----

  // No character of an attribute's name folds like a colon.
  predicate Colonless(list: seq<Attribute>) {
    forall i :: 0 <= i < |list| ==> FoldChar(':') !in Fold(list[i].name)
  }

  predicate NoColons(s: Schemas) {
    Colonless(s.base.attributes) && forall e :: 0 <= e < |s.extensions| ==> Colonless(s.extensions[e].attributes)
  }

  lemma NoColonIn(s: Schemas, extension: string, name: string, a: Attribute)
    requires NoColons(s) && Defines(s, extension, name, a)
    ensures ':' !in name
  {
    hide FoldChar, Lookup;
    var list := SchemaOf(s, extension).value.attributes;
    if extension != "" {
      FindSchemaFinds(s.extensions, extension);
    }
    LookupFinds(list, name);
    ColonFolds(name);
  }

  lemma ColonFolds(name: string)
    ensures ':' in name ==> FoldChar(':') in Fold(name)
  {
    if ':' in name {
      var i :| 0 <= i < |name| && name[i] == ':';
      assert Fold(name)[i] == FoldChar(':');
    }
  }

  // ---- The lists of a run ----

  // A list add, through the engine and on the lists alone.
  lemma AddLeads(p: Patcher, root: Object, path: FilterPath.Path, op: Op, incoming: Json)
    requires WellNamed(p.schemas) && NoColons(p.schemas) && Spelled(p.schemas, root)
    requires WriteAt(p, root, path, op, incoming).Ok? && IsListAdd(Locate(p, path).value, op)
    ensures Leads(p.schemas, root, WriteSteps(p, root, path, op, incoming), WriteAt(p, root, path, op, incoming).value)
  {
    hide Get, Set, Locate, WriteWhole, Writable, Added, AddedTo, AllUnassigned, Defines, WellNamed, NoColons, Spelled,
         ListsOf, StepOn, StripReadOnly, Pruned, WithContainer, SlotOf, OneKey;
    var s, t := p.schemas, Locate(p, path).value;
    LocateFinds(p, path);
    NoColonIn(s, t.extension, t.name, t.parent);
    var held, stripped := Container(root, t.extension), StripReadOnly(t.attr, incoming);
    AddedIsWritten(held, t, stripped, p.walk);
    var list := AddedTo(t.attr, t.name, ElementsAt(Get(held, t.name)), stripped);
    var container := Set(held, t.name, List(list));
    DefinesHolder(s, t);
    AddStep(s, root, t, stripped);
    AddOneKey(s, root, t, container, list);
    PutBackSpelled(s, root, t, container, true);
    var doc := ListsOf(s, root);
    OneStep(doc, Adding(t, stripped));
    if t.extension != "" && AllUnassigned(container) {
      ListsPruned(s, root, t, container, list);
      StepsJoined(doc, [Adding(t, stripped)], [Pruning(t.extension)]);
      OneStep(StepOn(doc, Adding(t, stripped)).value, Pruning(t.extension));
      PruneStep(StepOn(doc, Adding(t, stripped)).value, t.extension);
    } else {
      ListsAdded(s, root, t, container, list);
      assert [Adding(t, stripped)] + [] == [Adding(t, stripped)];
    }
  }

  lemma PruneStep(doc: map<Slot, seq<Json>>, extension: string)
    ensures StepOn(doc, Pruning(extension)) == Some(Pruned(doc, extension))
  {
  }

  // The gate judges the list alike, whether nothing or something else than a list stands there.
  lemma AddStep(s: Schemas, root: Object, t: Target, incoming: Json)
    requires Spelled(s, root) && IsHolder(s, t.extension)
    requires var before := At(root, t.extension, t.name);
             Writable(t.attr, before, List(Added(t.attr, ElementsAt(before), incoming)))
    ensures var elements := ElementsAt(At(root, t.extension, t.name));
            StepOn(ListsOf(s, root), Adding(t, incoming))
              == Some(ListsOf(s, root)[SlotOf(t.extension, t.name) := AddedTo(t.attr, t.name, elements, incoming)])
  {
    hide Get, Added, AddedTo, Equal, ListsOf, Spelled, SpelledOnce, SchemaOf;
    var slot := SlotOf(t.extension, t.name);
    SpelledAt(s, root, t.extension);
    FoldTwice(t.name);
    GetFold(Container(root, t.extension), t.name, slot.folded);
    ListsAt(s, root, slot);
  }

  lemma WriteLeads(p: Patcher, root: Object, path: FilterPath.Path, op: Op, incoming: Json)
    requires WellNamed(p.schemas) && NoColons(p.schemas) && Spelled(p.schemas, root)
    requires WriteAt(p, root, path, op, incoming).Ok?
    ensures Leads(p.schemas, root, WriteSteps(p, root, path, op, incoming), WriteAt(p, root, path, op, incoming).value)
  {
    hide Get, Locate, WriteIn, AllUnassigned, Defines, WellNamed, NoColons, Spelled, ListsOf, OneKey, Leads, IsListAdd,
         WithContainer;
    var s, t := p.schemas, Locate(p, path).value;
    if IsListAdd(t, op) {
      AddLeads(p, root, path, op, incoming);
    } else {
      LocateFinds(p, path);
      var held := Container(root, t.extension);
      var container := WriteIn(held, t, op, incoming, p.walk).value;
      WriteOneKey(held, t, op, incoming, p.walk);
      SetIsOneKey(held, t.name, container);
      PutBackSpelled(s, root, t, container, !SelectsValues(t));
      LeadsChanging(s, root, WriteAt(p, root, path, op, incoming).value);
    }
  }

  lemma RemoveLeads(p: Patcher, root: Object, path: FilterPath.Path)
    requires WellNamed(p.schemas) && Spelled(p.schemas, root)
    requires Locate(p, path).Ok? && RemoveAt(root, Locate(p, path).value).Ok?
    ensures Spelled(p.schemas, RemoveAt(root, Locate(p, path).value).value)
  {
    hide Get, Locate, RemoveIn, AllUnassigned, Defines, WellNamed, Spelled, OneKey, WithContainer;
    var t := Locate(p, path).value;
    LocateFinds(p, path);
    var held := Container(root, t.extension);
    if RemoveIn(held, t).Ok? {
      RemoveOneKey(held, t);
      PutBackSpelled(p.schemas, root, t, RemoveIn(held, t).value, t.filter.None? || t.sub != "");
    }
  }

  lemma {:induction false} SchemaLeads(p: Patcher, root: Object, uri: string, op: Op, values: Object,
                                       order: seq<string>)
    requires WellNamed(p.schemas) && NoColons(p.schemas) && Spelled(p.schemas, root)
    requires MergeSchema(p, root, uri, op, values, order).Ok?
    ensures Leads(p.schemas, root, SchemaSteps(p, root, uri, op, values, order),
            MergeSchema(p, root, uri, op, values, order).value)
    decreases |order|
  {
    hide WriteAt, WellNamed, NoColons, Spelled, Leads, WriteSteps;
    if order == [] {
      LeadsNowhere(p.schemas, root);
    } else if order[0] !in values {
      SchemaLeads(p, root, uri, op, values, order[1..]);
    } else {
      var path, incoming := FilterPath.Path(FilterPrint.AttrPath(uri, order[0], ""), None), values[order[0]];
      var next := WriteAt(p, root, path, op, incoming).value;
      WriteLeads(p, root, path, op, incoming);
      LeadsSpelled(p.schemas, root, WriteSteps(p, root, path, op, incoming), next);
      SchemaLeads(p, next, uri, op, values, order[1..]);
      LeadsOn(p.schemas, root, WriteSteps(p, root, path, op, incoming), next,
          SchemaSteps(p, next, uri, op, values, order[1..]),
              MergeSchema(p, root, uri, op, values, order).value);
    }
  }

  lemma LeadsSpelled(s: Schemas, root: Object, steps: seq<Step>, after: Object)
    requires Leads(s, root, steps, after)
    ensures Spelled(s, after)
  {
  }

  lemma KeyLeads(p: Patcher, root: Object, key: string, op: Op, incoming: Json)
    requires WellNamed(p.schemas) && NoColons(p.schemas) && Spelled(p.schemas, root)
    requires MergeKey(p, root, key, op, incoming).Ok?
    ensures Leads(p.schemas, root, KeySteps(p, root, key, op, incoming), MergeKey(p, root, key, op, incoming).value)
  {
    hide WriteAt, WellNamed, NoColons, Spelled, Leads, WriteSteps, MergeSchema, SchemaSteps, KeyPath, RepeatsReadOnly,
         EqualFold, SchemaOf;
    match SchemaOf(p.schemas, key) {
      case Some(schema) =>
        SchemaLeads(p, root, schema.id, op, incoming.fields, p.walk(incoming.fields));
      case None =>
        if EqualFold(key, "schemas") || RepeatsReadOnly(p, root, KeyPath(key), incoming) {
          LeadsNowhere(p.schemas, root);
        } else {
          WriteLeads(p, root, FilterPath.Path(KeyPath(key), None), op, incoming);
        }
    }
  }

  lemma {:induction false} RootLeads(p: Patcher, root: Object, op: Op, values: Object, order: seq<string>)
    requires WellNamed(p.schemas) && NoColons(p.schemas) && Spelled(p.schemas, root)
    requires MergeRoot(p, root, op, values, order).Ok?
    ensures Leads(p.schemas, root, RootSteps(p, root, op, values, order), MergeRoot(p, root, op, values, order).value)
    decreases |order|
  {
    hide MergeKey, WellNamed, NoColons, Spelled, Leads, KeySteps;
    if order == [] {
      LeadsNowhere(p.schemas, root);
    } else if order[0] !in values {
      RootLeads(p, root, op, values, order[1..]);
    } else {
      var steps := KeySteps(p, root, order[0], op, values[order[0]]);
      var next := MergeKey(p, root, order[0], op, values[order[0]]).value;
      KeyLeads(p, root, order[0], op, values[order[0]]);
      LeadsSpelled(p.schemas, root, steps, next);
      RootLeads(p, next, op, values, order[1..]);
      LeadsOn(p.schemas, root, steps, next, RootSteps(p, next, op, values, order[1..]),
              MergeRoot(p, root, op, values, order).value);
    }
  }

  lemma OperationLeads(p: Patcher, root: Object, operation: Operation)
    requires WellNamed(p.schemas) && NoColons(p.schemas) && Spelled(p.schemas, root)
    requires Apply(p, root, operation).Ok?
    ensures Leads(p.schemas, root, OperationSteps(p, root, operation), Apply(p, root, operation).value)
  {
    hide WriteAt, RemoveAt, MergeRoot, Locate, WellNamed, NoColons, Spelled, Leads, FilterPath.ParsePath, Lower,
         RootSteps, WriteSteps, ListsOf;
    if Lower(operation.op) == "remove" {
      RemoveLeads(p, root, FilterPath.ParsePath(operation.path).value);
      LeadsChanging(p.schemas, root, Apply(p, root, operation).value);
    } else {
      var op := if Lower(operation.op) == "add" then Add else Replace;
      if operation.path == "" {
        RootLeads(p, root, op, operation.value.value.fields, p.walk(operation.value.value.fields));
      } else {
        WriteLeads(p, root, FilterPath.ParsePath(operation.path).value, op, operation.value.value);
      }
    }
  }

  lemma {:induction false} RunLeads(p: Patcher, root: Object, operations: seq<Operation>)
    requires WellNamed(p.schemas) && NoColons(p.schemas) && Spelled(p.schemas, root)
    requires ApplyAll(p, root, operations).Ok?
    ensures Leads(p.schemas, root, StepsFor(p, root, operations), ApplyAll(p, root, operations).value)
    decreases |operations|
  {
    hide Apply, WellNamed, NoColons, Spelled, Leads, OperationSteps;
    if operations == [] {
      LeadsNowhere(p.schemas, root);
    } else {
      var steps, next := OperationSteps(p, root, operations[0]), Apply(p, root, operations[0]).value;
      OperationLeads(p, root, operations[0]);
      LeadsSpelled(p.schemas, root, steps, next);
      RunLeads(p, next, operations[1..]);
      LeadsOn(p.schemas, root, steps, next, StepsFor(p, next, operations[1..]), ApplyAll(p, root, operations).value);
    }
  }

  // The steps of a successful run lead to the lists that the engine leaves, whatever the operations are.
  lemma StepsAreOperations(p: Patcher, root: Object, operations: seq<Operation>)
    requires WellNamed(p.schemas) && NoColons(p.schemas) && Spelled(p.schemas, root)
    requires ApplyAll(p, root, operations).Ok?
    ensures StepsOn(ListsOf(p.schemas, root), StepsFor(p, root, operations))
         == Some(ListsOf(p.schemas, ApplyAll(p, root, operations).value))
  {
    hide ApplyAll, StepsFor, ListsOf, StepOk, Spelled;
    RunLeads(p, root, operations);
  }

  // Taken with indexes that are kept from step to step, they end in those lists too.
  method RunOperations(lists: Lists, steps: seq<Step>, ghost p: Patcher, ghost root: Object,
                       ghost operations: seq<Operation>)
    requires lists.Valid() && lists.schemas == p.schemas && lists.Doc() == ListsOf(p.schemas, root)
    requires WellNamed(p.schemas) && NoColons(p.schemas) && Spelled(p.schemas, root)
    requires ApplyAll(p, root, operations).Ok? && steps == StepsFor(p, root, operations)
    modifies lists`lists, lists`indexes, lists`spelled, lists.Caches(), lists.Sets(), lists.Elements()
    ensures lists.Valid() && lists.Doc() == ListsOf(p.schemas, ApplyAll(p, root, operations).value)
  {
    hide ApplyAll, StepsFor, ListsOf, StepOk, Spelled, StepsOn;
    RunLeads(p, root, operations);
    var _ := lists.Run(steps);
  }
}
