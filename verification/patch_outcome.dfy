// What a PATCH operation leaves where it points: the value that was sent can be read back there, a list has gained or
// lost what it should, and a removed value is gone (section 3.5.2 of RFC 7644).
module PatchOutcome {
  import opened Wrappers
  import opened Text
  import opened PatchObject
  import opened PatchValue
  import opened PatchEngine
  import opened PatchMutability
  import opened PatchSubstitute
  import opened PatchEffect
  import FilterPath

  // ---- What is sent ----

  // The value without the readOnly members of its objects, and otherwise as it is.
  ghost predicate Cleaned(a: Attribute, v: Json, sent: Json)
    decreases v
  {
    match v
    case List(elements) =>
      && sent.List? && |sent.elements| == |elements|
      && forall i :: 0 <= i < |elements| ==> Cleaned(a, elements[i], sent.elements[i])
    case Obj(fields) =>
      && sent.Obj?
      && (forall k :: k in sent.fields <==> k in fields && SubAttribute(a, k).mutability != ReadOnly)
      && forall k :: k in sent.fields ==> sent.fields[k] == fields[k]
    case _ => sent == v
  }

  lemma {:induction false} StripCleans(a: Attribute, v: Json)
    ensures Cleaned(a, v, StripReadOnly(a, v))
    decreases v
  {
    hide SubAttribute;
    if v.List? {
      forall i | 0 <= i < |v.elements| ensures Cleaned(a, v.elements[i], StripReadOnly(a, v).elements[i]) {
        StripCleans(a, v.elements[i]);
      }
    }
  }

  // The definition that says which members are readOnly.
  function Owner(t: Target): Attribute {
    if t.filter.Some? && t.sub == "" then t.parent else t.attr
  }

  // ---- The elements a filter leaves ----

  // A filter on objects selects nothing else.
  ghost predicate Picked(t: Target, e: Json)
    requires t.filter.Some?
  {
    (e.Obj? || t.parent.kind != ComplexKind) && t.filter.value(e)
  }

  ghost function Others(t: Target, elements: seq<Json>): seq<Json>
    requires t.filter.Some?
  {
    if elements == [] then []
    else (if Picked(t, elements[0]) then [] else [elements[0]]) + Others(t, elements[1..])
  }

  // Those not selected stay; the new value stands where the first selected one stood, unless one that stays equals it.
  ghost predicate ValuesReplaced(t: Target, v: Json, held: Json, after: Json)
    requires t.filter.Some?
  {
    var was := ElementsAt(held);
    exists first :: 0 <= first < |was| && Picked(t, was[first]) &&
      (forall j :: 0 <= j < first ==> !Picked(t, was[j])) &&
      after == if exists o :: o in Others(t, was) && Equal(t.attr, o, v) then List(Others(t, was))
               else List(was[..first] + [v] + Others(t, was[first + 1..]))
  }

  lemma {:induction false} UnmatchedOthers(t: Target, elements: seq<Json>)
    requires t.filter.Some?
    ensures Unmatched(elements, MatchedBy(t, elements)) == Others(t, elements)
  {
    if elements != [] {
      UnmatchedOthers(t, elements[1..]);
      assert MatchedBy(t, elements)[1..] == MatchedBy(t, elements[1..]);
    }
  }

  lemma {:induction false} OthersAre(t: Target, elements: seq<Json>)
    requires t.filter.Some?
    ensures forall o :: o in Others(t, elements) <==>
              exists i :: 0 <= i < |elements| && elements[i] == o && !Picked(t, o)
  {
    if elements != [] {
      OthersAre(t, elements[1..]);
      assert elements == [elements[0]] + elements[1..];
    }
  }

  lemma KeepsOthers(t: Target, elements: seq<Json>, v: Json)
    requires t.filter.Some?
    ensures Keeps(t.attr, elements, MatchedBy(t, elements), v) <==>
            exists o :: o in Others(t, elements) && Equal(t.attr, o, v)
  {
    hide Equal;
    OthersAre(t, elements);
    if i :| 0 <= i < |elements| && !MatchedBy(t, elements)[i] && Equal(t.attr, elements[i], v) {
      assert elements[i] in Others(t, elements);
    }
  }

  lemma FirstMatch(t: Target, elements: seq<Json>) returns (first: nat)
    requires t.filter.Some? && true in MatchedBy(t, elements)
    ensures first < |elements| && Picked(t, elements[first])
    ensures forall j :: 0 <= j < first ==> !Picked(t, elements[j])
  {
    var matched := MatchedBy(t, elements);
    first := 0;
    while !matched[first]
      invariant first < |elements| && true in matched[first..]
      invariant forall j :: 0 <= j < first ==> !Picked(t, elements[j])
      decreases |elements| - first
    {
      assert matched[first..] == [matched[first]] + matched[first + 1..];
      first := first + 1;
    }
  }

  lemma SubstituteReplaces(t: Target, held: Json, v: Json)
    requires t.filter.Some? && true in MatchedBy(t, ElementsAt(held)) && v != Null
    ensures var was := ElementsAt(held);
            var matched := MatchedBy(t, was);
            ValuesReplaced(t, v, held, List(Substitute(was, matched, v, Keeps(t.attr, was, matched, v))))
  {
    hide Equal, Keeps, Substitute;
    var was := ElementsAt(held);
    var matched := MatchedBy(t, was);
    var first := FirstMatch(t, was);
    KeepsOthers(t, was, v);
    UnmatchedOthers(t, was);
    UnmatchedOthers(t, was[first + 1..]);
    assert matched[first + 1..] == MatchedBy(t, was[first + 1..]);
    SubstitutePlaced(was, matched, v, true);
    SubstituteAtFirst(was, matched, v, first);
  }

  lemma ReplaceSelectedGives(container: Object, t: Target, op: Op, v: Json)
    requires SelectsValues(t) && ReplaceSelected(container, t, op, v).Ok?
    ensures op == Replace && v != Null && Coerce(t.attr.kind, v).Some?
    ensures ValuesReplaced(t, v, Get(container, t.name), Get(ReplaceSelected(container, t, op, v).value, t.name))
  {
    hide Get, Set, Equal, Keeps, Substitute, Coerce, Writable;
    var was := ElementsAt(Get(container, t.name));
    var matched := MatchedBy(t, was);
    SubstituteReplaces(t, Get(container, t.name), v);
    GetSetSame(container, t.name, List(Substitute(was, matched, v, Keeps(t.attr, was, matched, v))));
  }

  // ---- One write, wherever it points ----

  // The attribute held a value before, and holds another after.
  ghost predicate Effect(t: Target, op: Op, v: Json, held: Json, after: Json) {
    var sent := StripReadOnly(Owner(t), v);
    if SelectsValues(t) then op == Replace && ValuesReplaced(t, v, held, after)
    else if t.filter.Some? then FilteredWritten(t, op, sent, held, after)
    else if t.sub == "" then WholeWritten(t, op, sent, held, after)
    else SubWritten(t, op, sent, held, after)
  }

  lemma WriteInGives(container: Object, t: Target, op: Op, v: Json, walk: Object -> seq<string>)
    requires t.name != "" && EachOnce(walk) && WriteIn(container, t, op, v, walk).Ok?
    ensures Effect(t, op, v, Get(container, t.name), Get(WriteIn(container, t, op, v, walk).value, t.name))
  {
    hide Get, StripReadOnly, ReplaceSelected, WriteFiltered, WriteWhole, WriteSub, ValuesReplaced, FilteredWritten,
         WholeWritten, SubWritten, Refused, Resulting;
    var sent := StripReadOnly(Owner(t), v);
    if SelectsValues(t) {
      ReplaceSelectedGives(container, t, op, v);
    } else if t.filter.Some? {
      FilteredGives(container, t, op, sent, walk);
    } else if t.sub == "" {
      WholeGives(container, t, op, sent, walk);
    } else {
      SubGives(container, t, op, sent, walk);
    }
  }

  lemma LocatedSchema(p: Patcher, path: FilterPath.Path, t: Target)
    requires WellNamed(p.schemas) && Locate(p, path) == Ok(t)
    ensures t.name != ""
    ensures t.extension == "" ||
            (SchemaOf(p.schemas, t.extension).Some? && SchemaOf(p.schemas, t.extension).value.id == t.extension)
  {
    hide Locate, SchemaOf, WellNamed;
    LocateFinds(p, path);
    DefinesId(p.schemas, t.extension, t.name, t.parent);
  }

  // After a write the attribute holds what it is to hold; an extension that holds no data any more may be gone.
  lemma WriteAtGives(p: Patcher, root: Object, path: FilterPath.Path, op: Op, v: Json, t: Target)
    requires WellNamed(p.schemas) && Tidy(p.schemas, root) && EachOnce(p.walk)
    requires Locate(p, path) == Ok(t) && WriteAt(p, root, path, op, v).Ok?
    ensures exists x :: Effect(t, op, v, At(root, t.extension, t.name), x) &&
                        Undisturbed(t.extension, x, At(WriteAt(p, root, path, op, v).value, t.extension, t.name))
  {
    hide Get, Set, Remove, WriteIn, Effect, Locate, SchemaOf, Tidy, WellNamed, AllUnassigned, Blank;
    LocatedSchema(p, path, t);
    var held := Container(root, t.extension);
    var container := WriteIn(held, t, op, v, p.walk).value;
    WriteInGives(held, t, op, v, p.walk);
    PutBackSame(p.schemas, root, t.extension, container, !SelectsValues(t), t.name);
    if AllUnassigned(container) {
      BlankMembers(container, t.name);
    }
    assert Effect(t, op, v, At(root, t.extension, t.name), Get(container, t.name));
  }

  // ---- Operations with a path ----

  // The operation adds or replaces this value at this path.
  predicate Sends(operation: Operation, path: FilterPath.Path, v: Json) {
    && (Lower(operation.op) == "add" || Lower(operation.op) == "replace")
    && operation.path != "" && FilterPath.ParsePath(operation.path) == Some(path) && operation.value == Some(v)
  }

  lemma SendsWrites(p: Patcher, root: Object, operation: Operation, path: FilterPath.Path, v: Json)
    requires Sends(operation, path, v)
    ensures Apply(p, root, operation) == WriteAt(p, root, path, OpOf(operation.op), v)
  {
    hide WriteAt, FilterPath.ParsePath, Lower;
  }

  // Every successful write has its effect on what the attribute held.
  lemma OperationGives(p: Patcher, root: Object, operation: Operation, path: FilterPath.Path, v: Json, t: Target)
    requires WellNamed(p.schemas) && Tidy(p.schemas, root) && EachOnce(p.walk)
    requires Sends(operation, path, v) && Locate(p, path) == Ok(t) && Apply(p, root, operation).Ok?
    ensures exists x :: Effect(t, OpOf(operation.op), v, At(root, t.extension, t.name), x) &&
                        Undisturbed(t.extension, x, At(Apply(p, root, operation).value, t.extension, t.name))
  {
    hide Apply, WriteAt, Effect, At, Sends, OpOf, Locate;
    SendsWrites(p, root, operation, path, v);
    WriteAtGives(p, root, path, OpOf(operation.op), v, t);
  }

  // ---- When a write is refused ----

  // The value an unfiltered write is about: the attribute, or the sub-attribute of what it holds.
  ghost function HeldAt(t: Target, held: Json): Json {
    if t.sub == "" then held else Get(AsObject(held), t.sub)
  }

  // The resource holds something else than an object where one is needed.
  ghost predicate Blocked(t: Target, root: Object) {
    || (t.extension != "" && Get(root, t.extension) != Null && !Get(root, t.extension).Obj?)
    || (t.sub != "" && (t.parent.multi ||
                        (At(root, t.extension, t.name) != Null && !At(root, t.extension, t.name).Obj?)))
  }

  // It would change an immutable value, or a part of one.
  ghost predicate Changes(t: Target, op: Op, sent: Json, held: Json) {
    var before := HeldAt(t, held);
    Refused(t.attr, t.sub != "" && Closed(t.parent, AsObject(held)), before, Resulting(t.attr, op, before, sent))
  }

  // Without a filter, a value that is not merged is taken exactly when nothing blocks the way and nothing immutable
  // changes.
  lemma WriteTakenExactly(p: Patcher, root: Object, operation: Operation, path: FilterPath.Path, v: Json, t: Target)
    requires WellNamed(p.schemas) && EachOnce(p.walk)
    requires Sends(operation, path, v) && Locate(p, path) == Ok(t) && t.filter.None? && !Merges(t.attr, v)
    ensures var held := At(root, t.extension, t.name);
            var out := Apply(p, root, operation);
            if Blocked(t, root) then out == Err(InvalidPath)
            else if Changes(t, OpOf(operation.op), StripReadOnly(t.attr, v), held) then out == Err(NotMutable)
            else out.Ok?
  {
    hide Get, Apply, WriteSub, WriteWhole, Sends, OpOf, Locate, Refused, Resulting, StripReadOnly, WholeWritten,
         SubWritten, WithContainer, SchemaOf;
    var op := OpOf(operation.op);
    SendsWrites(p, root, operation, path, v);
    LocatedSchema(p, path, t);
    var sent := StripReadOnly(t.attr, v);
    StripKeepsKind(t.attr, v);
    var container := Container(root, t.extension);
    if t.sub == "" {
      WholeGives(container, t, op, sent, p.walk);
    } else {
      SubGives(container, t, op, sent, p.walk);
    }
  }

  lemma StripKeepsKind(a: Attribute, v: Json)
    ensures StripReadOnly(a, v).Obj? <==> v.Obj?
    ensures !v.Obj? && !v.List? ==> StripReadOnly(a, v) == v
  {
  }

  // ---- What was sent is what is read ----

  // The value itself, unless it holds no data and went with its extension.
  ghost predicate Reads(root: Object, t: Target, v: Json) {
    Undisturbed(t.extension, v, At(root, t.extension, t.name))
  }

  // A simple value that is put in place can be read back.
  lemma SimpleValueReadsBack(p: Patcher, root: Object, operation: Operation, path: FilterPath.Path, v: Json, t: Target)
    requires WellNamed(p.schemas) && Tidy(p.schemas, root) && EachOnce(p.walk)
    requires Sends(operation, path, v) && Locate(p, path) == Ok(t) && Apply(p, root, operation).Ok?
    requires t.filter.None? && t.sub == "" && !t.attr.multi && !v.Obj? && !v.List?
    requires OpOf(operation.op) == Replace || !At(root, t.extension, t.name).List?
    ensures Reads(Apply(p, root, operation).value, t, v)
    ensures t.extension == "" || !Blank(v) ==> At(Apply(p, root, operation).value, t.extension, t.name) == v
  {
    hide Apply, At, Sends, OpOf, Locate, Blank, Tidy, WellNamed;
    OperationGives(p, root, operation, path, v, t);
    StripKeepsKind(t.attr, v);
    var op, held := OpOf(operation.op), At(root, t.extension, t.name);
    var x :| Effect(t, op, v, held, x) &&
             Undisturbed(t.extension, x, At(Apply(p, root, operation).value, t.extension, t.name));
    assert x == v;
  }

  // The same of a sub-attribute, and every other member of the object around it reads as before.
  lemma SimpleMemberReadsBack(p: Patcher, root: Object, operation: Operation, path: FilterPath.Path, v: Json, t: Target)
    requires WellNamed(p.schemas) && Tidy(p.schemas, root) && EachOnce(p.walk)
    requires Sends(operation, path, v) && Locate(p, path) == Ok(t) && Apply(p, root, operation).Ok?
    requires t.filter.None? && t.sub != "" && !t.attr.multi && !v.Obj? && !v.List?
    requires OpOf(operation.op) == Replace || !HeldAt(t, At(root, t.extension, t.name)).List?
    ensures exists o: Object ::
              && Get(o, t.sub) == v && SameBut(AsObject(At(root, t.extension, t.name)), o, t.sub)
              && Reads(Apply(p, root, operation).value, t, Obj(o))
  {
    hide Apply, At, Get, Sends, OpOf, Locate, Blank, Tidy, WellNamed, SameBut;
    OperationGives(p, root, operation, path, v, t);
    StripKeepsKind(t.attr, v);
    var op, held := OpOf(operation.op), At(root, t.extension, t.name);
    var x :| Effect(t, op, v, held, x) &&
             Undisturbed(t.extension, x, At(Apply(p, root, operation).value, t.extension, t.name));
    assert Get(x.fields, t.sub) == v && Obj(x.fields) == x;
  }

  // An object sent to a complex attribute: each member it names that is not readOnly holds what was sent, and
  // everything else the attribute held reads as before.
  lemma ObjectReadsBack(p: Patcher, root: Object, operation: Operation, path: FilterPath.Path, v: Json, t: Target)
    requires WellNamed(p.schemas) && Tidy(p.schemas, root) && EachOnce(p.walk)
    requires Sends(operation, path, v) && Locate(p, path) == Ok(t) && Apply(p, root, operation).Ok?
    requires t.filter.None? && t.sub == "" && Merges(t.attr, v)
    ensures exists o: Object :: Reads(Apply(p, root, operation).value, t, Obj(o)) &&
              MembersRead(t.attr, OpOf(operation.op), v.fields, AsObject(At(root, t.extension, t.name)), o)
  {
    hide Apply, At, Get, Sends, OpOf, Locate, Blank, Tidy, WellNamed, MembersRead;
    OperationGives(p, root, operation, path, v, t);
    var op, held := OpOf(operation.op), At(root, t.extension, t.name);
    var x :| Effect(t, op, v, held, x) &&
             Undisturbed(t.extension, x, At(Apply(p, root, operation).value, t.extension, t.name));
    MergedReads(t.attr, op, v.fields, AsObject(held), x.fields);
    assert Obj(x.fields) == x;
  }

  ghost predicate MembersRead(a: Attribute, op: Op, values: Object, o: Object, after: Object) {
    && (forall k :: Alone(values, k) && SubAttribute(a, k).mutability != ReadOnly ==>
          Get(after, k) == MemberResult(a, op, o, k, values[k]))
    && forall name: string ::
         (forall k :: k in values && EqualFold(k, name) ==> SubAttribute(a, k).mutability == ReadOnly) ==>
           Get(after, name) == Get(o, name)
  }

  lemma MergedReads(a: Attribute, op: Op, values: Object, o: Object, after: Object)
    requires Merged(a, op, o, StripFields(a, values), after)
    ensures MembersRead(a, op, values, o, after)
  {
    hide Get, Resulting, SubAttribute;
    var sent := StripFields(a, values);
    forall k | Alone(values, k) && SubAttribute(a, k).mutability != ReadOnly
      ensures Get(after, k) == MemberResult(a, op, o, k, values[k])
    {
      assert Alone(sent, k);
    }
  }

  // A list that is replaced holds the values sent without repeats, filled up from the elements it held before.
  lemma ListReadsBack(p: Patcher, root: Object, operation: Operation, path: FilterPath.Path, v: Json, t: Target)
    requires WellNamed(p.schemas) && Tidy(p.schemas, root) && EachOnce(p.walk)
    requires Sends(operation, path, v) && Locate(p, path) == Ok(t) && Apply(p, root, operation).Ok?
    requires t.filter.None? && t.sub == "" && t.attr.multi && OpOf(operation.op) == Replace
    ensures exists ys: seq<Json> ::
              && Reads(Apply(p, root, operation).value, t, List(ys))
              && Carried(t.attr, Replace, ElementsAt(At(root, t.extension, t.name)),
                         List(Unique(t.attr, ListOf(StripReadOnly(t.attr, v)))), List(ys))
  {
    hide Apply, At, Sends, OpOf, Locate, Blank, Tidy, WellNamed, Unique, ElementCarried;
    OperationGives(p, root, operation, path, v, t);
    var held := At(root, t.extension, t.name);
    var x :| Effect(t, Replace, v, held, x) &&
             Undisturbed(t.extension, x, At(Apply(p, root, operation).value, t.extension, t.name));
    assert List(x.elements) == x;
  }

  // A list that is added to holds what it held, without the flag if someone takes over, and then the new values.
  lemma ListGrows(p: Patcher, root: Object, operation: Operation, path: FilterPath.Path, v: Json, t: Target)
    requires WellNamed(p.schemas) && Tidy(p.schemas, root) && EachOnce(p.walk)
    requires Sends(operation, path, v) && Locate(p, path) == Ok(t) && Apply(p, root, operation).Ok?
    requires t.filter.None? && t.sub == "" && t.attr.multi && OpOf(operation.op) == Add
    ensures var was, sent := ElementsAt(At(root, t.extension, t.name)), StripReadOnly(t.attr, v);
            var gained := Gained(t.attr, was, sent);
            exists ys: seq<Json> ::
              && Reads(Apply(p, root, operation).value, t, List(ys))
              && Extended(was, gained, TakesOver(t.name, true, sent, gained), List(ys))
  {
    hide Apply, At, Sends, OpOf, Locate, Blank, Tidy, WellNamed, Gained, TakesOver, Unflagged;
    OperationGives(p, root, operation, path, v, t);
    var held := At(root, t.extension, t.name);
    var x :| Effect(t, Add, v, held, x) &&
             Undisturbed(t.extension, x, At(Apply(p, root, operation).value, t.extension, t.name));
    assert List(x.elements) == x;
  }

  ghost predicate SomeMemberRefused(a: Attribute, op: Op, o: Object, values: Object) {
    exists k :: k in values && Sendable(a, k) && MemberRefused(a, Closed(a, o), op, o, k, values[k])
  }

  predicate Sendable(a: Attribute, k: string) {
    SubAttribute(a, k).mutability != ReadOnly
  }

  lemma SentMembers(a: Attribute, op: Op, o: Object, values: Object)
    requires Distinct(values)
    ensures Distinct(StripFields(a, values))
    ensures SomeMemberRefused(a, op, o, values) <==>
            exists k :: k in StripFields(a, values) &&
              MemberRefused(a, Closed(a, o), op, o, k, StripFields(a, values)[k])
  {
    hide MemberRefused, SubAttribute, Closed;
    var sent := StripFields(a, values);
    forall k | k in sent ensures Alone(sent, k) {
      assert Alone(values, k);
    }
    if k :| k in values && Sendable(a, k) && MemberRefused(a, Closed(a, o), op, o, k, values[k]) {
      assert k in sent && sent[k] == values[k];
    }
    if k :| k in sent && MemberRefused(a, Closed(a, o), op, o, k, sent[k]) {
      assert k in values && Sendable(a, k);
    }
  }

  // An object is taken exactly when nothing blocks the way and no member of it that is not readOnly is refused.
  lemma ObjectTakenExactly(p: Patcher, root: Object, operation: Operation, path: FilterPath.Path, v: Json, t: Target)
    requires WellNamed(p.schemas) && EachOnce(p.walk)
    requires Sends(operation, path, v) && Locate(p, path) == Ok(t) && t.filter.None? && t.sub == ""
    requires Merges(t.attr, v) && Distinct(v.fields)
    ensures var held := At(root, t.extension, t.name);
            var o := AsObject(held);
            var out := Apply(p, root, operation);
            if Blocked(t, root) || (held != Null && !held.Obj?) then out == Err(InvalidPath)
            else if SomeMemberRefused(t.attr, OpOf(operation.op), o, v.fields) then out == Err(NotMutable)
            else out.Ok?
  {
    hide Get, Apply, WriteWhole, Sends, OpOf, Locate, MemberRefused, WithContainer, SchemaOf, Closed,
         SomeMemberRefused, Distinct, SubAttribute;
    var op := OpOf(operation.op);
    SendsWrites(p, root, operation, path, v);
    LocatedSchema(p, path, t);
    var sent := StripFields(t.attr, v.fields);
    SentMembers(t.attr, op, AsObject(At(root, t.extension, t.name)), v.fields);
    assert StripReadOnly(t.attr, v) == Obj(sent);
    MergeTaken(Container(root, t.extension), t, op, Obj(sent), p.walk);
  }

  // ---- Writes through a filter ----

  // The elements of the list that a sub-attribute is written in are found, and none of them refuses it.
  lemma FilteredTakenExactly(p: Patcher, root: Object, operation: Operation, path: FilterPath.Path, v: Json, t: Target)
    requires WellNamed(p.schemas) && EachOnce(p.walk) && !Blocked(t.(sub := ""), root)
    requires Sends(operation, path, v) && Locate(p, path) == Ok(t) && t.filter.Some? && t.sub != ""
    requires !Merges(t.attr, v)
    ensures var was := ElementsAt(At(root, t.extension, t.name));
            var out := Apply(p, root, operation);
            if forall i :: 0 <= i < |was| ==> !Chosen(t, was[i]) then out == Err(NoTarget)
            else if exists i ::
              0 <= i < |was| && RefusedAt(t, OpOf(operation.op), StripReadOnly(t.attr, v), was[i])
            then out == Err(NotMutable) else out.Ok?
  {
    hide Get, Apply, WriteFiltered, Sends, OpOf, Locate, RefusedAt, StripReadOnly, WithContainer, SchemaOf;
    var op := OpOf(operation.op);
    SendsWrites(p, root, operation, path, v);
    LocatedSchema(p, path, t);
    StripKeepsKind(t.attr, v);
    FilteredRefused(Container(root, t.extension), t, op, StripReadOnly(t.attr, v), p.walk);
  }

  // Selected simple values can only be replaced, by a value of the type, and not in an immutable list.
  lemma ValuesTakenExactly(p: Patcher, root: Object, operation: Operation, path: FilterPath.Path, v: Json, t: Target)
    requires WellNamed(p.schemas)
    requires Sends(operation, path, v) && Locate(p, path) == Ok(t) && SelectsValues(t)
    ensures var was := ElementsAt(At(root, t.extension, t.name));
            var out := Apply(p, root, operation);
            if OpOf(operation.op) != Replace then out == Err(InvalidPath)
            else if v == Null || Coerce(t.attr.kind, v).None? then out == Err(InvalidValue)
            else if forall i :: 0 <= i < |was| ==> !Picked(t, was[i]) then out == Err(NoTarget)
            else exists after :: ValuesReplaced(t, v, List(was), List(after)) &&
                                 if Refused(t.attr, false, List(was), List(after)) then out == Err(NotMutable)
                                 else out.Ok?
  {
    hide Get, Set, Apply, Sends, OpOf, Locate, Equal, Keeps, Substitute, Coerce, WithContainer, SchemaOf,
         ValuesReplaced;
    SendsWrites(p, root, operation, path, v);
    var container := Container(root, t.extension);
    var was := ElementsAt(Get(container, t.name));
    var matched := MatchedBy(t, was);
    assert forall i :: 0 <= i < |was| ==> matched[i] == Picked(t, was[i]);
    if v != Null && true in matched {
      SubstituteReplaces(t, List(was), v);
      assert ValuesReplaced(t, v, List(was), List(Substitute(was, matched, v, Keeps(t.attr, was, matched, v))));
    }
  }

  // ---- Removals ----

  // The member the name stands for is gone, and nothing else.
  ghost predicate Without(o: Object, after: Object, name: string) {
    after.Keys == o.Keys - {Key(o, name)} && forall k :: k in after ==> after[k] == o[k]
  }

  // What a removal inside an attribute makes of what it holds.
  ghost predicate RemovedInside(t: Target, held: Json, after: Json) {
    var was := ElementsAt(held);
    if t.filter.Some? && t.sub == "" then after == List(Others(t, was))
    else if t.filter.None? && held.Obj? then after.Obj? && Without(held.fields, after.fields, t.sub)
    else if t.filter.None? && !held.List? then after == held
    else
      && after.List? && |after.elements| == |was|
      && forall i :: 0 <= i < |was| ==>
           if Emptied(t, was[i]) then
             after.elements[i].Obj? && Without(was[i].fields, after.elements[i].fields, t.sub)
           else after.elements[i] == was[i]
  }

  ghost predicate Emptied(t: Target, e: Json) {
    e.Obj? && (t.filter.Some? ==> t.filter.value(e))
  }

  // Removing it would unassign what is required, or change what is immutable.
  ghost predicate Needed(a: Attribute, gate: bool, held: Json) {
    (a.required && !IsUnassigned(held)) || Refused(a, gate, held, Null)
  }

  ghost predicate NeededIn(t: Target, e: Json) {
    Emptied(t, e) && Needed(t.attr, Closed(t.parent, e.fields), Get(e.fields, t.sub))
  }

  lemma RemoveIsWithout(o: Object, name: string)
    ensures Without(o, Remove(o, name), name)
  {
  }

  lemma DropGives(container: Object, t: Target)
    requires t.filter.Some? && t.sub == "" && Drop(container, t).Ok?
    ensures RemovedInside(t, Get(container, t.name), Get(Drop(container, t).value, t.name))
  {
    hide Get, Set, Equal, Keeps, Substitute, Writable;
    var was := ElementsAt(Get(container, t.name));
    SubstitutePlaced(was, MatchedBy(t, was), Null, true);
    UnmatchedOthers(t, was);
    GetSetSame(container, t.name, List(Others(t, was)));
  }

  lemma RemoveSubGives(container: Object, t: Target)
    requires t.sub != ""
    ensures var held := Get(container, t.name);
            var was := ElementsAt(held);
            var out := RemoveSub(container, t);
            && (out.Ok? ==> RemovedInside(t, held, Get(out.value, t.name)))
            && (if t.filter.None? && !held.List? then
                  if held.Obj? && NeededIn(t, held) then out == Err(NotMutable) else out.Ok?
                else if forall i :: 0 <= i < |was| ==> !Emptied(t, was[i]) then out == Err(NoTarget)
                else if exists i :: 0 <= i < |was| && NeededIn(t, was[i]) then out == Err(NotMutable)
                else out.Ok?)
  {
    hide Get, Set, Remove, Equal, Without;
    var held := Get(container, t.name);
    var was := ElementsAt(held);
    forall e: Json | Emptied(t, e) ensures Without(e.fields, Remove(e.fields, t.sub), t.sub) {
      RemoveIsWithout(e.fields, t.sub);
    }
    forall e: Json | Emptied(t, e) ensures Removable(e.fields, t) <==> !NeededIn(t, e) {
      RemovableIff(t, e);
    }
    if RemoveSub(container, t).Ok? {
      if t.filter.None? && held.Obj? {
        GetSetSame(container, t.name, Obj(Remove(held.fields, t.sub)));
      } else if t.filter.Some? || held.List? {
        GetSetSame(container, t.name, List(RemoveFrom(was, t)));
      }
    }
  }

  lemma RemovableIff(t: Target, e: Json)
    requires t.sub != "" && Emptied(t, e)
    ensures Removable(e.fields, t) <==> !NeededIn(t, e)
  {
    hide Get, Equal;
  }

  // The operation removes what is at this path.
  predicate Removes(operation: Operation, path: FilterPath.Path) {
    && Lower(operation.op) == "remove" && operation.path != ""
    && FilterPath.ParsePath(operation.path) == Some(path) && (operation.value == None || operation.value == Some(Null))
  }

  lemma RemovesAt(p: Patcher, root: Object, operation: Operation, path: FilterPath.Path, t: Target)
    requires Removes(operation, path) && Locate(p, path) == Ok(t)
    ensures Apply(p, root, operation) == RemoveAt(root, t)
  {
    hide RemoveAt, FilterPath.ParsePath, Lower, Locate;
  }

  // A removed attribute is gone, unless it is required or immutable and holds a value: then it is refused.
  lemma AttributeRemoval(p: Patcher, root: Object, operation: Operation, path: FilterPath.Path, t: Target)
    requires WellNamed(p.schemas) && Tidy(p.schemas, root)
    requires Removes(operation, path) && Locate(p, path) == Ok(t) && t.filter.None? && t.sub == ""
    ensures var out := Apply(p, root, operation);
            if Needed(t.attr, false, At(root, t.extension, t.name)) then out == Err(NotMutable)
            else out.Ok? &&
                 (OneSpelling(Container(root, t.extension), t.name) ==> At(out.value, t.extension, t.name) == Null)
  {
    hide Get, Set, Remove, Apply, Removes, Locate, Tidy, WellNamed, SchemaOf, AllUnassigned, WithContainer, Equal,
         OneSpelling;
    RemovesAt(p, root, operation, path, t);
    LocatedSchema(p, path, t);
    var held := Container(root, t.extension);
    PutBackSame(p.schemas, root, t.extension, Remove(held, t.name), true, t.name);
    if OneSpelling(held, t.name) {
      RemoveOnly(held, t.name);
    }
  }

  // The elements a filter selects go, and the others stay in order. It is refused when nothing would be left of what
  // is required, or when the list is immutable; selecting nothing changes nothing.
  lemma ElementRemoval(p: Patcher, root: Object, operation: Operation, path: FilterPath.Path, t: Target)
    requires WellNamed(p.schemas) && Tidy(p.schemas, root)
    requires Removes(operation, path) && Locate(p, path) == Ok(t) && t.filter.Some? && t.sub == ""
    ensures var was := ElementsAt(At(root, t.extension, t.name));
            var left := Others(t, was);
            var out := Apply(p, root, operation);
            if left == was then out == Ok(root)
            else if (t.attr.required && left == []) || Refused(t.attr, false, List(was), List(left))
            then out == Err(NotMutable)
            else out.Ok? && Undisturbed(t.extension, List(left), At(out.value, t.extension, t.name))
  {
    hide Get, Set, Apply, Removes, Locate, Tidy, WellNamed, SchemaOf, AllUnassigned, WithContainer, Equal, Keeps,
         Substitute, Blank;
    RemovesAt(p, root, operation, path, t);
    LocatedSchema(p, path, t);
    var held := Container(root, t.extension);
    var was := ElementsAt(Get(held, t.name));
    var left := Others(t, was);
    SubstitutePlaced(was, MatchedBy(t, was), Null, true);
    UnmatchedOthers(t, was);
    LeftIff(t, was);
    if Drop(held, t).Ok? {
      var container := Set(held, t.name, List(left));
      PutBackSame(p.schemas, root, t.extension, container, false, t.name);
      GetSetSame(held, t.name, List(left));
      if AllUnassigned(container) {
        BlankMembers(container, t.name);
      }
    }
  }

  lemma {:induction false} LeftIff(t: Target, elements: seq<Json>)
    requires t.filter.Some?
    ensures |Others(t, elements)| <= |elements|
    ensures Others(t, elements) == elements <==> true !in MatchedBy(t, elements)
    ensures Others(t, elements) == [] <==> false !in MatchedBy(t, elements)
  {
    if elements != [] {
      var rest := elements[1..];
      LeftIff(t, rest);
      assert MatchedBy(t, elements) == [Selected(t, elements[0])] + MatchedBy(t, rest);
      if Others(t, elements) == elements {
        assert |Others(t, elements)| == |elements|;
        assert !Picked(t, elements[0]);
        assert Others(t, elements)[1..] == Others(t, rest);
      }
    }
  }

  // A sub-attribute goes from the object, or from every object of the list that is meant. One that needs it is enough
  // to refuse that.
  lemma MemberRemoval(p: Patcher, root: Object, operation: Operation, path: FilterPath.Path, t: Target)
    requires WellNamed(p.schemas) && Tidy(p.schemas, root)
    requires Removes(operation, path) && Locate(p, path) == Ok(t) && t.sub != ""
    ensures var held := At(root, t.extension, t.name);
            var was := ElementsAt(held);
            var listed := t.filter.Some? || held.List?;
            var out := Apply(p, root, operation);
            if listed && forall i :: 0 <= i < |was| ==> !Emptied(t, was[i]) then
              out == if t.filter.Some? then Ok(root) else Err(NoTarget)
            else if SomeNeeded(t, held) then out == Err(NotMutable)
            else out.Ok? &&
                 exists x ::
                   RemovedInside(t, held, x) && Undisturbed(t.extension, x, At(out.value, t.extension, t.name))
  {
    hide Get, Set, Apply, Removes, Locate, Tidy, WellNamed, SchemaOf, AllUnassigned, WithContainer, RemoveSub,
         NeededIn, RemovedInside, Blank;
    RemovesAt(p, root, operation, path, t);
    LocatedSchema(p, path, t);
    var container := Container(root, t.extension);
    RemoveSubGives(container, t);
    if RemoveSub(container, t).Ok? {
      var after := RemoveSub(container, t).value;
      PutBackSame(p.schemas, root, t.extension, after, true, t.name);
      if AllUnassigned(after) {
        BlankMembers(after, t.name);
      }
    }
  }

  ghost predicate SomeNeeded(t: Target, held: Json) {
    if t.filter.None? && !held.List? then held.Obj? && NeededIn(t, held)
    else exists i :: 0 <= i < |ElementsAt(held)| && NeededIn(t, ElementsAt(held)[i])
  }

  // ---- Where a path leads, and what is no operation ----

  // An attribute of the base schema is read in the resource, one of an extension in the member of the extension's id.
  lemma AtReads(root: Object, extension: string, name: string)
    ensures extension == "" ==> At(root, extension, name) == Get(root, name)
    ensures extension != "" && Get(root, extension).Obj? ==>
              At(root, extension, name) == Get(Get(root, extension).fields, name)
    ensures extension != "" && !Get(root, extension).Obj? ==> At(root, extension, name) == Null
  {
  }

  predicate FirstNamed(attributes: seq<Attribute>, i: nat, name: string) {
    && i < |attributes| && EqualFold(attributes[i].name, name)
    && forall j :: 0 <= j < i ==> !EqualFold(attributes[j].name, name)
  }

  // The definition that is found is the first whose name is equal under folding.
  lemma {:induction false} LookupFirst(attributes: seq<Attribute>, name: string)
    ensures Lookup(attributes, name).None? <==>
              forall i :: 0 <= i < |attributes| ==> !EqualFold(attributes[i].name, name)
    ensures forall i: nat :: FirstNamed(attributes, i, name) ==> Lookup(attributes, name) == Some(attributes[i])
  {
    if attributes != [] {
      var rest := attributes[1..];
      LookupFirst(rest, name);
      assert forall i :: 0 < i < |attributes| ==> attributes[i] == rest[i - 1];
      forall i: nat | FirstNamed(attributes, i, name) ensures Lookup(attributes, name) == Some(attributes[i]) {
        if i > 0 {
          assert FirstNamed(rest, i - 1, name);
        }
      }
    }
  }

  predicate FirstWithId(list: seq<Schema>, i: nat, uri: string) {
    i < |list| && EqualFold(list[i].id, uri) && forall j :: 0 <= j < i ==> !EqualFold(list[j].id, uri)
  }

  // The extension that is found is the first whose id is equal under folding.
  lemma {:induction false} FindSchemaFirst(list: seq<Schema>, uri: string)
    ensures FindSchema(list, uri).None? <==> forall i :: 0 <= i < |list| ==> !EqualFold(list[i].id, uri)
    ensures forall i: nat :: FirstWithId(list, i, uri) ==> FindSchema(list, uri) == Some(list[i])
  {
    if list != [] {
      var rest := list[1..];
      FindSchemaFirst(rest, uri);
      assert forall i :: 0 < i < |list| ==> list[i] == rest[i - 1];
      forall i: nat | FirstWithId(list, i, uri) ensures FindSchema(list, uri) == Some(list[i]) {
        if i > 0 {
          assert FirstWithId(rest, i - 1, uri);
        }
      }
    }
  }

  // Some leaf of the value holds data: a flag, a number, a text or a list with something in it.
  ghost predicate HoldsData(v: Json)
    decreases v
  {
    match v
    case Null => false
    case Bool(_) => true
    case Num(_) => true
    case Str(text) => |text| > 0
    case List(elements) => |elements| > 0
    case Obj(fields) => exists k :: k in fields && HoldsData(fields[k])
  }

  lemma {:induction false} BlankExactly(v: Json)
    ensures Blank(v) <==> !HoldsData(v)
    decreases v
  {
    if v.Obj? {
      forall k | k in v.fields ensures Blank(v.fields[k]) <==> !HoldsData(v.fields[k]) {
        BlankExactly(v.fields[k]);
      }
    }
  }

  // A path leads to a target exactly when its schema defines the attribute and the sub-attribute, neither is
  // readOnly, and a filter stands only at a list and compiles.
  lemma LocateExactly(p: Patcher, path: FilterPath.Path)
    ensures Locate(p, path).Ok? <==>
              && SchemaOf(p.schemas, path.attribute.uri).Some?
              && var found := Lookup(SchemaOf(p.schemas, path.attribute.uri).value.attributes, path.attribute.name);
              && found.Some? && found.value.mutability != ReadOnly
              && (path.filter.Some? ==> found.value.multi && p.compile(found.value, path.filter.value).Ok?)
              && (path.attribute.subAttribute != "" ==>
                    Lookup(found.value.subs, path.attribute.subAttribute).Some? &&
                    Lookup(found.value.subs, path.attribute.subAttribute).value.mutability != ReadOnly)
  {
    hide SchemaOf, Lookup;
  }

  predicate Known(word: string) {
    Lower(word) == "add" || Lower(word) == "replace" || Lower(word) == "remove"
  }

  // An unknown word, a value that is missing or has no place, and a path that does not read are all refused.
  lemma MalformedRefused(p: Patcher, root: Object, operation: Operation)
    ensures var out := Apply(p, root, operation);
            var removal := Lower(operation.op) == "remove";
            && (!Known(operation.op) ==> out == Err(InvalidSyntax))
            && (removal && operation.path == "" ==> out == Err(NoTarget))
            && (removal && operation.path != "" && operation.value.Some? && operation.value != Some(Null) ==>
                  out == Err(InvalidSyntax))
            && (Known(operation.op) && !removal &&
                (operation.path == "" || FilterPath.ParsePath(operation.path).Some?) &&
                (operation.value.None? || (operation.path == "" && !operation.value.value.Obj?)) ==>
                  out == Err(InvalidValue))
            && (Known(operation.op) && operation.path != "" && FilterPath.ParsePath(operation.path).None? ==>
                  out.Err?)
  {
    hide FilterPath.ParsePath, Lower, MergeRoot, WriteAt, RemoveAt, Locate;
  }

  // Operations take effect one after the other, and the first that fails is the last.
  lemma {:induction false} RunsInOrder(p: Patcher, root: Object, first: seq<Operation>, later: seq<Operation>)
    ensures ApplyAll(p, root, first + later) ==
            match ApplyAll(p, root, first)
            case Err(e) => Err(e)
            case Ok(mid) => ApplyAll(p, mid, later)
    decreases |first|
  {
    hide Apply;
    if first == [] {
      assert first + later == later;
    } else {
      assert (first + later)[1..] == first[1..] + later;
      if Apply(p, root, first[0]).Ok? {
        RunsInOrder(p, Apply(p, root, first[0]).value, first[1..], later);
      }
    }
  }
}
