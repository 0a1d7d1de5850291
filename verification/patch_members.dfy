// A PATCH value without a path: each of its members is written like an operation of its own, in whatever order the
// members are walked (section 3.5.2.1 of RFC 7644).
module PatchMembers {
  import opened Wrappers
  import opened Text
  import opened PatchObject
  import opened PatchValue
  import opened PatchEngine
  import opened PatchMutability
  import opened PatchEffect
  import opened PatchOutcome
  import FilterPrint
  import FilterPath

  // The attribute held something, was written, and holds what the write left there; what happened to it before and
  // after the write is no more than that an extension without data may have come to be taken out.
  ghost predicate Written(t: Target, op: Op, v: Json, before: Json, after: Json) {
    exists held, x ::
      Undisturbed(t.extension, before, held) && Effect(t, op, v, held, x) && Undisturbed(t.extension, x, after)
  }

  lemma UndisturbedThen(extension: string, x: Json, y: Json, z: Json)
    requires Undisturbed(extension, x, y) && Undisturbed(extension, y, z)
    ensures Undisturbed(extension, x, z)
  {
  }

  lemma WrittenThen(t: Target, op: Op, v: Json, x: Json, y: Json, z: Json)
    requires Written(t, op, v, x, y) && Undisturbed(t.extension, y, z)
    ensures Written(t, op, v, x, z)
  {
    hide Effect, Undisturbed;
    var held, w :|
      Undisturbed(t.extension, x, held) && Effect(t, op, v, held, w) && Undisturbed(t.extension, w, y);
    UndisturbedThen(t.extension, w, y, z);
  }

  lemma ThenWritten(t: Target, op: Op, v: Json, x: Json, y: Json, z: Json)
    requires Undisturbed(t.extension, x, y) && Written(t, op, v, y, z)
    ensures Written(t, op, v, x, z)
  {
    hide Effect, Undisturbed;
    var held, w :|
      Undisturbed(t.extension, y, held) && Effect(t, op, v, held, w) && Undisturbed(t.extension, w, z);
    UndisturbedThen(t.extension, x, y, held);
  }

  lemma WriteIsWritten(p: Patcher, root: Object, path: FilterPath.Path, op: Op, v: Json, t: Target)
    requires WellNamed(p.schemas) && Tidy(p.schemas, root) && EachOnce(p.walk)
    requires Locate(p, path) == Ok(t) && WriteAt(p, root, path, op, v).Ok?
    ensures Written(t, op, v, At(root, t.extension, t.name),
                    At(WriteAt(p, root, path, op, v).value, t.extension, t.name))
  {
    hide WriteAt, Effect, At, Locate, Tidy, WellNamed, Blank;
    WriteAtGives(p, root, path, op, v, t);
    assert Undisturbed(t.extension, At(root, t.extension, t.name), At(root, t.extension, t.name));
  }

  lemma StepUndisturbs(s: Schemas, root: Object, after: Object, extension: string, name: string, a: Attribute,
                       open: bool)
    requires Step(s, root, after, extension, name, a, false, open)
    ensures Tidy(s, after) && Undisturbed(extension, At(root, extension, name), At(after, extension, name))
  {
  }

  lemma LocatedDefines(p: Patcher, path: FilterPath.Path, t: Target)
    requires WellNamed(p.schemas) && Locate(p, path) == Ok(t)
    ensures Defines(p.schemas, t.extension, t.name, t.parent)
  {
    hide Locate;
    LocateFinds(p, path);
  }

  lemma NothingDisturbed(extension: string, x: Json)
    ensures Undisturbed(extension, x, x)
  {
  }

  // ---- A member of the object under a schema's URI ----

  function PathOf(uri: string, name: string): FilterPath.Path {
    FilterPath.Path(FilterPrint.AttrPath(uri, name, ""), None)
  }

  lemma {:induction false} MergeSchemaWrites(p: Patcher, root: Object, uri: string, op: Op, values: Object,
                                             order: seq<string>, k: string, t: Target)
    requires WellNamed(p.schemas) && Tidy(p.schemas, root) && EachOnce(p.walk)
    requires MergeSchema(p, root, uri, op, values, order).Ok? && multiset(order)[k] <= 1
    requires Locate(p, PathOf(uri, k)) == Ok(t) && Alone(values, k)
    ensures var before := At(root, t.extension, t.name);
            var after := At(MergeSchema(p, root, uri, op, values, order).value, t.extension, t.name);
            if multiset(order)[k] == 1 then Written(t, op, values[k], before, after)
            else Undisturbed(t.extension, before, after)
    decreases |order|
  {
    hide WriteAt, Tidy, WellNamed, Written, At, Locate, Undisturbed;
    if order == [] {
      NothingDisturbed(t.extension, At(root, t.extension, t.name));
    } else {
      CountRest(order, k);
      var name := order[0];
      if name !in values {
        MergeSchemaWrites(p, root, uri, op, values, order[1..], k, t);
      } else {
        var next := WriteAt(p, root, PathOf(uri, name), op, values[name]).value;
        var before, mid := At(root, t.extension, t.name), At(next, t.extension, t.name);
        var after := At(MergeSchema(p, root, uri, op, values, order).value, t.extension, t.name);
        FieldKeepsTidy(p, root, uri, name, op, values[name], t, k);
        MergeSchemaWrites(p, next, uri, op, values, order[1..], k, t);
        if name == k {
          WriteIsWritten(p, root, PathOf(uri, k), op, values[k], t);
          WrittenThen(t, op, values[k], before, mid, after);
        } else {
          OtherFieldUndisturbs(p, root, uri, name, op, values[name], t, k);
          if multiset(order)[k] == 1 {
            ThenWritten(t, op, values[k], before, mid, after);
          } else {
            UndisturbedThen(t.extension, before, mid, after);
          }
        }
      }
    }
  }

  lemma FieldKeepsTidy(p: Patcher, root: Object, uri: string, name: string, op: Op, v: Json, t: Target, k: string)
    requires WellNamed(p.schemas) && Tidy(p.schemas, root) && Locate(p, PathOf(uri, k)) == Ok(t)
    requires WriteAt(p, root, PathOf(uri, name), op, v).Ok?
    ensures Tidy(p.schemas, WriteAt(p, root, PathOf(uri, name), op, v).value)
  {
    hide WriteAt, Step, Tidy, WellNamed, Defines, Locate, Addresses, PathOpensWrite;
    LocatedDefines(p, PathOf(uri, k), t);
    WriteStep(p, root, PathOf(uri, name), op, v, t.extension, t.name, t.parent);
    StepTidy(p.schemas, root, WriteAt(p, root, PathOf(uri, name), op, v).value, t.extension, t.name, t.parent,
             Addresses(p.schemas, PathOf(uri, name).attribute, t.extension, t.name),
             PathOpensWrite(p, root, PathOf(uri, name), op, t.extension, t.name));
  }

  lemma OtherFieldUndisturbs(p: Patcher, root: Object, uri: string, name: string, op: Op, v: Json, t: Target, k: string)
    requires WellNamed(p.schemas) && Tidy(p.schemas, root) && Locate(p, PathOf(uri, k)) == Ok(t)
    requires WriteAt(p, root, PathOf(uri, name), op, v).Ok? && !EqualFold(name, k)
    ensures Undisturbed(t.extension, At(root, t.extension, t.name),
                        At(WriteAt(p, root, PathOf(uri, name), op, v).value, t.extension, t.name))
  {
    hide WriteAt, Step, Tidy, WellNamed, Defines, Locate, PathOpensWrite, At, Undisturbed;
    LocateFinds(p, PathOf(uri, k));
    WriteStep(p, root, PathOf(uri, name), op, v, t.extension, t.name, t.parent);
    assert !Addresses(p.schemas, PathOf(uri, name).attribute, t.extension, t.name);
    StepUndisturbs(p.schemas, root, WriteAt(p, root, PathOf(uri, name), op, v).value, t.extension, t.name, t.parent,
                   PathOpensWrite(p, root, PathOf(uri, name), op, t.extension, t.name));
  }

  // ---- A member of the value ----

  // Whenever its turn comes, this member writes that value to the attribute.
  ghost predicate Carries(p: Patcher, op: Op, key: string, member: Json, t: Target, v: Json) {
    forall root | Tidy(p.schemas, root) && MergeKey(p, root, key, op, member).Ok? ::
      Written(t, op, v, At(root, t.extension, t.name),
              At(MergeKey(p, root, key, op, member).value, t.extension, t.name))
  }

  // No other member of the value says anything about the attribute.
  ghost predicate OnlyMember(p: Patcher, values: Object, key: string, t: Target) {
    key in values && forall l :: l in values && l != key ==> !KeyTouches(p, l, values[l], t.extension, t.name)
  }

  // The member names the attribute, by a path or by its bare name.
  ghost predicate NamesAttribute(p: Patcher, key: string, t: Target) {
    && SchemaOf(p.schemas, key).None? && !EqualFold(key, "schemas")
    && Locate(p, FilterPath.Path(KeyPath(key), None)) == Ok(t)
  }

  // The member is the object under a schema's URI, and this is one of its own members.
  ghost predicate HoldsAttribute(p: Patcher, key: string, member: Json, k: string, t: Target) {
    && SchemaOf(p.schemas, key).Some? && member.Obj? && Alone(member.fields, k)
    && Locate(p, PathOf(SchemaOf(p.schemas, key).value.id, k)) == Ok(t)
  }

  lemma NotRepeated(p: Patcher, root: Object, key: string, v: Json, t: Target)
    requires WellNamed(p.schemas) && NamesAttribute(p, key, t)
    ensures !RepeatsReadOnly(p, root, KeyPath(key), v)
  {
    hide KeyPath, SchemaOf, Equal, WellNamed;
    LocateFinds(p, FilterPath.Path(KeyPath(key), None));
  }

  lemma NamedCarries(p: Patcher, op: Op, key: string, v: Json, t: Target)
    requires WellNamed(p.schemas) && EachOnce(p.walk) && NamesAttribute(p, key, t)
    ensures Carries(p, op, key, v, t, v) && Defines(p.schemas, t.extension, t.name, t.parent)
  {
    hide WriteAt, Tidy, WellNamed, Written, At, KeyPath, RepeatsReadOnly, Locate;
    LocatedDefines(p, FilterPath.Path(KeyPath(key), None), t);
    forall root | Tidy(p.schemas, root) && MergeKey(p, root, key, op, v).Ok?
      ensures Written(t, op, v, At(root, t.extension, t.name),
                      At(MergeKey(p, root, key, op, v).value, t.extension, t.name))
    {
      NotRepeated(p, root, key, v, t);
      WriteIsWritten(p, root, FilterPath.Path(KeyPath(key), None), op, v, t);
    }
  }

  lemma HeldCarries(p: Patcher, op: Op, key: string, member: Json, k: string, t: Target)
    requires WellNamed(p.schemas) && EachOnce(p.walk) && HoldsAttribute(p, key, member, k, t)
    ensures Carries(p, op, key, member, t, member.fields[k]) && Defines(p.schemas, t.extension, t.name, t.parent)
  {
    hide MergeSchema, Tidy, WellNamed, Written, At, Locate;
    var uri := SchemaOf(p.schemas, key).value.id;
    LocatedDefines(p, PathOf(uri, k), t);
    forall root | Tidy(p.schemas, root) && MergeKey(p, root, key, op, member).Ok?
      ensures Written(t, op, member.fields[k], At(root, t.extension, t.name),
                      At(MergeKey(p, root, key, op, member).value, t.extension, t.name))
    {
      MergeSchemaWrites(p, root, uri, op, member.fields, p.walk(member.fields), k, t);
    }
  }

  // The member is written once, whenever its turn comes, and the attribute is left alone before and after.
  lemma {:induction false} MergeRootWrites(p: Patcher, root: Object, op: Op, values: Object, order: seq<string>,
                                           key: string, t: Target, v: Json)
    requires WellNamed(p.schemas) && Tidy(p.schemas, root) && Defines(p.schemas, t.extension, t.name, t.parent)
    requires MergeRoot(p, root, op, values, order).Ok? && multiset(order)[key] <= 1
    requires OnlyMember(p, values, key, t) && Carries(p, op, key, values[key], t, v)
    ensures var before := At(root, t.extension, t.name);
            var after := At(MergeRoot(p, root, op, values, order).value, t.extension, t.name);
            if multiset(order)[key] == 1 then Written(t, op, v, before, after)
            else Undisturbed(t.extension, before, after)
    decreases |order|
  {
    hide MergeKey, Step, Tidy, WellNamed, Written, At, KeyTouches, Defines, Undisturbed;
    if order == [] {
      NothingDisturbed(t.extension, At(root, t.extension, t.name));
    } else {
      CountRest(order, key);
      var name := order[0];
      if name !in values {
        MergeRootWrites(p, root, op, values, order[1..], key, t, v);
      } else {
        var next := MergeKey(p, root, name, op, values[name]).value;
        var before, mid := At(root, t.extension, t.name), At(next, t.extension, t.name);
        var after := At(MergeRoot(p, root, op, values, order).value, t.extension, t.name);
        MergeKeyStep(p, root, name, op, values[name], t.extension, t.name, t.parent);
        StepTidy(p.schemas, root, next, t.extension, t.name, t.parent,
                 KeyTouches(p, name, values[name], t.extension, t.name), false);
        MergeRootWrites(p, next, op, values, order[1..], key, t, v);
        if name == key {
          WrittenThen(t, op, v, before, mid, after);
        } else {
          StepUndisturbs(p.schemas, root, next, t.extension, t.name, t.parent, false);
          if multiset(order)[key] == 1 {
            ThenWritten(t, op, v, before, mid, after);
          } else {
            UndisturbedThen(t.extension, before, mid, after);
          }
        }
      }
    }
  }

  // ---- The operation ----

  // The operation adds or replaces the members of this object.
  predicate SendsMembers(operation: Operation, values: Object) {
    && (Lower(operation.op) == "add" || Lower(operation.op) == "replace")
    && operation.path == "" && operation.value == Some(Obj(values))
  }

  lemma SendsMerges(p: Patcher, root: Object, operation: Operation, values: Object)
    requires SendsMembers(operation, values)
    ensures Apply(p, root, operation) == MergeRoot(p, root, OpOf(operation.op), values, p.walk(values))
  {
    hide MergeRoot, Lower;
  }

  lemma CarriedIsWritten(p: Patcher, root: Object, operation: Operation, values: Object, key: string, t: Target,
                         v: Json)
    requires WellNamed(p.schemas) && Tidy(p.schemas, root) && Defines(p.schemas, t.extension, t.name, t.parent)
    requires EachOnce(p.walk) && SendsMembers(operation, values) && Apply(p, root, operation).Ok?
    requires OnlyMember(p, values, key, t) && Carries(p, OpOf(operation.op), key, values[key], t, v)
    ensures Written(t, OpOf(operation.op), v, At(root, t.extension, t.name),
                    At(Apply(p, root, operation).value, t.extension, t.name))
  {
    hide Apply, MergeRoot, Tidy, WellNamed, Written, At, Carries, Defines, SendsMembers, OpOf;
    SendsMerges(p, root, operation, values);
    MergeRootWrites(p, root, OpOf(operation.op), values, p.walk(values), key, t, v);
  }

  // A member that alone names an attribute has the effect of a write of its own.
  lemma MemberIsWritten(p: Patcher, root: Object, operation: Operation, values: Object, key: string, t: Target)
    requires WellNamed(p.schemas) && Tidy(p.schemas, root) && EachOnce(p.walk)
    requires SendsMembers(operation, values) && Apply(p, root, operation).Ok?
    requires OnlyMember(p, values, key, t) && NamesAttribute(p, key, t)
    ensures Written(t, OpOf(operation.op), values[key], At(root, t.extension, t.name),
                    At(Apply(p, root, operation).value, t.extension, t.name))
  {
    hide Apply, Tidy, WellNamed, Written, At, Carries, Defines, SendsMembers, OpOf, NamesAttribute;
    NamedCarries(p, OpOf(operation.op), key, values[key], t);
    CarriedIsWritten(p, root, operation, values, key, t, values[key]);
  }

  // So has a member of the object under the URI of a schema.
  lemma ExtensionMemberIsWritten(p: Patcher, root: Object, operation: Operation, values: Object, key: string,
                                 k: string, t: Target)
    requires WellNamed(p.schemas) && Tidy(p.schemas, root) && EachOnce(p.walk)
    requires SendsMembers(operation, values) && Apply(p, root, operation).Ok?
    requires OnlyMember(p, values, key, t) && HoldsAttribute(p, key, values[key], k, t)
    ensures Written(t, OpOf(operation.op), values[key].fields[k], At(root, t.extension, t.name),
                    At(Apply(p, root, operation).value, t.extension, t.name))
  {
    hide Apply, Tidy, WellNamed, Written, At, Carries, Defines, SendsMembers, OpOf;
    HeldCarries(p, OpOf(operation.op), key, values[key], k, t);
    CarriedIsWritten(p, root, operation, values, key, t, values[key].fields[k]);
  }

  // In particular a simple value that is put in place can be read back.
  lemma WrittenReadsBack(t: Target, op: Op, v: Json, before: Json, after: Json)
    requires Written(t, op, v, before, after)
    requires t.filter.None? && t.sub == "" && !t.attr.multi && !v.Obj? && !v.List?
    requires op == Replace || !before.List?
    ensures Undisturbed(t.extension, v, after)
  {
    hide Blank;
    StripKeepsKind(t.attr, v);
    var held, x :|
      Undisturbed(t.extension, before, held) && Effect(t, op, v, held, x) && Undisturbed(t.extension, x, after);
    assert x == v;
  }

  // ---- A member that is readOnly ----

  // The member names a readOnly attribute, or a readOnly sub-attribute.
  ghost predicate NamesReadOnly(p: Patcher, key: string, attr: Attribute) {
    && SchemaOf(p.schemas, key).None? && !EqualFold(key, "schemas")
    && Resolve(p.schemas, KeyPath(key)) == Some(attr) && attr.mutability == ReadOnly
  }

  lemma WalksOne(walk: Object -> seq<string>, key: string, v: Json)
    requires EachOnce(walk)
    ensures walk(map[key := v]) == [key]
  {
    var values: Object := map[key := v];
    var order := walk(values);
    forall k ensures multiset(order)[k] == multiset{key}[k] {
      assert k in values <==> k == key;
    }
    assert multiset(order) == multiset{key} && |order| == |multiset(order)|;
    assert order[0] in multiset(order);
  }

  lemma ReadOnlyNotLocated(p: Patcher, key: string, attr: Attribute)
    requires NamesReadOnly(p, key, attr)
    ensures Locate(p, FilterPath.Path(KeyPath(key), None)) == Err(NotMutable)
  {
    hide SchemaOf, Lookup, KeyPath;
  }

  // It is left out exactly when the resource itself holds an equal value under the attribute's own name, and is
  // refused otherwise: an extension or a sub-attribute is not looked into.
  lemma ReadOnlyMember(p: Patcher, root: Object, operation: Operation, key: string, v: Json, attr: Attribute)
    requires EachOnce(p.walk) && SendsMembers(operation, map[key := v]) && NamesReadOnly(p, key, attr)
    ensures var name := KeyPath(key).name;
            Apply(p, root, operation) ==
            if Has(root, name) && Equal(attr, Get(root, name), v) then Ok(root) else Err(NotMutable)
  {
    hide Apply, SendsMembers, OpOf, SchemaOf, Resolve, KeyPath, Locate, Equal, Get, Has;
    var op := OpOf(operation.op);
    SendsMerges(p, root, operation, map[key := v]);
    WalksOne(p.walk, key, v);
    ReadOnlyNotLocated(p, key, attr);
    assert [key][1..] == [];
  }
}
