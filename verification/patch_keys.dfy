// The index of an object's keys by folded name, and the merge that keeps it while the object grows.
module PatchKeys {
  import opened Wrappers
  import opened Folding
  import opened Text
  import opened PatchObject
  import opened PatchValue
  import opened PatchSet
  import opened PatchEngine

  // ---- Folding, character by character around its cycle ----

  method LeastOfCycle(next: char -> char, c: char) returns (smallest: char)
    requires FiniteCycles(next)
    ensures smallest == Least(next, c) && IsLeastOfCycle(next, c, smallest)
  {
    smallest := c;
    var at := next(c);
    ghost var steps: nat := Round(next, c) - 1;
    RoundBefore(next, c, steps + 1);
    while at != c
      invariant Before(next, c, at, steps)
      invariant LeastLeft(next, c, at, smallest, steps) == Least(next, c)
      decreases steps
    {
      BeforeNext(next, c, at, steps);
      smallest := if at < smallest then at else smallest;
      at := next(at);
      steps := steps - 1;
    }
  }

  method FoldOf(name: string) returns (folded: string)
    ensures folded == Fold(name)
  {
    folded := "";
    for i := 0 to |name|
      invariant folded == Fold(name[..i])
    {
      var smallest := LeastOfCycle(SIMPLE_FOLD, name[i]);
      folded := folded + [smallest];
    }
    assert name[..|name|] == name;
  }

  // ---- The index ----

  // A JSON object that is written in place.
  class Holder {
    var fields: Object

    constructor (fields: Object)
      ensures this.fields == fields
    {
      this.fields := fields;
    }
  }

  ghost predicate IsIndexOf(folded: map<string, string>, o: Object) {
    && (forall f :: f in folded ==> folded[f] in o && Fold(folded[f]) == f)
    && (forall k :: k in o ==> Fold(k) in folded && (folded[Fold(k)] == k || Less(folded[Fold(k)], k)))
  }

  class Keys {
    const holder: Holder
    var folded: map<string, string>

    ghost predicate Exact()
      reads this, holder
    {
      IsIndexOf(folded, holder.fields)
    }

    constructor (holder: Holder)
      ensures Exact() && this.holder == holder
    {
      this.holder := holder;
      folded := map[];
      new;
      var rest := holder.fields.Keys;
      ghost var seen: Object := map[];
      while rest != {}
        invariant rest <= holder.fields.Keys
        invariant seen.Keys == holder.fields.Keys - rest
        invariant IsIndexOf(folded, seen)
        decreases |rest|
      {
        var key :| key in rest;
        rest := rest - {key};
        AddKey(key, seen);
        seen := seen[key := Null];
      }
      IndexOfKeys(folded, seen, holder.fields);
    }

    // The object has one more key, or the same keys as before.
    method AddKey(key: string, ghost before: Object)
      requires IsIndexOf(folded, before)
      modifies this`folded
      ensures IsIndexOf(folded, before[key := Null])
    {
      var f := FoldOf(key);
      if f !in folded || Less(key, folded[f]) {
        AddedKey(folded, before, key);
        folded := folded[f := key];
      } else {
        LessTotal(folded[f], key);
      }
    }

    method Resolve(name: string) returns (key: string)
      requires Exact()
      ensures key == Key(holder.fields, name)
    {
      if name in holder.fields {
        return name;
      }
      var f := FoldOf(name);
      if f in folded {
        key := folded[f];
        IndexFindsLeast(folded, holder.fields, name);
      } else {
        key := name;
        assert Matches(holder.fields, name) == {};
      }
    }
  }

  lemma IndexOfKeys(folded: map<string, string>, o: Object, p: Object)
    requires IsIndexOf(folded, o) && o.Keys == p.Keys
    ensures IsIndexOf(folded, p)
  {
    assert forall k :: k in o <==> k in p;
  }

  lemma AddedKey(folded: map<string, string>, o: Object, key: string)
    requires IsIndexOf(folded, o)
    requires Fold(key) in folded ==> Less(key, folded[Fold(key)])
    ensures IsIndexOf(folded[Fold(key) := key], o[key := Null])
  {
    forall k | k in o && Fold(k) == Fold(key) ensures key == k || Less(key, k) {
      if folded[Fold(k)] != k {
        LessTransitive(key, folded[Fold(k)], k);
      }
    }
  }

  lemma IndexFindsLeast(folded: map<string, string>, o: Object, name: string)
    requires IsIndexOf(folded, o) && name !in o && Fold(name) in folded
    ensures Key(o, name) == folded[Fold(name)]
  {
    var key := folded[Fold(name)];
    assert key in Matches(o, name);
    KeyIsLeast(o, name);
    LeastUnique(Matches(o, name), key, Key(o, name));
  }

  // ---- Merging ----

  method ShapedOf(a: Attribute, encode: Encoder, incoming: Json) returns (v: Json)
    ensures v == Shaped(a, incoming)
  {
    if !a.multi {
      return incoming;
    }
    var kept := UniqueOf(a, encode, ListOf(incoming));
    v := List(kept);
  }

  // One member of the incoming object, under the key it resolves to.
  method Field(holder: Holder, key: string, name: string, incoming: Json, parent: Attribute, gated: bool, op: Op,
               encode: Encoder) returns (ok: bool)
    requires key == Key(holder.fields, name)
    modifies holder
    ensures MergeField(old(holder.fields), parent, gated, op, name, incoming) ==
            if ok then Ok(holder.fields) else Err(NotMutable)
    ensures ok ==> holder.fields == old(holder.fields)[key := Held(holder.fields, key)]
  {
    hide Key, Equal, Unique, Fresh;
    var sub := SubAttribute(parent, name);
    var before := Held(holder.fields, key);
    var v := ShapedOf(sub, encode, incoming);
    if op == Add && sub.multi && before.List? {
      var left := FreshOf(sub, encode, before.elements, ListOf(v));
      v := List(left);
    }
    var final := Appended(before, v, op);
    ok := Writable(sub, before, final) && (gated ==> Equal(sub, before, final));
    if ok {
      holder.fields := holder.fields[key := final];
    }
  }

  // Writes every member of the incoming object in turn; the index of the keys stays exact while keys are added.
  method MergeInto(holder: Holder, parent: Attribute, op: Op, values: Object, order: seq<string>, encode: Encoder)
    returns (ok: bool)
    modifies holder
    ensures var was := old(holder.fields);
            var merged := MergeWalk(was, parent, Gated(Some(parent), was), op, values, order);
            if ok then merged == Ok(holder.fields) else merged.Err?
  {
    hide Key, MergeField, Gated;
    var gated := Gated(Some(parent), holder.fields);
    var keys := new Keys(holder);
    var rest := order;
    while rest != []
      invariant keys.holder == holder && fresh(keys) && keys.Exact()
      invariant MergeWalk(holder.fields, parent, gated, op, values, rest) ==
                MergeWalk(old(holder.fields), parent, gated, op, values, order)
      decreases |rest|
    {
      var name := rest[0];
      rest := rest[1..];
      if name in values {
        var key := keys.Resolve(name);
        ghost var before := holder.fields;
        ok := Field(holder, key, name, values[name], parent, gated, op, encode);
        if !ok {
          return;
        }
        keys.AddKey(key, before);
        IndexOfKeys(keys.folded, before[key := Null], holder.fields);
      }
    }
    ok := true;
  }
}
