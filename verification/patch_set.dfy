// The hashed set of a multi-valued attribute's elements: by identity when the attribute has sub-attributes,
// else in buckets by value.
module PatchSet {
  import opened Wrappers
  import opened PatchObject
  import opened PatchValue
  import opened PatchHeap

  ghost function IdOf(a: Attribute, v: Json): Option<seq<Canonical>> {
    if v.Obj? then Identity(a, v.fields) else None
  }

  // The element each identity stands for: the first one that has it. The values are those the items hold.
  ghost function Objects(a: Attribute, values: seq<Json>, items: seq<Item>): map<seq<Canonical>, Element>
    requires |values| == |items|
    decreases |items|
  {
    if items == [] then map[]
    else
      var n := |items| - 1;
      var objects := Objects(a, values[..n], items[..n]);
      var id := IdOf(a, values[n]);
      if id.Some? && items[n].Ref? && id.value !in objects then objects[id.value := items[n].element] else objects
  }

  function BucketAt(buckets: map<string, seq<Item>>, key: string): seq<Item> {
    if key in buckets then buckets[key] else []
  }

  ghost function Buckets(a: Attribute, encode: Encoder, values: seq<Json>, items: seq<Item>): map<string, seq<Item>>
    requires |values| == |items|
    decreases |items|
  {
    if items == [] then map[]
    else
      var n := |items| - 1;
      var buckets := Buckets(a, encode, values[..n], items[..n]);
      var key := ValueKey(a, encode, values[n]);
      buckets[key := BucketAt(buckets, key) + [items[n]]]
  }

  // ---- What the maps say ----

  lemma {:induction false} ObjectsFind(a: Attribute, values: seq<Json>, items: seq<Item>, id: seq<Canonical>)
    requires |values| == |items| && forall i :: 0 <= i < |items| && values[i].Obj? ==> items[i].Ref?
    ensures id in Objects(a, values, items) <==> exists i :: 0 <= i < |items| && IdOf(a, values[i]) == Some(id)
    ensures id in Objects(a, values, items) ==>
              exists i :: 0 <= i < |items| && IdOf(a, values[i]) == Some(id) &&
                  items[i] == Ref(Objects(a, values, items)[id])
                          && forall j :: 0 <= j < i ==> IdOf(a, values[j]) != Some(id)
    decreases |items|
  {
    hide Identity;
    if items != [] {
      var n := |items| - 1;
      var part, given := items[..n], values[..n];
      ObjectsFind(a, given, part, id);
      assert forall j :: 0 <= j < n ==> items[j] == part[j] && values[j] == given[j];
      if id in Objects(a, given, part) {
        var i :| 0 <= i < |part| && IdOf(a, given[i]) == Some(id) && part[i] == Ref(Objects(a, given, part)[id])
                 && forall j :: 0 <= j < i ==> IdOf(a, given[j]) != Some(id);
        assert IdOf(a, values[i]) == Some(id) && items[i] == part[i];
      }
    }
  }

  lemma {:induction false} BucketsHold(a: Attribute, encode: Encoder, values: seq<Json>, items: seq<Item>, key: string,
                                       item: Item)
    requires |values| == |items|
    ensures item in BucketAt(Buckets(a, encode, values, items), key) <==>
              exists i :: 0 <= i < |items| && items[i] == item && ValueKey(a, encode, values[i]) == key
    decreases |items|
  {
    hide ValueKey;
    if items != [] {
      var n := |items| - 1;
      BucketsHold(a, encode, values[..n], items[..n], key, item);
      var part := Buckets(a, encode, values[..n], items[..n]);
      assert forall i :: 0 <= i < n ==> items[..n][i] == items[i] && values[..n][i] == values[i];
      if ValueKey(a, encode, values[n]) == key {
        assert BucketAt(Buckets(a, encode, values, items), key) == BucketAt(part, key) + [items[n]];
      } else {
        assert BucketAt(Buckets(a, encode, values, items), key) == BucketAt(part, key);
      }
    }
  }

  // One more element at the end.
  lemma OneMore(a: Attribute, encode: Encoder, values: seq<Json>, items: seq<Item>, v: Json, item: Item)
    requires |values| == |items|
    ensures var objects, id := Objects(a, values, items), IdOf(a, v);
            Objects(a, values + [v], items + [item]) ==
            if id.Some? && item.Ref? && id.value !in objects then objects[id.value := item.element] else objects
    ensures var buckets, key := Buckets(a, encode, values, items), ValueKey(a, encode, v);
            Buckets(a, encode, values + [v], items + [item]) == buckets[key := BucketAt(buckets, key) + [item]]
  {
    hide Identity, ValueKey;
    assert (values + [v])[..|values|] == values && (items + [item])[..|items|] == items;
  }

  ghost function FoundIn(objects: map<seq<Canonical>, Element>, a: Attribute, want: Object): Option<Element> {
    var id := Identity(a, want);
    if id.Some? && id.value in objects then Some(objects[id.value]) else None
  }

  // Looking up an identity finds what a scan would.
  lemma FoundIsContained(a: Attribute, items: seq<Item>, values: seq<Json>, want: Json)
    requires KeyedByIdentity(a)
    requires |values| == |items| && forall i :: 0 <= i < |items| && values[i].Obj? ==> items[i].Ref?
    ensures FoundIn(Objects(a, values, items), a, AsObject(want)).Some? <==> Contains(a, values, want)
    ensures Contains(a, values, want) ==>
              items[FirstSame(a, values, want)] == Ref(FoundIn(Objects(a, values, items), a, AsObject(want)).value)
  {
    hide Identity;
    var id := Identity(a, AsObject(want));
    assert forall v: Json :: SameElement(a, v, want) <==> id.Some? && IdOf(a, v) == id;
    if id.Some? {
      ObjectsFind(a, values, items, id.value);
    }
  }

  // Values that are equal share a bucket.
  lemma BucketIsEnough(a: Attribute, encode: Encoder, items: seq<Item>, want: Json)
    requires !KeyedByIdentity(a)
    ensures var bucket := BucketAt(Buckets(a, encode, View(items), items), ValueKey(a, encode, want));
            Contains(a, View(items), want) <==> exists j :: 0 <= j < |bucket| && Equal(a, ValueOf(bucket[j]), want)
  {
    hide Equal;
    var key := ValueKey(a, encode, want);
    var bucket := BucketAt(Buckets(a, encode, View(items), items), key);
    if Contains(a, View(items), want) {
      var i :| 0 <= i < |items| && SameElement(a, View(items)[i], want);
      EqualSharesKey(a, encode, ValueOf(items[i]), want);
      BucketsHold(a, encode, View(items), items, key, items[i]);
    }
    if j :| 0 <= j < |bucket| && Equal(a, ValueOf(bucket[j]), want) {
      BucketsHold(a, encode, View(items), items, key, bucket[j]);
      var i :| 0 <= i < |items| && items[i] == bucket[j];
      assert SameElement(a, View(items)[i], want);
    }
  }

  // ---- The set ----

  // The maps of a set built from these elements, holding these values.
  ghost predicate IsSetOf(a: Attribute, encode: Encoder, objects: map<seq<Canonical>, Element>,
                          buckets: map<string, seq<Item>>,
                          items: seq<Item>, values: seq<Json>)
    requires |values| == |items|
  {
    if KeyedByIdentity(a) then objects == Objects(a, values, items) && buckets == map[]
    else objects == map[] && buckets == Buckets(a, encode, values, items)
  }

  class ValueSet {
    const attribute: Attribute
    const encode: Encoder
    var objects: map<seq<Canonical>, Element>
    var buckets: map<string, seq<Item>>

    // The set is what building it from these elements yields, as they are now.
    ghost predicate Holds(items: seq<Item>)
      reads this, Refs(items)
    {
      IsSetOf(attribute, encode, objects, buckets, items, View(items))
    }

    constructor (attribute: Attribute, encode: Encoder)
      ensures this.attribute == attribute && this.encode == encode && Holds([])
    {
      this.attribute := attribute;
      this.encode := encode;
      objects := map[];
      buckets := map[];
    }

    method AddOne(item: Item, ghost held: seq<Item>)
      requires Holds(held) && Proper([item])
      modifies this
      ensures Holds(held + [item])
    {
      hide Identity, Objects, Buckets;
      ghost var all := held + [item];
      ViewConcat(held, [item]);
      assert View([item]) == [ValueOf(item)];
      OneMore(attribute, encode, View(held), held, ValueOf(item), item);
      if KeyedByIdentity(attribute) {
        if item.Ref? {
          AddObject(item.element);
        }
      } else {
        var key := ValueKey(attribute, encode, ValueOf(item));
        buckets := buckets[key := BucketAt(buckets, key) + [item]];
      }
    }

    method AddObject(element: Element)
      modifies this`objects
      ensures var id := Identity(attribute, element.fields);
              objects == if id.Some? && id.value !in old(objects) then old(objects)[id.value := element]
                  else old(objects)
    {
      var id := IdentityOf(attribute, element.fields);
      if id.Some? && id.value !in objects {
        objects := objects[id.value := element];
      }
    }

    method Add(items: seq<Item>, ghost held: seq<Item>)
      requires Holds(held) && Proper(items)
      modifies this
      ensures Holds(held + items)
    {
      hide IsSetOf;
      assert held + items[..0] == held;
      for i := 0 to |items|
        invariant Holds(held + items[..i])
      {
        AddOne(items[i], held + items[..i]);
        assert held + items[..i] + [items[i]] == held + items[..i + 1];
      }
      assert items[..|items|] == items;
    }

    method Find(want: Object) returns (found: Option<Element>)
      ensures found == FoundIn(objects, attribute, want)
    {
      var id := IdentityOf(attribute, want);
      found := if id.Some? && id.value in objects then Some(objects[id.value]) else None;
    }

    method Has(want: Json, ghost held: seq<Item>) returns (b: bool)
      requires Proper(held) && Holds(held)
      ensures b == Contains(attribute, View(held), want) && Holds(held)
    {
      hide Contains, Objects, Buckets, Equal, Identity, ValueKey;
      if KeyedByIdentity(attribute) {
        ghost var values := View(held);
        assert objects == Objects(attribute, values, held);
        var found := Find(AsObject(want));
        b := found.Some?;
        assert values == View(held);
        FoundIsContained(attribute, held, values, want);
      } else {
        var bucket := BucketAt(buckets, ValueKey(attribute, encode, want));
        ghost var values := View(held);
        b := AnyEqual(bucket, want);
        assert values == View(held);
        BucketIsEnough(attribute, encode, held, want);
        assert bucket == BucketAt(Buckets(attribute, encode, View(held), held), ValueKey(attribute, encode, want));
      }
    }

    method AnyEqual(bucket: seq<Item>, want: Json) returns (b: bool)
      ensures b <==> exists j :: 0 <= j < |bucket| && Equal(attribute, ValueOf(bucket[j]), want)
    {
      hide Equal;
      b := false;
      for i := 0 to |bucket|
        invariant !b && forall j :: 0 <= j < i ==> !Equal(attribute, ValueOf(bucket[j]), want)
      {
        if Equal(attribute, ValueOf(bucket[i]), want) {
          return true;
        }
      }
    }

    // A repeat is not added; the element it repeats takes over its primary flag.
    method Admit(item: Item, ghost kept: seq<Item>) returns (added: bool)
      requires Holds(kept) && Distinct(kept + [item])
      modifies this, Refs(kept)
      ensures added == !Contains(attribute, old(View(kept)), old(ValueOf(item)))
      ensures Holds(if added then kept + [item] else kept)
      ensures View(if added then kept + [item] else kept) ==
              PatchValue.Admit(attribute, old(View(kept)), old(ValueOf(item)))
    {
      hide Contains, IsSetOf, SameElement;
      DistinctParts(kept, [item]);
      var value := ValueOf(item);
      var present := Has(value, kept);
      added := !present;
      if added {
        AddOne(item, kept);
        ViewConcat(kept, [item]);
      } else if KeyedByIdentity(attribute) {
        PromoteFirst(value, kept);
      }
    }

    method PromoteFirst(value: Json, ghost kept: seq<Item>)
      requires KeyedByIdentity(attribute) && Holds(kept) && Distinct(kept) && Contains(attribute, View(kept), value)
      modifies Refs(kept)
      ensures Holds(kept)
      ensures View(kept) == PatchValue.Admit(attribute, old(View(kept)), value)
    {
      hide Contains, Identity, SameElement, Objects;
      var found := Find(AsObject(value));
      var primary := PrimaryOf(value);
      FoundIsContained(attribute, kept, View(kept), value);
      ghost var i := FirstSame(attribute, View(kept), value);
      if primary {
        SetPrimary(kept, found.value, i);
      }
      assert View(kept) == old(View(kept))[i := Promote(old(View(kept))[i], value)];
    }

    method SetPrimary(ghost kept: seq<Item>, element: Element, ghost i: nat)
      requires KeyedByIdentity(attribute) && Holds(kept) && Distinct(kept) && i < |kept| && kept[i] == Ref(element)
      modifies element
      ensures Holds(kept)
      ensures View(kept) == old(View(kept))[i := Obj(old(element.fields)["primary" := Bool(true)])]
    {
      hide Identity, Objects;
      PrimaryKeepsIdentity(attribute, element.fields, "primary", Bool(true));
      element.fields := element.fields["primary" := Bool(true)];
      assert View(kept) == old(View(kept))[i := Obj(element.fields)];
      ObjectsSame(attribute, old(View(kept)), View(kept), kept);
    }
  }

  // As long as every element keeps its identity, the objects found under them are the same.
  lemma {:induction false} ObjectsSame(a: Attribute, before: seq<Json>, after: seq<Json>, items: seq<Item>)
    requires |before| == |after| == |items|
    requires forall i :: 0 <= i < |items| ==> IdOf(a, before[i]) == IdOf(a, after[i])
    ensures Objects(a, before, items) == Objects(a, after, items)
    decreases |items|
  {
    hide Identity;
    if items != [] {
      var n := |items| - 1;
      ObjectsSame(a, before[..n], after[..n], items[..n]);
    }
  }

  method SetOf(a: Attribute, encode: Encoder, items: seq<Item>) returns (built: ValueSet)
    requires Proper(items)
    ensures fresh(built) && built.attribute == a && built.encode == encode && built.Holds(items)
  {
    hide IsSetOf;
    built := new ValueSet(a, encode);
    built.Add(items, []);
    assert [] + items == items;
  }

  // ---- Lists without repeats ----

  method UniqueItems(a: Attribute, encode: Encoder, list: seq<Item>) returns (kept: seq<Item>)
    requires Distinct(list)
    modifies Refs(list)
    ensures View(kept) == Unique(a, old(View(list)))
    ensures Distinct(kept) && Refs(kept) <= Refs(list)
  {
    hide PatchValue.Admit, Contains, Identity, IsSetOf;
    if |list| < 2 {
      return list;
    }
    var seen := new ValueSet(a, encode);
    kept := [];
    var rest := list;
    assert kept + rest == list;
    while rest != []
      invariant seen.attribute == a && fresh(seen) && seen.Holds(kept)
      invariant Distinct(kept + rest) && Refs(kept) <= Refs(list) && Refs(rest) <= Refs(list)
      invariant AdmitAll(a, View(kept), View(rest)) == AdmitAll(a, [], old(View(list)))
      decreases |rest|
    {
      var item, later := rest[0], rest[1..];
      assert rest == [item] + later && kept + rest == kept + [item] + later;
      ViewConcat([item], later);
      assert View([item]) == [ValueOf(item)];
      AdmitStep(a, View(kept), ValueOf(item), View(later));
      kept := AdmitNext(seen, kept, item, later);
      rest := later;
    }
    assert kept + rest == kept;
  }

  lemma AdmitStep(a: Attribute, kept: seq<Json>, v: Json, rest: seq<Json>)
    ensures AdmitAll(a, kept, [v] + rest) == AdmitAll(a, PatchValue.Admit(a, kept, v), rest)
  {
    assert ([v] + rest)[1..] == rest;
  }

  method AdmitNext(seen: ValueSet, kept: seq<Item>, item: Item, ghost rest: seq<Item>) returns (after: seq<Item>)
    requires seen.Holds(kept) && Distinct(kept + [item] + rest)
    modifies seen, Refs(kept)
    ensures seen.Holds(after) && Distinct(after + rest) && Refs(after) <= Refs(kept) + Refs([item])
    ensures View(rest) == old(View(rest))
    ensures View(after) == PatchValue.Admit(seen.attribute, old(View(kept)), old(ValueOf(item)))
  {
    hide PatchValue.Admit, Contains, Identity, IsSetOf;
    DistinctParts(kept + [item], rest);
    DistinctWithout(kept, item, rest);
    ViewConcat(kept, [item]);
    var added := seen.Admit(item, kept);
    after := if added then kept + [item] else kept;
  }

  lemma DistinctWithout(kept: seq<Item>, item: Item, rest: seq<Item>)
    requires Distinct(kept + [item] + rest)
    ensures Distinct(kept + rest)
  {
    var all, shorter := kept + [item] + rest, kept + rest;
    assert forall k :: 0 <= k < |kept| ==> shorter[k] == all[k];
    assert forall k :: |kept| <= k < |shorter| ==> shorter[k] == all[k + 1];
  }

  method UniqueOf(a: Attribute, encode: Encoder, list: seq<Json>) returns (kept: seq<Json>)
    ensures kept == Unique(a, list)
  {
    var items := Store(list);
    var left := UniqueItems(a, encode, items);
    kept := Load(left);
  }

  // The candidates that a list does not hold.
  method FreshOf(a: Attribute, encode: Encoder, elements: seq<Json>, candidates: seq<Json>) returns (left: seq<Json>)
    ensures left == Fresh(a, elements, candidates)
  {
    hide Contains, Fresh, IsSetOf, ValueSet.Holds;
    var items := Store(elements);
    var stored := SetOf(a, encode, items);
    left := FreshIn(stored, items, candidates);
  }

  method FreshIn(stored: ValueSet, ghost items: seq<Item>, candidates: seq<Json>) returns (left: seq<Json>)
    requires Proper(items) && stored.Holds(items)
    ensures left == Fresh(stored.attribute, View(items), candidates)
  {
    hide Contains, Fresh, IsSetOf;
    left := [];
    ghost var elements, a := View(items), stored.attribute;
    var rest := candidates;
    while rest != []
      invariant stored.Holds(items) && View(items) == elements
      invariant Fresh(a, elements, candidates) == left + Fresh(a, elements, rest)
      decreases |rest|
    {
      var present := stored.Has(rest[0], items);
      FreshStep(a, elements, left, rest);
      if !present {
        left := left + [rest[0]];
      }
      rest := rest[1..];
    }
    assert Fresh(a, elements, []) == [] by { NothingFresh(a, elements); }
    assert left + [] == left;
  }

  lemma NothingFresh(a: Attribute, elements: seq<Json>)
    ensures Fresh(a, elements, []) == []
  {
  }

  lemma FreshStep(a: Attribute, elements: seq<Json>, left: seq<Json>, rest: seq<Json>)
    requires rest != []
    ensures left + Fresh(a, elements, rest) ==
            (if Contains(a, elements, rest[0]) then left else left + [rest[0]]) + Fresh(a, elements, rest[1..])
  {
    hide Contains;
    var later := Fresh(a, elements, rest[1..]);
    Grouped(left, [rest[0]], later);
    Grouped(left, [], later);
    assert left + [] == left;
  }

  lemma Grouped<T>(a: seq<T>, b: seq<T>, c: seq<T>)
    ensures a + (b + c) == a + b + c
  {
  }
}
