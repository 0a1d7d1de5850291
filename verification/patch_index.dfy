// Adding values to lists through indexes that are kept from one operation to the next (section 3.5.2.1 of RFC 7644).
module PatchIndex {
  import opened Wrappers
  import opened Text
  import opened PatchObject
  import opened PatchValue
  import opened PatchHeap
  import opened PatchSet
  import opened PatchUnique
  import opened PatchEngine

  // ---- What adding to a list yields, from the list alone ----

  ghost function Added(a: Attribute, elements: seq<Json>, incoming: Json): seq<Json> {
    elements + Unique(a, Fresh(a, elements, ListOf(incoming)))
  }

  ghost function DemoteFirst(list: seq<Json>, n: nat): seq<Json> {
    seq(|list|, i requires 0 <= i < |list| => if i < n then Demoted(list[i]) else list[i])
  }

  ghost function AddedTo(a: Attribute, name: string, elements: seq<Json>, incoming: Json): seq<Json> {
    if Promotes(name, List(Fresh(a, elements, ListOf(incoming))))
    then DemoteFirst(Added(a, elements, incoming), |elements|)
    else Added(a, elements, incoming)
  }

  // ---- The elements that are primary ----

  ghost function PrimariesOf(values: seq<Json>, items: seq<Item>): seq<Element>
    requires |values| == |items|
    decreases |items|
  {
    if items == [] then []
    else
      var n := |items| - 1;
      PrimariesOf(values[..n], items[..n]) + if items[n].Ref? && Primary(values[n]) then [items[n].element] else []
  }

  lemma PrimariesMore(values: seq<Json>, items: seq<Item>, v: Json, item: Item)
    requires |values| == |items|
    ensures PrimariesOf(values + [v], items + [item]) ==
            PrimariesOf(values, items) + if item.Ref? && Primary(v) then [item.element] else []
  {
    assert (values + [v])[..|values|] == values && (items + [item])[..|items|] == items;
  }

  lemma {:induction false} PrimariesJoined(values: seq<Json>, items: seq<Item>, more: seq<Json>, added: seq<Item>)
    requires |values| == |items| && |more| == |added|
    ensures PrimariesOf(values + more, items + added) == PrimariesOf(values, items) + PrimariesOf(more, added)
    decreases |added|
  {
    if added == [] {
      assert values + more == values && items + added == items;
    } else {
      var n := |added| - 1;
      PrimariesJoined(values, items, more[..n], added[..n]);
      assert more == more[..n] + [more[n]] && added == added[..n] + [added[n]];
      PrimariesOneMore(values, items, more[..n], added[..n], more[n], added[n]);
    }
  }

  lemma PrimariesOneMore(values: seq<Json>, items: seq<Item>, more: seq<Json>, added: seq<Item>, v: Json, item: Item)
    requires |values| == |items| && |more| == |added|
    requires PrimariesOf(values + more, items + added) == PrimariesOf(values, items) + PrimariesOf(more, added)
    ensures PrimariesOf(values + (more + [v]), items + (added + [item])) ==
            PrimariesOf(values, items) + PrimariesOf(more + [v], added + [item])
  {
    hide PrimariesOf, Primary;
    PrimariesMore(values + more, items + added, v, item);
    PrimariesMore(more, added, v, item);
    Grouped(values, more, [v]);
    Grouped(items, added, [item]);
    Grouped(PrimariesOf(values, items), PrimariesOf(more, added),
            if item.Ref? && Primary(v) then [item.element] else []);
  }

  lemma {:induction false} NoPrimaries(values: seq<Json>, items: seq<Item>)
    requires |values| == |items| && forall i :: 0 <= i < |values| ==> !Primary(values[i])
    ensures PrimariesOf(values, items) == []
    decreases |items|
  {
    if items != [] {
      NoPrimaries(values[..|items| - 1], items[..|items| - 1]);
    }
  }

  lemma {:induction false} PrimariesHold(values: seq<Json>, items: seq<Item>, e: Element)
    requires |values| == |items|
    ensures e in PrimariesOf(values, items) <==>
            exists i :: 0 <= i < |items| && items[i] == Ref(e) && Primary(values[i])
    decreases |items|
  {
    hide Primary;
    if items != [] {
      var n := |items| - 1;
      PrimariesHold(values[..n], items[..n], e);
      assert forall i :: 0 <= i < n ==> items[..n][i] == items[i] && values[..n][i] == values[i];
    }
  }

  // ---- One index ----

  class Index {
    const members: ValueSet
    var size: nat
    var primaries: seq<Element>

    constructor (attribute: Attribute, encode: Encoder, elements: seq<Item>)
      requires Proper(elements)
      ensures fresh(members) && members.attribute == attribute && members.encode == encode && members.Holds(elements)
      ensures size == |elements| && primaries == PrimariesOf(View(elements), elements)
    {
      hide IsSetOf, Primary;
      var built := SetOf(attribute, encode, elements);
      members := built;
      size := |elements|;
      var found := PrimariesIn(elements);
      primaries := found;
      new;
      assert forall e <- Refs(elements) :: (e as object) != this;
    }

    method Extend(stored: seq<Item>, ghost elements: seq<Item>)
      requires members.Holds(elements) && size == |elements| && Proper(stored)
      modifies this`size, members
      ensures members.Holds(elements + stored) && size == |elements + stored|
    {
      hide IsSetOf;
      members.Add(stored, elements);
      size := size + |stored|;
      assert forall e <- Refs(elements + stored) :: (e as object) != this;
    }
  }

  method PrimariesIn(items: seq<Item>) returns (primaries: seq<Element>)
    requires Proper(items)
    ensures primaries == PrimariesOf(View(items), items)
  {
    hide Primary, PrimariesOf;
    primaries := [];
    ghost var values := View(items);
    assert PrimariesOf(values[..0], items[..0]) == [] by { NoPrimaries([], []); }
    for i := 0 to |items|
      invariant View(items) == values && primaries == PrimariesOf(values[..i], items[..i])
    {
      var primary := PrimaryOf(ValueOf(items[i]));
      PrimariesMore(values[..i], items[..i], values[i], items[i]);
      assert values[..i + 1] == values[..i] + [values[i]] && items[..i + 1] == items[..i] + [items[i]];
      if primary && items[i].Ref? {
        primaries := primaries + [items[i].element];
      }
    }
    assert values[..|items|] == values && items[..|items|] == items;
  }

  // ---- Demotion in place ----

  method Unset(element: Element)
    modifies element
    ensures element.fields == Set(old(element.fields), "primary", Bool(false))
  {
    var key := KeyOf(element.fields, "primary");
    element.fields := element.fields[key := Bool(false)];
  }

  lemma DemotedIsNot(v: Json)
    ensures !Primary(Demoted(v))
  {
    if Primary(v) {
      GetSetSame(v.fields, "primary", Bool(false));
    }
  }

  lemma DemotedKeepsId(a: Attribute, v: Json)
    ensures IdOf(a, Demoted(v)) == IdOf(a, v)
  {
    hide Identity;
    if Primary(v) {
      PrimaryKeepsIdentity(a, v.fields, Key(v.fields, "primary"), Bool(false));
    }
  }

  lemma {:induction false} PrimariesDistinct(values: seq<Json>, items: seq<Item>)
    requires |values| == |items| && Distinct(items)
    ensures forall i, j :: 0 <= i < j < |PrimariesOf(values, items)| ==>
            PrimariesOf(values, items)[i] != PrimariesOf(values, items)[j]
    decreases |items|
  {
    hide Primary;
    if items != [] {
      var n := |items| - 1;
      assert items[..n] + [items[n]] == items;
      DistinctParts(items[..n], [items[n]]);
      PrimariesDistinct(values[..n], items[..n]);
      if items[n].Ref? {
        PrimariesHold(values[..n], items[..n], items[n].element);
      }
    }
  }

  // What a list holds while the elements of a set lose their flag.
  ghost function DemoteSome(values: seq<Json>, items: seq<Item>, done: seq<Element>): seq<Json>
    requires |values| == |items|
  {
    seq(|items|, i requires 0 <= i < |items| =>
      if items[i].Ref? && items[i].element in done then Demoted(values[i]) else values[i])
  }

  method DemoteAll(primaries: seq<Element>, ghost items: seq<Item>)
    requires Distinct(items) && primaries == PrimariesOf(View(items), items)
    modifies Refs(items)
    ensures View(items) == DemoteFirst(old(View(items)), |items|)
  {
    hide Primary, Demoted, PrimariesOf, View, Distinct;
    ghost var was := View(items);
    assert forall i :: 0 <= i < |items| && was[i].Obj? ==> items[i].Ref? by { DistinctProper(items); }
    PrimariesDistinct(was, items);
    assert View(items) == DemoteSome(was, items, primaries[..0]);
    for k := 0 to |primaries|
      invariant View(items) == DemoteSome(was, items, primaries[..k])
    {
      PrimariesHold(was, items, primaries[k]);
      assert primaries[..k + 1] == primaries[..k] + [primaries[k]];
      DemoteOne(primaries[k], items, was, primaries[..k]);
    }
    assert primaries[..|primaries|] == primaries;
    AllDemoted(was, items);
  }

  method DemoteOne(held: Element, ghost items: seq<Item>, ghost was: seq<Json>, ghost done: seq<Element>)
    requires Distinct(items) && |was| == |items| && View(items) == DemoteSome(was, items, done) && held !in done
    requires exists i :: 0 <= i < |items| && items[i] == Ref(held) && Primary(was[i])
    modifies held
    ensures View(items) == DemoteSome(was, items, done + [held])
  {
    hide Primary, Demoted;
    ghost var i :| 0 <= i < |items| && items[i] == Ref(held) && Primary(was[i]);
    assert View(items)[i] == was[i];
    Unset(held);
    DemotedIs(was[i]);
    forall j | 0 <= j < |items| ensures View(items)[j] == DemoteSome(was, items, done + [held])[j] {
    }
  }

  lemma DemotedIs(v: Json)
    requires Primary(v)
    ensures v.Obj? && Demoted(v) == Obj(Set(v.fields, "primary", Bool(false)))
  {
  }

  lemma AllDemoted(was: seq<Json>, items: seq<Item>)
    requires |was| == |items| && Distinct(items)
    requires forall i :: 0 <= i < |items| && was[i].Obj? ==> items[i].Ref?
    ensures DemoteSome(was, items, PrimariesOf(was, items)) == DemoteFirst(was, |items|)
  {
    hide PrimariesOf, Get;
    forall i | 0 <= i < |items|
      ensures DemoteSome(was, items, PrimariesOf(was, items))[i] == DemoteFirst(was, |items|)[i]
    {
      if items[i].Ref? {
        PrimariesHold(was, items, items[i].element);
      }
    }
  }

  method DemoteHead(before: seq<Item>, ghost stored: seq<Item>, primaries: seq<Element>)
    requires Distinct(before + stored) && primaries == PrimariesOf(View(before), before)
    modifies Refs(before)
    ensures View(before + stored) == DemoteFirst(old(View(before + stored)), |before|)
  {
    hide PrimariesOf, Demoted, Distinct;
    DistinctParts(before, stored);
    ViewConcat(before, stored);
    DemoteAll(primaries, before);
    ViewConcat(before, stored);
  }

  // ---- The lists of a resource, and their indexes ----

  // The extension that holds a list, or nothing, and its folded name.
  datatype Slot = Slot(extension: string, folded: string)

  function SlotOf(extension: string, name: string): Slot {
    Slot(extension, Fold(name))
  }

  // The key under which an index is kept: the name as it is spelled.
  function CacheKey(extension: string, name: string): string {
    extension + ":" + name
  }

  // Names have no colon, so a key tells the extension from the name.
  lemma CacheKeyInjective(e: string, n: string, f: string, m: string)
    requires ':' !in n && ':' !in m && CacheKey(e, n) == CacheKey(f, m)
    ensures e == f && n == m
  {
    var k := CacheKey(e, n);
    assert k[|e|] == ':' && k[|f|] == ':';
    assert |e| == |f|;
    assert k[..|e|] == e && k[..|f|] == f && k[|e| + 1..] == n && k[|f| + 1..] == m;
  }

  // ---- What a cache of indexes must say, on values ----

  // What an index says.
  datatype Snapshot = Snapshot(
    attribute: Attribute, size: nat, objects: map<seq<Canonical>, Element>, buckets: map<string, seq<Item>>,
    primaries: seq<Element>)

  function ItemsAt(lists: map<Slot, seq<Item>>, slot: Slot): seq<Item> {
    if slot in lists then lists[slot] else []
  }

  function ValuesAt(doc: map<Slot, seq<Json>>, slot: Slot): seq<Json> {
    if slot in doc then doc[slot] else []
  }

  // An index is what building it from the first elements of the list would yield. When those are all of
  // them, the primary ones are known too; lists named "primary" have no need for that.
  ghost predicate IndexOk(encode: Encoder, ix: Snapshot, list: seq<Item>, values: seq<Json>, name: string) {
    && ix.size <= |list| == |values|
    && IsSetOf(ix.attribute, encode, ix.objects, ix.buckets, list[..ix.size], values[..ix.size])
    && (ix.size == |list| && !EqualFold(name, "primary") ==> ix.primaries == PrimariesOf(values, list))
  }

  ghost predicate EntryOk(s: Schemas, encode: Encoder, key: string, ix: Snapshot, spelling: (string, string),
                          lists: map<Slot, seq<Item>>, doc: map<Slot, seq<Json>>) {
    var (extension, name) := spelling;
    var slot := SlotOf(extension, name);
    && key == CacheKey(extension, name) && ':' !in name
    && Defines(s, extension, name, ix.attribute)
    && IndexOk(encode, ix, ItemsAt(lists, slot), ValuesAt(doc, slot), name)
  }

  ghost predicate CacheOk(s: Schemas, encode: Encoder, cache: map<string, Snapshot>,
                          spelled: map<string, (string, string)>,
                          lists: map<Slot, seq<Item>>, doc: map<Slot, seq<Json>>) {
    cache.Keys == spelled.Keys && forall k :: k in cache ==> EntryOk(s, encode, k, cache[k], spelled[k], lists, doc)
  }

  // A new index of the elements the list starts with.
  lemma CacheRebuilt(s: Schemas, encode: Encoder, cache: map<string, Snapshot>, spelled: map<string, (string, string)>,
                     lists: map<Slot, seq<Item>>, doc: map<Slot, seq<Json>>, extension: string, name: string,
                     ix: Snapshot)
    requires CacheOk(s, encode, cache, spelled, lists, doc)
    requires Defines(s, extension, name, ix.attribute) && ':' !in name
    requires IndexOk(encode, ix, ItemsAt(lists, SlotOf(extension, name)), ValuesAt(doc, SlotOf(extension, name)), name)
    ensures var key := CacheKey(extension, name);
            CacheOk(s, encode, cache[key := ix], spelled[key := (extension, name)], lists, doc)
  {
    hide IndexOk, Defines, CacheKey;
  }

  // A list that grows makes an index old, but not wrong.
  lemma CacheGrown(s: Schemas, encode: Encoder, cache: map<string, Snapshot>, spelled: map<string, (string, string)>,
                   lists: map<Slot, seq<Item>>, doc: map<Slot, seq<Json>>, slot: Slot, stored: seq<Item>,
                   more: seq<Json>)
    requires CacheOk(s, encode, cache, spelled, lists, doc) && |stored| == |more|
    ensures CacheOk(s, encode, cache, spelled, lists[slot := ItemsAt(lists, slot) + stored],
            doc[slot := ValuesAt(doc, slot) + more])
  {
    hide IndexOk, Defines, CacheKey;
    var lists', doc' := lists[slot := ItemsAt(lists, slot) + stored], doc[slot := ValuesAt(doc, slot) + more];
    forall k | k in cache ensures EntryOk(s, encode, k, cache[k], spelled[k], lists', doc') {
      assert EntryOk(s, encode, k, cache[k], spelled[k], lists, doc);
      if SlotOf(spelled[k].0, spelled[k].1) == slot {
        IndexGrown(encode, cache[k], ItemsAt(lists, slot), ValuesAt(doc, slot), stored, more, spelled[k].1);
      }
    }
  }

  lemma IndexGrown(encode: Encoder, ix: Snapshot, list: seq<Item>, values: seq<Json>, stored: seq<Item>,
                   more: seq<Json>, name: string)
    requires IndexOk(encode, ix, list, values, name) && |stored| == |more|
    ensures IndexOk(encode, ix, list + stored, values + more, name)
  {
    hide IsSetOf, PrimariesOf;
    assert (list + stored)[..ix.size] == list[..ix.size] && (values + more)[..ix.size] == values[..ix.size];
    if stored == [] {
      assert list + stored == list && values + more == values;
    }
  }

  // Demoting the elements from before in a list that has grown: every index of the list is old by then.
  lemma CacheDemoted(s: Schemas, encode: Encoder, cache: map<string, Snapshot>, spelled: map<string, (string, string)>,
                     lists: map<Slot, seq<Item>>, doc: map<Slot, seq<Json>>, slot: Slot, n: nat)
    requires CacheOk(s, encode, cache, spelled, lists, doc)
    requires n < |ValuesAt(doc, slot)|
    requires forall k :: k in cache && SlotOf(spelled[k].0, spelled[k].1) == slot ==>
             cache[k].size <= n && KeyedByIdentity(cache[k].attribute)
    ensures CacheOk(s, encode, cache, spelled, lists, doc[slot := DemoteFirst(ValuesAt(doc, slot), n)])
  {
    hide IndexOk, Defines, CacheKey, DemoteFirst, KeyedByIdentity;
    var doc' := doc[slot := DemoteFirst(ValuesAt(doc, slot), n)];
    forall k | k in cache ensures EntryOk(s, encode, k, cache[k], spelled[k], lists, doc') {
      assert EntryOk(s, encode, k, cache[k], spelled[k], lists, doc);
      if SlotOf(spelled[k].0, spelled[k].1) == slot {
        IndexDemoted(encode, cache[k], ItemsAt(lists, slot), ValuesAt(doc, slot), n, spelled[k].1);
      }
    }
  }

  lemma IndexDemoted(encode: Encoder, ix: Snapshot, list: seq<Item>, values: seq<Json>, n: nat, name: string)
    requires IndexOk(encode, ix, list, values, name) && ix.size <= n < |values| && KeyedByIdentity(ix.attribute)
    ensures IndexOk(encode, ix, list, DemoteFirst(values, n), name)
  {
    hide Demoted, Objects, Buckets, PrimariesOf, Identity;
    var after := DemoteFirst(values, n);
    forall i | 0 <= i < ix.size
      ensures IdOf(ix.attribute, values[..ix.size][i]) == IdOf(ix.attribute, after[..ix.size][i])
    {
      DemotedKeepsId(ix.attribute, values[i]);
    }
    ObjectsSame(ix.attribute, values[..ix.size], after[..ix.size], list[..ix.size]);
  }

  // ---- The lists of a resource and the indexes kept for them ----

  ghost function SnapshotOf(ix: Index): Snapshot
    reads ix, ix.members
  {
    Snapshot(ix.members.attribute, ix.size, ix.members.objects, ix.members.buckets, ix.primaries)
  }

  // No element lies in two places.
  ghost predicate AllApart(lists: map<Slot, seq<Item>>) {
    && (forall s :: s in lists ==> Distinct(lists[s]))
    && (forall s, t :: s in lists && t in lists && s != t ==> Refs(lists[s]) !! Refs(lists[t]))
  }

  lemma ApartMore(lists: map<Slot, seq<Item>>, slot: Slot, stored: seq<Item>)
    requires AllApart(lists) && Distinct(stored)
    requires forall s :: s in lists ==> Refs(stored) !! Refs(lists[s])
    ensures AllApart(lists[slot := ItemsAt(lists, slot) + stored])
  {
    hide Distinct;
    var list := ItemsAt(lists, slot);
    EmptyDistinct();
    DistinctJoined(list, stored);
    ViewConcat(list, stored);
  }

  lemma EmptyDistinct()
    ensures Distinct([])
  {
  }

  // No index is kept under two keys.
  ghost predicate Owned(indexes: map<string, Index>, encode: Encoder) {
    && (forall k :: k in indexes ==> indexes[k].members.encode == encode)
    && (forall j, k :: j in indexes && k in indexes && j != k ==>
          indexes[j] != indexes[k] && indexes[j].members != indexes[k].members)
  }

  lemma OwnedMore(indexes: map<string, Index>, encode: Encoder, key: string, ix: Index)
    requires Owned(indexes, encode) && ix.members.encode == encode
    requires forall k :: k in indexes ==> indexes[k] != ix && indexes[k].members != ix.members
    ensures Owned(indexes[key := ix], encode)
  {
  }

  class Lists {
    const schemas: Schemas
    const encode: Encoder
    var lists: map<Slot, seq<Item>>
    var indexes: map<string, Index>
    // The extension and the name behind each key.
    ghost var spelled: map<string, (string, string)>

    ghost function Elements(): set<Element>
      reads this`lists
    {
      AllRefs(lists)
    }

    ghost function Caches(): set<Index>
      reads this`indexes
    {
      set key | key in indexes :: indexes[key]
    }

    ghost function Sets(): set<ValueSet>
      reads this`indexes
    {
      set key | key in indexes :: indexes[key].members
    }

    // What the resource holds, as values.
    ghost function Doc(): map<Slot, seq<Json>>
      reads this`lists, Elements()
    {
      map slot | slot in lists ::
        (assert Refs(lists[slot]) <= Elements();
         View(lists[slot]))
    }

    ghost function Cache(): map<string, Snapshot>
      reads this`indexes, Caches(), Sets()
    {
      map key | key in indexes ::
        (assert indexes[key] in Caches() && indexes[key].members in Sets();
         SnapshotOf(indexes[key]))
    }

    ghost predicate Apart()
      reads this`lists
    {
      AllApart(lists)
    }

    ghost predicate Own()
      reads this`indexes
    {
      Owned(indexes, encode)
    }

    ghost predicate Valid()
      reads this, Caches(), Sets(), Elements()
    {
      Apart() && Own() && CacheOk(schemas, encode, Cache(), spelled, lists, Doc())
    }

    constructor (schemas: Schemas, encode: Encoder)
      ensures Valid() && this.schemas == schemas && this.encode == encode && lists == map[]
    {
      this.schemas := schemas;
      this.encode := encode;
      lists := map[];
      indexes := map[];
      spelled := map[];
    }

    // The values of one list.
    lemma DocAt(slot: Slot)
      ensures ValuesAt(Doc(), slot) == View(ItemsAt(lists, slot))
    {
    }

    lemma KeptHolds(extension: string, name: string, ix: Index, elements: seq<Item>)
      requires Own() && ix in Caches() && ix.size == |elements|
      requires elements <= ItemsAt(lists, SlotOf(extension, name))
      requires IndexOk(encode, SnapshotOf(ix), ItemsAt(lists, SlotOf(extension, name)),
               ValuesAt(Doc(), SlotOf(extension, name)), name)
      ensures ix.members.Holds(elements)
    {
      hide IsSetOf, PrimariesOf;
      var slot := SlotOf(extension, name);
      DocAt(slot);
      assert ItemsAt(lists, slot)[..ix.size] == elements;
      assert View(ItemsAt(lists, slot))[..ix.size] == View(elements);
    }

    method Rebuild(extension: string, name: string, attr: Attribute, elements: seq<Item>) returns (ix: Index)
      requires Valid() && Defines(schemas, extension, name, attr) && ':' !in name
      requires elements <= ItemsAt(lists, SlotOf(extension, name))
      modifies this`indexes, this`spelled
      ensures Valid() && Doc() == old(Doc()) && fresh(ix) && fresh(ix.members)
      ensures Caches() <= old(Caches()) + {ix} && Sets() <= old(Sets()) + {ix.members}
      ensures indexes == old(indexes)[CacheKey(extension, name) := ix] &&
              spelled == old(spelled)[CacheKey(extension, name) := (extension, name)]
      ensures ix.size == |elements| && ix.members.Holds(elements) && ix.members.attribute == attr
    {
      hide CacheOk, IndexOk, Defines, CacheKey, PrimariesOf, IsSetOf, SlotOf, Distinct, Owned, View;
      ghost var list := ItemsAt(lists, SlotOf(extension, name));
      ProperParts(list, elements);
      ghost var cache, doc := Cache(), Doc();
      assert forall e <- Elements() :: allocated(e);
      ix := new Index(attr, encode, elements);
      assert Doc() == doc;
      assert Cache() == cache;
      DocAt(SlotOf(extension, name));
      NewIsOk(ix, list, elements, name);
      assert forall e <- Refs(elements) :: (e as object) != this;
      Keep(extension, name, ix);
    }

    method Keep(extension: string, name: string, ix: Index)
      requires Valid() && Defines(schemas, extension, name, SnapshotOf(ix).attribute) && ':' !in name
      requires ix !in Caches() && ix.members !in Sets() && ix.members.encode == encode
      requires IndexOk(encode, SnapshotOf(ix), ItemsAt(lists, SlotOf(extension, name)),
               ValuesAt(Doc(), SlotOf(extension, name)), name)
      modifies this`indexes, this`spelled
      ensures Valid() && Doc() == old(Doc())
      ensures indexes == old(indexes)[CacheKey(extension, name) := ix] &&
              spelled == old(spelled)[CacheKey(extension, name) := (extension, name)]
    {
      hide CacheOk, IndexOk, Defines, CacheKey, SlotOf, Doc, Elements, Apart, Own, ItemsAt, ValuesAt, SnapshotOf, Cache;
      var key := CacheKey(extension, name);
      CacheRebuilt(schemas, encode, Cache(), spelled, lists, Doc(), extension, name, SnapshotOf(ix));
      PutIndex(key, ix, (extension, name));
    }

    method PutIndex(key: string, ix: Index, ghost spelling: (string, string))
      requires Own() && ix !in Caches() && ix.members !in Sets() && ix.members.encode == encode
      modifies this`indexes, this`spelled
      ensures Own() && indexes == old(indexes)[key := ix] && spelled == old(spelled)[key := spelling]
      ensures Doc() == old(Doc()) && Cache() == old(Cache())[key := old(SnapshotOf(ix))]
    {
      hide Doc, Elements, SnapshotOf, Owned;
      OwnedMore(indexes, encode, key, ix);
      ghost var cache, was, snapshot := Cache(), indexes, SnapshotOf(ix);
      assert forall e <- Elements() :: (e as object) != this;
      indexes := indexes[key := ix];
      spelled := spelled[key := spelling];
      forall k | k in indexes ensures SnapshotOf(indexes[k]) == if k == key then snapshot else cache[k] {
        assert k != key ==> was[k] == indexes[k];
      }
    }

    lemma NewIsOk(ix: Index, list: seq<Item>, elements: seq<Item>, name: string)
      requires elements <= list && ix.size == |elements| && ix.members.encode == encode && ix.members.Holds(elements)
      requires ix.primaries == PrimariesOf(View(elements), elements)
      ensures IndexOk(encode, SnapshotOf(ix), list, View(list), name)
    {
      hide IsSetOf, PrimariesOf;
      assert list[..ix.size] == elements && View(list)[..ix.size] == View(elements);
      if ix.size == |list| {
        assert list == elements;
      }
    }

    lemma FoundFor(extension: string, name: string, attr: Attribute, key: string)
      requires Valid() && Defines(schemas, extension, name, attr) && ':' !in name
      requires key == CacheKey(extension, name) && key in indexes
      ensures key in spelled && spelled[key] == (extension, name) && indexes[key].members.attribute == attr &&
              indexes[key] in Caches()
      ensures IndexOk(encode, SnapshotOf(indexes[key]), ItemsAt(lists, SlotOf(extension, name)),
              ValuesAt(Doc(), SlotOf(extension, name)), name)
    {
      hide CacheKey, IndexOk, Defines, SlotOf, Doc, AllApart, Owned;
      CacheAt(key);
      assert EntryOk(schemas, encode, key, Cache()[key], spelled[key], lists, Doc());
      CacheKeyInjective(extension, name, spelled[key].0, spelled[key].1);
      DefinedOnce(schemas, extension, name, attr, indexes[key].members.attribute);
    }

    // The kept index if it has the size of the list, else a new one, kept from now on. The list may have
    // grown since the operation started: these are its elements from before.
    method Lookup(extension: string, name: string, attr: Attribute, elements: seq<Item>) returns (ix: Index)
      requires Valid() && Defines(schemas, extension, name, attr) && ':' !in name
      requires elements <= ItemsAt(lists, SlotOf(extension, name))
      modifies this`indexes, this`spelled
      ensures Valid() && Doc() == old(Doc())
      ensures var key := CacheKey(extension, name);
              && key in indexes && ix == indexes[key] && key in spelled && spelled[key] == (extension, name)
              && (if key in old(indexes) && old(indexes[key].size) == |elements|
                  then indexes == old(indexes) && spelled == old(spelled)
                  else
                    && fresh(ix) && fresh(ix.members)
                    && indexes == old(indexes)[key := ix] && spelled == old(spelled)[key := (extension, name)])
      ensures ix.size == |elements| && ix.members.Holds(elements) && ix.members.attribute == attr
      ensures fresh(Caches() - old(Caches())) && fresh(Sets() - old(Sets()))
    {
      hide CacheKey, Caches, Sets, AllApart, Owned, Cache, Doc, CacheOk, ItemsAt, IndexOk, Defines, PrimariesOf,
           ValueSet.Holds, SlotOf;
      var key := CacheKey(extension, name);
      if key in indexes && indexes[key].size == |elements| {
        ix := indexes[key];
        FoundFor(extension, name, attr, key);
        KeptHolds(extension, name, ix, elements);
      } else {
        ix := Rebuild(extension, name, attr, elements);
      }
    }

    // ---- The steps of an add ----

    method Append(slot: Slot, stored: seq<Item>)
      requires Valid() && Distinct(stored) && Refs(stored) !! Elements()
      modifies this`lists
      ensures Valid() && lists == old(lists)[slot := ItemsAt(old(lists), slot) + stored]
      ensures Doc() == old(Doc())[slot := ValuesAt(old(Doc()), slot) + old(View(stored))]
      ensures Cache() == old(Cache())
    {
      hide CacheOk, Owned, Distinct, View, Doc, Cache, ItemsAt, ValuesAt, AllApart;
      ghost var list := ItemsAt(lists, slot);
      DocAt(slot);
      CacheGrown(schemas, encode, Cache(), spelled, lists, Doc(), slot, stored, View(stored));
      ApartMore(lists, slot, stored);
      ViewConcat(list, stored);
      PutList(slot, ItemsAt(lists, slot) + stored);
    }

    method PutList(slot: Slot, list: seq<Item>)
      modifies this`lists
      ensures lists == old(lists)[slot := list]
      ensures Doc() == old(Doc())[slot := old(View(list))] && Cache() == old(Cache())
    {
      hide View, Cache;
      ghost var doc, was, values := Doc(), lists, View(list);
      assert forall e <- Elements() + Refs(list) :: (e as object) != this;
      assert forall c <- Caches() :: (c as object) != this;
      assert forall m <- Sets() :: (m as object) != this;
      lists := lists[slot := list];
      forall s | s in lists ensures View(lists[s]) == if s == slot then values else doc[s] {
        assert s != slot ==> lists[s] == was[s];
      }
    }

    // Demotes the elements from before; nothing else changes.
    method DemoteBefore(slot: Slot, before: seq<Item>, ghost stored: seq<Item>, primaries: seq<Element>)
      requires Apart() && slot in lists && lists[slot] == before + stored
      requires primaries == PrimariesOf(View(before), before)
      modifies Refs(before)
      ensures Doc() == old(Doc())[slot := DemoteFirst(old(ValuesAt(Doc(), slot)), |before|)]
      ensures Cache() == old(Cache())
    {
      hide PrimariesOf, Cache, Demoted, Distinct, View, DemoteFirst, AllApart, Doc, Caches, Sets;
      ApartFrom(slot);
      DocAll();
      ghost var doc, was, cache := Doc(), lists, Cache();
      ViewConcat(before, stored);
      assert forall e <- Refs(before) :: (e as object) != this;
      CacheAll();
      DemoteHead(before, stored, primaries);
      assert lists == was;
      forall k | k in indexes ensures SnapshotOf(indexes[k]) == cache[k] {
        assert forall e <- Refs(before) :: (e as object) != indexes[k] && (e as object) != indexes[k].members;
      }
      CacheFrom(cache);
      DocFrom(doc[slot := DemoteFirst(doc[slot], |before|)]);
    }

    lemma ApartFrom(slot: Slot)
      requires Apart() && slot in lists
      ensures Distinct(lists[slot]) && forall s :: s in lists && s != slot ==> Refs(lists[s]) !! Refs(lists[slot])
    {
    }

    lemma DocAll()
      ensures Doc().Keys == lists.Keys && forall s :: s in lists ==> Doc()[s] == View(lists[s])
    {
    }

    lemma DocFrom(doc: map<Slot, seq<Json>>)
      requires doc.Keys == lists.Keys && forall s :: s in lists ==> View(lists[s]) == doc[s]
      ensures Doc() == doc
    {
    }

    method SetPrimaries(key: string, ix: Index, stored: seq<Item>)
      requires Own() && key in indexes && indexes[key] == ix && Proper(stored)
      modifies ix`primaries
      ensures ix.primaries == PrimariesOf(View(stored), stored) && View(stored) == old(View(stored))
      ensures Doc() == old(Doc()) && Cache() == old(Cache())[key := old(SnapshotOf(ix)).(primaries := ix.primaries)]
    {
      hide Doc, PrimariesOf, View, Cache, Caches, Sets, ValueSet.Holds, IsSetOf, Distinct, Primary, ValueOf;
      CacheAll();
      ghost var cache, snapshot := Cache(), SnapshotOf(ix);
      assert forall e <- Elements() + Refs(stored) :: allocated(e) && (e as object) != ix;
      var now := PrimariesIn(stored);
      ix.primaries := now;
      forall k | k in indexes && k != key ensures SnapshotOf(indexes[k]) == cache[k] {
        assert indexes[k] != ix;
      }
      CacheFrom(cache[key := snapshot.(primaries := now)]);
    }

    lemma CacheAll()
      ensures Cache().Keys == indexes.Keys && forall k :: k in indexes ==> Cache()[k] == SnapshotOf(indexes[k])
    {
    }

    lemma CacheFrom(cache: map<string, Snapshot>)
      requires cache.Keys == indexes.Keys && forall k :: k in indexes ==> SnapshotOf(indexes[k]) == cache[k]
      ensures Cache() == cache
    {
    }

    method Record(key: string, ix: Index, before: seq<Item>, stored: seq<Item>)
      requires Own() && key in indexes && indexes[key] == ix
      requires ix.members.Holds(before) && ix.size == |before| && Proper(stored)
      modifies ix`size, ix.members
      ensures ix.members.Holds(before + stored) && ix.size == |before + stored| && ix.primaries == old(ix.primaries)
      ensures Doc() == old(Doc()) && Cache() == old(Cache())[key := SnapshotOf(ix)]
    {
      hide Doc, ValueSet.Holds, Cache;
      CacheAll();
      ghost var cache := Cache();
      assert forall e <- Elements() :: allocated(e);
      assert forall e <- Elements() :: (e as object) != ix && (e as object) != ix.members;
      ix.Extend(stored, before);
      forall k | k in indexes && k != key ensures SnapshotOf(indexes[k]) == cache[k] {
        assert indexes[k] != ix && indexes[k].members != ix.members;
        assert (indexes[k] as object) != ix.members;
      }
      CacheFrom(cache[key := SnapshotOf(ix)]);
    }

    // ---- An add to a list ----

    // Every index of a list covers no more than the list.
    ghost predicate Covers(slot: Slot, n: nat)
      reads this, Caches(), Sets()
    {
      forall k :: k in Cache() && k in spelled && SlotOf(spelled[k].0, spelled[k].1) == slot ==> Cache()[k].size <= n
    }

    lemma ValidCovers(slot: Slot)
      requires Valid()
      ensures Covers(slot, |ItemsAt(lists, slot)|)
    {
      hide IsSetOf, PrimariesOf, Defines, SlotOf;
      DocAt(slot);
    }

    // All indexes of one list are of one attribute.
    lemma ValidAttributes(slot: Slot, extension: string, name: string, attr: Attribute)
      requires Valid() && slot == SlotOf(extension, name) && Defines(schemas, extension, name, attr)
      ensures forall k :: k in Cache() && k in spelled && SlotOf(spelled[k].0, spelled[k].1) == slot ==>
              Cache()[k].attribute == attr
    {
      hide IndexOk, Defines;
      forall k | k in Cache() && k in spelled && SlotOf(spelled[k].0, spelled[k].1) == slot
        ensures Cache()[k].attribute == attr
      {
        assert EntryOk(schemas, encode, k, Cache()[k], spelled[k], lists, Doc());
        DefinedUnderFold(schemas, extension, name, spelled[k].1, attr, Cache()[k].attribute);
      }
    }

    // Whoever was primary before is no more; the index remembers who is now.
    method DemotePrimaries(slot: Slot, key: string, ix: Index, before: seq<Item>, stored: seq<Item>)
      requires Apart() && Own() && slot in lists && lists[slot] == before + stored
      requires key in indexes && indexes[key] == ix && ix.primaries == PrimariesOf(View(before), before)
      modifies ix`primaries, Refs(before)
      ensures Doc() == old(Doc())[slot := DemoteFirst(old(ValuesAt(Doc(), slot)), |before|)]
      ensures Cache() == old(Cache())[key := old(Cache()[key]).(primaries := ix.primaries)]
      ensures ix.primaries == PrimariesOf(ValuesAt(Doc(), slot), lists[slot])
    {
      hide Cache, Doc, Elements, PrimariesOf, Demoted, Distinct, View, DemoteFirst, AllApart, Owned;
      ghost var values := ValuesAt(Doc(), slot);
      DocAt(slot);
      ApartProper(slot, before, stored);
      CacheAt(key);
      DemoteBefore(slot, before, stored, ix.primaries);
      DocAt(slot);
      ViewConcat(before, stored);
      DemotedPrimaries(values, before, stored, View(stored));
      SetPrimaries(key, ix, stored);
    }

    lemma CacheAt(key: string)
      requires key in indexes
      ensures key in Cache() && Cache()[key] == SnapshotOf(indexes[key])
    {
    }

    lemma ApartProper(slot: Slot, before: seq<Item>, stored: seq<Item>)
      requires Apart() && slot in lists && lists[slot] == before + stored
      ensures Distinct(before) && Proper(stored)
    {
      DistinctParts(before, stored);
    }

    lemma DemotedOk(extension: string, name: string, attr: Attribute, before: seq<Item>, stored: seq<Item>, ix: Index)
      requires Valid() && Defines(schemas, extension, name, attr)
      requires SlotOf(extension, name) in lists && lists[SlotOf(extension, name)] == before + stored && stored != []
      requires Covers(SlotOf(extension, name), |before|) && KeyedByIdentity(attr)
      ensures var slot := SlotOf(extension, name);
              CacheOk(schemas, encode, Cache(), spelled, lists,
                  Doc()[slot := DemoteFirst(ValuesAt(Doc(), slot), |before|)])
    {
      hide Doc, Cache, CacheOk, IndexOk, Defines, CacheKey, SlotOf, DemoteFirst;
      var slot := SlotOf(extension, name);
      ValidAttributes(slot, extension, name, attr);
      DocAt(slot);
      CacheKeys(schemas, encode, Cache(), spelled, lists, Doc());
      CacheDemoted(schemas, encode, Cache(), spelled, lists, Doc(), slot, |before|);
    }

    // ---- Bringing the index up to date ----

    // The index of the list as it was before the add.
    ghost predicate IndexedBefore(extension: string, name: string, attr: Attribute, before: seq<Item>,
                                  stored: seq<Item>, ix: Index)
      reads this, ix, ix.members, Refs(before)
    {
      && Defines(schemas, extension, name, attr) && ':' !in name
      && SlotOf(extension, name) in lists && lists[SlotOf(extension, name)] == before + stored
      && CacheKey(extension, name) in indexes && indexes[CacheKey(extension, name)] == ix
      && CacheKey(extension, name) in spelled && spelled[CacheKey(extension, name)] == (extension, name)
      && ix.size == |before| && ix.members.attribute == attr && ix.members.Holds(before)
    }

    // The index of the list as it is now.
    lemma NowOk(ix: Index, before: seq<Item>, stored: seq<Item>, name: string)
      requires ix.members.encode == encode && ix.members.Holds(before + stored) && ix.size == |before + stored|
      requires !EqualFold(name, "primary") ==> ix.primaries == PrimariesOf(View(before + stored), before + stored)
      ensures IndexOk(encode, SnapshotOf(ix), before + stored, View(before + stored), name)
    {
      hide IsSetOf, PrimariesOf;
      assert (before + stored)[..ix.size] == before + stored;
      assert View(before + stored)[..ix.size] == View(before + stored);
    }

    method RecordNow(extension: string, name: string, attr: Attribute, before: seq<Item>, stored: seq<Item>, ix: Index)
      requires Valid() && Proper(stored) && IndexedBefore(extension, name, attr, before, stored, ix)
      requires !EqualFold(name, "primary") ==> ix.primaries == PrimariesOf(View(before + stored), before + stored)
      modifies ix`size, ix.members
      ensures Valid() && Doc() == old(Doc())
    {
      hide Cache, Doc, Elements, CacheOk, IndexOk, Defines, CacheKey, SlotOf, PrimariesOf, Distinct, View, AllApart,
           Owned, IsSetOf, ValueSet.Holds, SnapshotOf;
      ghost var slot, cache := SlotOf(extension, name), Cache();
      var key := CacheKey(extension, name);
      DocAt(slot);
      SameEncode(key);
      Record(key, ix, before, stored);
      DocAt(slot);
      NowOk(ix, before, stored, name);
      SnapshotAttribute(ix);
      CacheRebuilt(schemas, encode, cache, spelled, lists, Doc(), extension, name, SnapshotOf(ix));
      assert spelled[key := (extension, name)] == spelled;
    }

    lemma SameEncode(key: string)
      requires Own() && key in indexes
      ensures indexes[key].members.encode == encode
    {
    }

    lemma SnapshotAttribute(ix: Index)
      ensures SnapshotOf(ix).attribute == ix.members.attribute
    {
    }

    // After a demotion the index, though older than the list, names the primary elements of now.
    method RecordPromoted(extension: string, name: string, attr: Attribute, before: seq<Item>, stored: seq<Item>,
                          ix: Index)
      requires Valid() && Proper(stored) && stored != [] && IndexedBefore(extension, name, attr, before, stored, ix)
      requires Covers(SlotOf(extension, name), |before|) && KeyedByIdentity(attr)
      requires ix.primaries == PrimariesOf(View(before), before)
      modifies ix, ix.members, Refs(before)
      ensures Valid()
      ensures var slot := SlotOf(extension, name);
              Doc() == old(Doc())[slot := DemoteFirst(old(ValuesAt(Doc(), slot)), |before|)]
    {
      hide Cache, Doc, Elements, CacheOk, IndexOk, Defines, CacheKey, SlotOf, PrimariesOf, Distinct, View, AllApart,
           Owned, IsSetOf, ValueSet.Holds, SnapshotOf, DemoteFirst;
      ghost var cache, doc := Cache(), Doc();
      var slot, key := SlotOf(extension, name), CacheKey(extension, name);
      DocAt(slot);
      DemotedOk(extension, name, attr, before, stored, ix);
      CacheAt(key);
      ApartProper(slot, before, stored);
      SnapshotSize(ix);
      DemotePrimaries(slot, key, ix, before, stored);
      DocAt(slot);
      CacheFree(schemas, encode, cache, spelled, lists, Doc(), extension, name, ix.primaries);
      CacheEntry(schemas, encode, Cache(), spelled, lists, Doc(), extension, name);
      CacheAt(key);
      KeptHolds(extension, name, ix, before);
      RecordNow(extension, name, attr, before, stored, ix);
    }

    lemma SnapshotSize(ix: Index)
      ensures SnapshotOf(ix).size == ix.size
    {
    }

    method Clear()
      requires Apart()
      modifies this`indexes, this`spelled
      ensures Valid() && Doc() == old(Doc()) && indexes == map[]
    {
      hide AllApart;
      assert forall e <- Elements() :: (e as object) != this;
      indexes := map[];
      spelled := map[];
    }

    // After the new values are stored: demotes the old ones if need be, and brings the index up to date or
    // drops all indexes, when values may have changed that are not told apart by identity.
    method Settle(extension: string, name: string, attr: Attribute, before: seq<Item>, stored: seq<Item>,
                  promoted: bool, ix: Index)
      requires Valid() && Distinct(stored) && IndexedBefore(extension, name, attr, before, stored, ix)
      requires Covers(SlotOf(extension, name), |before|)
      requires !EqualFold(name, "primary") ==> ix.primaries == PrimariesOf(View(before), before)
      requires promoted ==> stored != [] && !EqualFold(name, "primary")
      requires !promoted && !EqualFold(name, "primary") ==> forall i :: 0 <= i < |stored| ==> !Primary(View(stored)[i])
      modifies this`indexes, this`spelled, ix, ix.members, Refs(before)
      ensures Valid()
      ensures var slot := SlotOf(extension, name);
              Doc() == if promoted then old(Doc())[slot := DemoteFirst(old(ValuesAt(Doc(), slot)), |before|)]
                  else old(Doc())
      ensures indexes == old(indexes) || indexes == map[]
    {
      hide Cache, Doc, Elements, CacheOk, IndexOk, Defines, CacheKey, SlotOf, PrimariesOf, Distinct, View, AllApart,
           Owned, IsSetOf, ValueSet.Holds, SnapshotOf, DemoteFirst, Primary;
      var slot, key := SlotOf(extension, name), CacheKey(extension, name);
      ApartProper(slot, before, stored);
      if !promoted {
        if !EqualFold(name, "primary") {
          NoneAdded(before, stored);
        }
        RecordNow(extension, name, attr, before, stored, ix);
      } else if KeyedByIdentity(attr) {
        RecordPromoted(extension, name, attr, before, stored, ix);
      } else {
        DemotePrimaries(slot, key, ix, before, stored);
        Clear();
      }
    }

    // The candidates the list does not hold, what is left of them without repeats, and that in memory.
    method Prepare(ix: Index, attr: Attribute, name: string, before: seq<Item>, incoming: Json)
      returns (left: seq<Json>, unique: seq<Json>, stored: seq<Item>, held: seq<Json>, promoted: bool)
      requires Valid() && ix in Caches() && Distinct(before) && ix.members.Holds(before) && ix.members.attribute == attr
      ensures Valid() && Doc() == old(Doc()) && Cache() == old(Cache()) && Elements() == old(Elements())
      ensures ix.members.Holds(before) && View(before) == old(View(before)) == held
      ensures left == Fresh(attr, held, ListOf(incoming)) && unique == Unique(attr, left) &&
              promoted == Promotes(name, List(left))
      ensures Distinct(stored) && View(stored) == unique && fresh(Refs(stored))
    {
      hide Cache, Doc, CacheOk, Distinct, View, AllApart, Owned, IsSetOf, Fresh, Unique, Primary;
      assert forall e <- Elements() + Refs(before) :: allocated(e);
      assert forall m <- Sets() :: allocated(m);
      ghost var doc, cache, values := Doc(), Cache(), View(before);
      DistinctProper(before);
      left := FreshIn(ix.members, before, ListOf(incoming));
      unique := UniqueOf(attr, encode, left);
      held := Load(before);
      promoted := PromotesOf(name, left);
      stored := Store(unique);
      assert View(before) == values && Doc() == doc && Cache() == cache;
    }

    // Finds the index of the list, and with it the values to add; the gate compares the list as it would be.
    method Begin(t: Target, incoming: Json)
      returns (ok: bool, ix: Index, before: seq<Item>, stored: seq<Item>, promoted: bool)
      requires Valid() && IsListAdd(t, Add) && Defines(schemas, t.extension, t.name, t.attr) && ':' !in t.name
      modifies this`indexes, this`spelled
      ensures Valid() && Doc() == old(Doc()) && Distinct(stored) && fresh(Refs(stored)) &&
              before == ItemsAt(lists, SlotOf(t.extension, t.name))
      ensures CacheKey(t.extension, t.name) in indexes && indexes[CacheKey(t.extension, t.name)] == ix
      ensures CacheKey(t.extension, t.name) in spelled &&
              spelled[CacheKey(t.extension, t.name)] == (t.extension, t.name)
      ensures ix.size == |before| && ix.members.attribute == t.attr && ix.members.Holds(before)
      ensures Covers(SlotOf(t.extension, t.name), |before|)
      ensures !EqualFold(t.name, "primary") ==> ix.primaries == PrimariesOf(View(before), before)
      ensures var left := Fresh(t.attr, View(before), ListOf(incoming));
              promoted == Promotes(t.name, List(left)) && View(stored) == Unique(t.attr, left)
      ensures ok == Writable(t.attr, if SlotOf(t.extension, t.name) in lists then List(View(before)) else Null,
                             List(Added(t.attr, View(before), incoming)))
      ensures fresh(Caches() - old(Caches())) && fresh(Sets() - old(Sets()))
    {
      hide Cache, Doc, CacheOk, IndexOk, Defines, CacheKey, SlotOf, PrimariesOf, Distinct, View, AllApart, Owned,
           IsSetOf, ValueSet.Holds, SnapshotOf, Primary, Fresh, Unique, Equal, Promotes, Elements;
      var slot := SlotOf(t.extension, t.name);
      before := ItemsAt(lists, slot);
      ElementsOfList(slot);
      ix := Lookup(t.extension, t.name, t.attr, before);
      LookedUp(t.extension, t.name, ix, before);
      ValidCovers(slot);
      var left, unique, held;
      left, unique, stored, held, promoted := Prepare(ix, t.attr, t.name, before, incoming);
      ok := Writable(t.attr, if slot in lists then List(held) else Null, List(held + unique));
    }

    // Adding values to a list: what holds afterwards is what the list and the values say, whatever the
    // indexes are that earlier operations left behind. A refused add changes nothing but indexes.
    method AddTo(t: Target, incoming: Json) returns (ok: bool)
      requires Valid() && IsListAdd(t, Add) && Defines(schemas, t.extension, t.name, t.attr) && ':' !in t.name
      modifies this`lists, this`indexes, this`spelled, Caches(), Sets(), Elements()
      ensures Valid()
      ensures var slot := SlotOf(t.extension, t.name); var elements := old(ValuesAt(Doc(), slot));
              && ok == Writable(t.attr, if slot in old(lists) then List(elements) else Null,
                                List(Added(t.attr, elements, incoming)))
              && Doc() == if ok then old(Doc())[slot := AddedTo(t.attr, t.name, elements, incoming)] else old(Doc())
      ensures fresh(Caches() - old(Caches())) && fresh(Sets() - old(Sets())) && fresh(Elements() - old(Elements()))
    {
      hide Cache, Doc, CacheOk, IndexOk, Defines, CacheKey, SlotOf, PrimariesOf, Distinct, View, AllApart, Owned,
           IsSetOf, ValueSet.Holds, SnapshotOf, DemoteFirst, Primary, Fresh, Unique, Equal, Promotes, Writable;
      var slot := SlotOf(t.extension, t.name);
      DocAt(slot);
      ElementsOfList(slot);
      assert forall e <- Elements() :: allocated(e);
      var ix, before, stored, promoted;
      ok, ix, before, stored, promoted := Begin(t, incoming);
      DocAt(slot);
      if ok {
        AddedPrimary(t.attr, t.name, Fresh(t.attr, View(before), ListOf(incoming)), promoted);
        AppendAndSettle(t.extension, t.name, t.attr, before, stored, promoted, ix);
      }
    }

    lemma ElementsOfList(slot: Slot)
      requires Apart()
      ensures Refs(ItemsAt(lists, slot)) <= Elements() && Distinct(ItemsAt(lists, slot))
    {
    }

    // An index as large as its list knows the primary elements.
    lemma LookedUp(extension: string, name: string, ix: Index, before: seq<Item>)
      requires Valid() && before == ItemsAt(lists, SlotOf(extension, name)) && ix.size == |before|
      requires CacheKey(extension, name) in indexes && indexes[CacheKey(extension, name)] == ix
      requires CacheKey(extension, name) in spelled && spelled[CacheKey(extension, name)] == (extension, name)
      ensures !EqualFold(name, "primary") ==> ix.primaries == PrimariesOf(View(before), before)
    {
      hide IsSetOf, PrimariesOf, SlotOf, CacheKey, CacheOk, Doc, Cache;
      CacheAt(CacheKey(extension, name));
      CacheEntry(schemas, encode, Cache(), spelled, lists, Doc(), extension, name);
      DocAt(SlotOf(extension, name));
    }

    method AppendAndSettle(extension: string, name: string, attr: Attribute, before: seq<Item>, stored: seq<Item>,
                           promoted: bool, ix: Index)
      requires Valid() && Distinct(stored) && Refs(stored) !! Elements() &&
               before == ItemsAt(lists, SlotOf(extension, name))
      requires Defines(schemas, extension, name, attr) && ':' !in name
      requires CacheKey(extension, name) in indexes && indexes[CacheKey(extension, name)] == ix
      requires CacheKey(extension, name) in spelled && spelled[CacheKey(extension, name)] == (extension, name)
      requires ix.size == |before| && ix.members.attribute == attr && ix.members.Holds(before)
      requires Covers(SlotOf(extension, name), |before|)
      requires !EqualFold(name, "primary") ==> ix.primaries == PrimariesOf(View(before), before)
      requires promoted ==> stored != [] && !EqualFold(name, "primary")
      requires !promoted && !EqualFold(name, "primary") ==> forall i :: 0 <= i < |stored| ==> !Primary(View(stored)[i])
      modifies this`lists, this`indexes, this`spelled, ix, ix.members, Refs(before)
      ensures Valid()
      ensures var slot := SlotOf(extension, name); var all := old(ValuesAt(Doc(), slot)) + old(View(stored));
              Doc() == old(Doc())[slot := if promoted then DemoteFirst(all, |before|) else all]
      ensures Caches() <= old(Caches()) && Sets() <= old(Sets()) && Elements() <= old(Elements()) + Refs(stored)
    {
      hide Cache, Doc, CacheOk, IndexOk, Defines, CacheKey, SlotOf, PrimariesOf, Distinct, View, AllApart, Owned,
           IsSetOf, ValueSet.Holds, SnapshotOf, DemoteFirst, Primary;
      var slot := SlotOf(extension, name);
      assert forall e <- Refs(before) + Refs(stored) :: (e as object) != this;
      Append(slot, stored);
      ViewConcat(before, stored);
      Settle(extension, name, attr, before, stored, promoted, ix);
    }

    // ---- Other operations, and runs ----

    method ReplaceLists(next: map<Slot, seq<Item>>, ghost doc: map<Slot, seq<Json>>)
      requires doc.Keys == next.Keys && IsStored(next, doc)
      modifies this`lists
      ensures lists == next && Doc() == doc && Cache() == old(Cache())
    {
      hide View, SnapshotOf;
      assert forall s :: s in next ==> forall e <- Refs(next[s]) :: (e as object) != this;
      assert forall c <- Caches() :: (c as object) != this;
      assert forall m <- Sets() :: (m as object) != this;
      lists := next;
      forall s | s in lists ensures View(lists[s]) == doc[s] {
      }
      DocFrom(doc);
    }

    // Any other successful operation: it may change every list, and drops all indexes.
    method Rewrite(doc: map<Slot, seq<Json>>)
      modifies this`lists, this`indexes, this`spelled
      ensures Valid() && Doc() == doc && Caches() == {} && Sets() == {} && fresh(Elements())
    {
      hide AllApart, View, Doc;
      var next := StoreAll(doc);
      ReplaceLists(next, doc);
      Clear();
    }

    // An extension that holds no data is taken out; its lists, if it has any, are empty.
    method Prune(extension: string) returns (pruned: bool)
      requires Valid()
      modifies this`lists
      ensures Valid() && Doc() == Pruned(old(Doc()), extension)
      ensures Elements() <= old(Elements())
    {
      hide Cache, CacheOk, AllApart, Owned, View;
      pruned := forall s :: s in lists && s.extension == extension ==> lists[s] == [];
      if pruned {
        var rest := map s | s in lists && s.extension != extension :: lists[s];
        CachePruned(schemas, encode, Cache(), spelled, lists, Doc(), extension);
        ApartLess(lists, rest);
        ReplaceLists(rest, Pruned(Doc(), extension));
      }
    }

    // A run of operations comes to what each of them yields from the lists alone.
    method Run(steps: seq<Step>) returns (ok: bool)
      requires Valid() && forall i :: 0 <= i < |steps| ==> StepOk(schemas, steps[i])
      modifies this`lists, this`indexes, this`spelled, Caches(), Sets(), Elements()
      ensures Valid()
      ensures ok == StepsOn(old(Doc()), steps).Some? && (ok ==> Doc() == StepsOn(old(Doc()), steps).value)
      decreases |steps|
    {
      hide Cache, Doc, CacheOk, AllApart, Owned, Elements, StepOn;
      if steps == [] {
        return true;
      }
      ok := Do(steps[0]);
      if ok {
        ok := Run(steps[1..]);
      }
    }

    method Do(step: Step) returns (ok: bool)
      requires Valid() && StepOk(schemas, step)
      modifies this`lists, this`indexes, this`spelled, Caches(), Sets(), Elements()
      ensures Valid()
      ensures ok == StepOn(old(Doc()), step).Some? && (ok ==> Doc() == StepOn(old(Doc()), step).value)
      ensures fresh(Caches() - old(Caches())) && fresh(Sets() - old(Sets())) && fresh(Elements() - old(Elements()))
    {
      hide Cache, Doc, CacheOk, AllApart, Owned, Elements, Writable, AddedTo, Added, Pruned;
      match step {
        case Adding(t, incoming) =>
          DocKeys();
          ok := AddTo(t, incoming);
        case Pruning(extension) =>
          var _ := Prune(extension);
          ok := true;
        case Changing(doc) =>
          Rewrite(doc);
          ok := true;
      }
    }

    lemma DocKeys()
      ensures Doc().Keys == lists.Keys
    {
    }
  }

  // An add to a list, the removal of an extension that became empty, or any other operation.
  datatype Step =
    | Adding(t: Target, incoming: Json)
    | Pruning(extension: string)
    | Changing(doc: map<Slot, seq<Json>>)

  ghost predicate StepOk(s: Schemas, step: Step) {
    step.Adding? ==>
      IsListAdd(step.t, Add) && Defines(s, step.t.extension, step.t.name, step.t.attr) && ':' !in step.t.name
  }

  // What a step makes of the lists; nothing when it is refused.
  ghost function StepOn(doc: map<Slot, seq<Json>>, step: Step): Option<map<Slot, seq<Json>>> {
    match step
    case Adding(t, incoming) =>
      var slot := SlotOf(t.extension, t.name);
      var before := if slot in doc then List(doc[slot]) else Null;
      if Writable(t.attr, before, List(Added(t.attr, ElementsAt(before), incoming)))
      then Some(doc[slot := AddedTo(t.attr, t.name, ElementsAt(before), incoming)]) else None
    case Pruning(extension) => Some(Pruned(doc, extension))
    case Changing(next) => Some(next)
  }

  ghost function StepsOn(doc: map<Slot, seq<Json>>, steps: seq<Step>): Option<map<Slot, seq<Json>>>
    decreases |steps|
  {
    if steps == [] then Some(doc)
    else
      match StepOn(doc, steps[0])
      case None => None
      case Some(next) => StepsOn(next, steps[1..])
  }

  ghost function AllRefs(lists: map<Slot, seq<Item>>): set<Element> {
    set slot, e | slot in lists && e in Refs(lists[slot]) :: e
  }

  ghost predicate IsStored(lists: map<Slot, seq<Item>>, doc: map<Slot, seq<Json>>)
    reads AllRefs(lists)
  {
    forall s :: s in lists ==>
      && s in doc
      && (assert Refs(lists[s]) <= AllRefs(lists);
          View(lists[s]) == doc[s])
  }

  lemma StoredMore(lists: map<Slot, seq<Item>>, doc: map<Slot, seq<Json>>, slot: Slot, stored: seq<Item>)
    requires IsStored(lists, doc) && AllApart(lists) && slot !in lists && slot in doc && View(stored) == doc[slot]
    requires Distinct(stored) && AllRefs(lists) !! Refs(stored)
    ensures IsStored(lists[slot := stored], doc) && AllApart(lists[slot := stored])
    ensures AllRefs(lists[slot := stored]) == AllRefs(lists) + Refs(stored)
  {
    hide Distinct, View, AllApart;
    forall s | s in lists ensures Refs(stored) !! Refs(lists[s]) {
      assert Refs(lists[s]) <= AllRefs(lists);
    }
    ApartMore(lists, slot, stored);
    assert ItemsAt(lists, slot) + stored == stored;
    var more := lists[slot := stored];
    forall e ensures e in AllRefs(more) <==> e in AllRefs(lists) + Refs(stored) {
      if e in AllRefs(lists) {
        var s :| s in lists && e in Refs(lists[s]);
        assert more[s] == lists[s];
      }
      if e in Refs(stored) {
        assert more[slot] == stored;
      }
    }
  }

  method StoreAll(doc: map<Slot, seq<Json>>) returns (next: map<Slot, seq<Item>>)
    ensures AllApart(next) && next.Keys == doc.Keys && IsStored(next, doc) && fresh(AllRefs(next))
  {
    hide AllApart, IsStored, View, Distinct;
    EmptyApart();
    next := map[];
    assert AllRefs(next) == {} && IsStored(next, doc) by { NothingStored(doc); }
    var rest := doc.Keys;
    while rest != {}
      invariant rest <= doc.Keys && next.Keys == doc.Keys - rest && AllApart(next)
      invariant IsStored(next, doc) && fresh(AllRefs(next))
      decreases |rest|
    {
      var slot :| slot in rest;
      rest := rest - {slot};
      assert forall e <- AllRefs(next) :: allocated(e);
      var stored := Store(doc[slot]);
      StoredMore(next, doc, slot, stored);
      next := next[slot := stored];
    }
  }

  lemma NothingStored(doc: map<Slot, seq<Json>>)
    ensures AllRefs(map[]) == {} && IsStored(map[], doc)
  {
  }

  lemma EmptyApart()
    ensures AllApart(map[])
  {
  }

  lemma ApartLess(lists: map<Slot, seq<Item>>, rest: map<Slot, seq<Item>>)
    requires AllApart(lists) && forall s :: s in rest ==> s in lists && rest[s] == lists[s]
    ensures AllApart(rest)
  {
  }

  // The lists of an extension go once they are all empty.
  function Pruned(doc: map<Slot, seq<Json>>, extension: string): map<Slot, seq<Json>> {
    if forall s :: s in doc && s.extension == extension ==> doc[s] == []
    then map s | s in doc && s.extension != extension :: doc[s]
    else doc
  }

  // An index of an empty list is also one of a list that is not there.
  lemma CachePruned(s: Schemas, encode: Encoder, cache: map<string, Snapshot>, spelled: map<string, (string, string)>,
                    lists: map<Slot, seq<Item>>, doc: map<Slot, seq<Json>>, extension: string)
    requires CacheOk(s, encode, cache, spelled, lists, doc) && lists.Keys == doc.Keys
    requires forall t :: t in lists && t.extension == extension ==> lists[t] == [] && doc[t] == []
    ensures CacheOk(s, encode, cache, spelled, map t | t in lists && t.extension != extension :: lists[t],
                    map t | t in doc && t.extension != extension :: doc[t])
  {
    hide IndexOk, Defines, CacheKey, SlotOf;
    var lists' := map t | t in lists && t.extension != extension :: lists[t];
    var doc' := map t | t in doc && t.extension != extension :: doc[t];
    forall k | k in cache ensures EntryOk(s, encode, k, cache[k], spelled[k], lists', doc') {
      assert EntryOk(s, encode, k, cache[k], spelled[k], lists, doc);
      var slot := SlotOf(spelled[k].0, spelled[k].1);
      assert ItemsAt(lists', slot) == ItemsAt(lists, slot) && ValuesAt(doc', slot) == ValuesAt(doc, slot);
    }
  }

  lemma AddedPrimary(a: Attribute, name: string, left: seq<Json>, promoted: bool)
    requires promoted == Promotes(name, List(left))
    ensures promoted ==> Unique(a, left) != [] && !EqualFold(name, "primary")
    ensures !promoted && !EqualFold(name, "primary") ==> forall i :: 0 <= i < |Unique(a, left)| ==>
            !Primary(Unique(a, left)[i])
  {
    hide Primary, Unique;
    ListNotPrimary(left);
    if promoted {
      var i :| 0 <= i < |left| && Primary(left[i]);
      UniqueKeepsPrimary(a, left, left[i]);
    } else if !EqualFold(name, "primary") {
      UniqueAddsNoPrimary(a, left);
    }
  }

  lemma DistinctProper(items: seq<Item>)
    requires Distinct(items)
    ensures Proper(items)
  {
  }

  method PromotesOf(name: string, list: seq<Json>) returns (promoted: bool)
    ensures promoted == Promotes(name, List(list))
  {
    hide Primary;
    assert !Primary(List(list)) by { ListNotPrimary(list); }
    if EqualFold(name, "primary") {
      return false;
    }
    for i := 0 to |list|
      invariant forall j :: 0 <= j < i ==> !Primary(list[j])
    {
      var primary := PrimaryOf(list[i]);
      if primary {
        return true;
      }
    }
    promoted := false;
  }

  lemma ListNotPrimary(list: seq<Json>)
    ensures !Primary(List(list))
  {
  }

  lemma NoneAdded(before: seq<Item>, stored: seq<Item>)
    requires forall i :: 0 <= i < |stored| ==> !Primary(View(stored)[i])
    ensures PrimariesOf(View(before + stored), before + stored) == PrimariesOf(View(before), before)
  {
    hide PrimariesOf, Primary;
    ViewConcat(before, stored);
    PrimariesJoined(View(before), before, View(stored), stored);
    NoPrimaries(View(stored), stored);
  }

  lemma CacheKeys(s: Schemas, encode: Encoder, cache: map<string, Snapshot>, spelled: map<string, (string, string)>,
                  lists: map<Slot, seq<Item>>, doc: map<Slot, seq<Json>>)
    requires CacheOk(s, encode, cache, spelled, lists, doc)
    ensures cache.Keys == spelled.Keys
  {
  }

  lemma CacheEntry(s: Schemas, encode: Encoder, cache: map<string, Snapshot>, spelled: map<string, (string, string)>,
                   lists: map<Slot, seq<Item>>, doc: map<Slot, seq<Json>>, extension: string, name: string)
    requires CacheOk(s, encode, cache, spelled, lists, doc)
    requires var key := CacheKey(extension, name); key in cache && spelled[key] == (extension, name)
    ensures var slot := SlotOf(extension, name);
            IndexOk(encode, cache[CacheKey(extension, name)], ItemsAt(lists, slot), ValuesAt(doc, slot), name)
  {
    hide IndexOk, Defines, CacheKey, SlotOf;
    var key := CacheKey(extension, name);
    assert EntryOk(s, encode, key, cache[key], spelled[key], lists, doc);
  }

  // As long as an index is older than its list, nothing hangs on its primary elements.
  lemma CacheFree(s: Schemas, encode: Encoder, cache: map<string, Snapshot>, spelled: map<string, (string, string)>,
                  lists: map<Slot, seq<Item>>, doc: map<Slot, seq<Json>>, extension: string, name: string,
                  primaries: seq<Element>)
    requires CacheOk(s, encode, cache, spelled, lists, doc)
    requires var key := CacheKey(extension, name); key in cache && spelled[key] == (extension, name)
    requires cache[CacheKey(extension, name)].size < |ValuesAt(doc, SlotOf(extension, name))|
    ensures var key := CacheKey(extension, name);
            CacheOk(s, encode, cache[key := cache[key].(primaries := primaries)], spelled, lists, doc)
  {
    hide Defines, CacheKey, IsSetOf, PrimariesOf, SlotOf;
    var key := CacheKey(extension, name);
    assert EntryOk(s, encode, key, cache[key], spelled[key], lists, doc);
    CacheRebuilt(s, encode, cache, spelled, lists, doc, extension, name, cache[key].(primaries := primaries));
    assert spelled[key := (extension, name)] == spelled;
  }

  // Once the elements from before are demoted, the primary ones are among the new.
  lemma DemotedPrimaries(values: seq<Json>, before: seq<Item>, stored: seq<Item>, more: seq<Json>)
    requires |values| == |before| + |stored| && |more| == |stored| && DemoteFirst(values, |before|)[|before|..] == more
    ensures PrimariesOf(DemoteFirst(values, |before|), before + stored) == PrimariesOf(more, stored)
  {
    hide Demoted, Primary, PrimariesOf;
    var after := DemoteFirst(values, |before|);
    var head := after[..|before|];
    forall i | 0 <= i < |head| ensures !Primary(head[i]) {
      DemotedIsNot(values[i]);
    }
    NoPrimaries(head, before);
    assert after == head + more;
    PrimariesJoined(head, before, more, stored);
  }

  lemma DefinedUnderFold(s: Schemas, extension: string, name: string, other: string, a: Attribute, b: Attribute)
    requires Defines(s, extension, name, a) && Defines(s, extension, other, b) && Fold(name) == Fold(other)
    ensures a == b
  {
    LookupFold(SchemaOf(s, extension).value.attributes, name, other);
  }

  lemma DefinedOnce(s: Schemas, extension: string, name: string, a: Attribute, b: Attribute)
    requires Defines(s, extension, name, a) && Defines(s, extension, name, b)
    ensures a == b
  {
  }

  lemma ProperParts(list: seq<Item>, elements: seq<Item>)
    requires Distinct(list) && elements <= list
    ensures Proper(elements)
  {
    assert forall i :: 0 <= i < |elements| ==> elements[i] == list[i];
  }

  // ---- The list an add yields is the one the engine writes ----

  lemma AddedIsWritten(container: Object, t: Target, incoming: Json, walk: Object -> seq<string>)
    requires IsListAdd(t, Add) && t.attr.multi
    ensures var before := Get(container, t.name); var elements := ElementsAt(before);
            WriteWhole(container, t, Add, incoming, walk) ==
            if Writable(t.attr, before, List(Added(t.attr, elements, incoming)))
            then Ok(PatchObject.Set(container, t.name, List(AddedTo(t.attr, t.name, elements, incoming))))
            else Err(NotMutable)
  {
    hide Get, PatchObject.Set, Fresh, Unique, Promotes, Writable, Demoted, Equal, Selected;
    var before := Get(container, t.name);
    var elements := ElementsAt(before);
    var added := List(Fresh(t.attr, elements, ListOf(incoming)));
    var after := List(Added(t.attr, elements, incoming));
    assert Appended(before, Shaped(t.attr, added), Add) == after by {
      assert [] + after.elements == after.elements;
    }
    assert CarryForward(t.attr, Add, elements, Shaped(t.attr, added)) == Shaped(t.attr, added);
    if Writable(t.attr, before, after) {
      var next := PatchObject.Set(container, t.name, after);
      assert Put(container, t, Add, added, elements, walk) == Ok(next);
      GetSetSame(container, t.name, after);
      SetTwice(container, t.name, after, DemoteOthers(t, before, after, Add, added));
      assert Demote(after.elements, Written(t, elements, after.elements, Add)) ==
          DemoteFirst(after.elements, |elements|);
    }
  }

  // After an add of a primary value whoever is primary came with it, unless the name is taken for the flag and
  // someone was primary before.
  lemma OnlyAddedPrimary(a: Attribute, name: string, elements: seq<Json>, incoming: Json)
    requires SomePrimary(List(Fresh(a, elements, ListOf(incoming))))
    ensures var after := AddedTo(a, name, elements, incoming);
            (forall i :: 0 <= i < |after| && Primary(after[i]) ==> i >= |elements|) <==>
            !EqualFold(name, "primary") || forall i :: 0 <= i < |elements| ==> !Primary(elements[i])
  {
    hide Fresh, Unique, Primary, Demoted;
    var after := AddedTo(a, name, elements, incoming);
    if EqualFold(name, "primary") {
      forall i | 0 <= i < |elements| ensures after[i] == elements[i] {
      }
    } else {
      forall i | 0 <= i < |elements| ensures !Primary(after[i]) {
        DemotedIsNot(Added(a, elements, incoming)[i]);
      }
    }
  }
}
