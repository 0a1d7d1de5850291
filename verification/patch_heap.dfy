// The elements of lists as they lie in memory: objects are shared and written in place.
module PatchHeap {
  import opened PatchObject

  class Element {
    var fields: Object

    constructor (fields: Object)
      ensures this.fields == fields
    {
      this.fields := fields;
    }
  }

  datatype Item = Plain(value: Json) | Ref(element: Element)

  ghost function Refs(items: seq<Item>): set<Element> {
    set i | 0 <= i < |items| && items[i].Ref? :: items[i].element
  }

  ghost predicate Proper(items: seq<Item>) {
    forall i :: 0 <= i < |items| && items[i].Plain? ==> !items[i].value.Obj?
  }

  // Every object of a list is an element of its own.
  ghost predicate Distinct(items: seq<Item>) {
    && Proper(items)
    && (forall i, j :: 0 <= i < j < |items| && items[i].Ref? && items[j].Ref? ==> items[i].element != items[j].element)
  }

  function ValueOf(item: Item): Json
    reads if item.Ref? then {item.element} else {}
  {
    match item
    case Plain(value) => value
    case Ref(element) => Obj(element.fields)
  }

  ghost function View(items: seq<Item>): (values: seq<Json>)
    reads Refs(items)
    ensures |values| == |items|
    ensures forall i :: 0 <= i < |items| ==> values[i] == ValueOf(items[i])
  {
    seq(|items|, i reads Refs(items) requires 0 <= i < |items| =>
      assert items[i].Ref? ==> items[i].element in Refs(items);
      ValueOf(items[i]))
  }

  lemma ViewConcat(items: seq<Item>, more: seq<Item>)
    ensures View(items + more) == View(items) + View(more)
    ensures Refs(items + more) == Refs(items) + Refs(more)
  {
    var all := items + more;
    forall e | e in Refs(items) + Refs(more) ensures e in Refs(all) {
      if e in Refs(items) {
        var i :| 0 <= i < |items| && items[i] == Ref(e);
        assert all[i] == Ref(e);
      } else {
        var i :| 0 <= i < |more| && more[i] == Ref(e);
        assert all[|items| + i] == Ref(e);
      }
    }
  }

  lemma DistinctParts(items: seq<Item>, more: seq<Item>)
    requires Distinct(items + more)
    ensures Distinct(items) && Distinct(more) && Refs(items) !! Refs(more)
  {
    var all := items + more;
    assert forall i :: 0 <= i < |items| ==> all[i] == items[i];
    assert forall i :: 0 <= i < |more| ==> all[|items| + i] == more[i];
  }

  lemma DistinctJoined(items: seq<Item>, more: seq<Item>)
    requires Distinct(items) && Distinct(more) && Refs(items) !! Refs(more)
    ensures Distinct(items + more)
  {
    var all := items + more;
    forall i, j | 0 <= i < j < |all| && all[i].Ref? && all[j].Ref? ensures all[i].element != all[j].element {
      if i < |items| <= j {
        assert all[i].element in Refs(items);
        assert more[j - |items|] == all[j];
        assert all[j].element in Refs(more);
      }
    }
  }

  // New memory for a list of values.
  method Store(values: seq<Json>) returns (items: seq<Item>)
    ensures Distinct(items) && fresh(Refs(items)) && View(items) == values
  {
    items := [];
    for i := 0 to |values|
      invariant |items| == i && Distinct(items) && fresh(Refs(items))
      invariant View(items) == values[..i]
    {
      var item := StoreOne(values[i]);
      DistinctJoined(items, [item]);
      ViewConcat(items, [item]);
      items := items + [item];
    }
  }

  method StoreOne(v: Json) returns (item: Item)
    ensures Proper([item]) && fresh(Refs([item])) && ValueOf(item) == v
  {
    match v {
      case Obj(fields) =>
        var element := new Element(fields);
        item := Ref(element);
      case _ =>
        item := Plain(v);
    }
  }

  method Load(items: seq<Item>) returns (values: seq<Json>)
    ensures values == View(items)
  {
    values := [];
    for i := 0 to |items|
      invariant |values| == i && forall j :: 0 <= j < i ==> values[j] == ValueOf(items[j])
    {
      values := values + [ValueOf(items[i])];
    }
  }
}
