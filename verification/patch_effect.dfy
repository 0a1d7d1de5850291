// What a value sent to an attribute comes to: the value that was sent, a list that gained its elements, or an object
// with the members that were named. Said of the values before and after alone, and proved of every write.
module PatchEffect {
  import opened Wrappers
  import opened Text
  import opened PatchObject
  import opened PatchValue
  import opened PatchUnique
  import opened PatchEngine
  import opened PatchMutability

  // ---- The value an attribute is to hold ----

  // What a list gains: the values sent that it does not hold, without repeats.
  ghost function Gained(a: Attribute, elements: seq<Json>, sent: Json): seq<Json> {
    Unique(a, Fresh(a, elements, ListOf(sent)))
  }

  // Adding to a list appends; anything else puts the value in place, as a list without repeats if it should be one.
  ghost function Resulting(a: Attribute, op: Op, held: Json, sent: Json): Json {
    if op == Add && held.List? then
      List(held.elements + if a.multi then Gained(a, held.elements, sent) else ListOf(sent))
    else if a.multi then List(Unique(a, ListOf(sent)))
    else sent
  }

  // An immutable attribute, or a part of one, already holds another value.
  predicate Refused(a: Attribute, gate: bool, held: Json, result: Json) {
    ((a.mutability == Immutable && !IsUnassigned(held)) || gate) && !Equal(a, held, result)
  }

  predicate Closed(parent: Attribute, holder: Object) {
    !parent.multi && parent.mutability == Immutable && holder != map[]
  }

  lemma ListOfIs(v: Json)
    ensures v.List? ==> ListOf(v) == v.elements
    ensures v == Null ==> ListOf(v) == []
    ensures !v.List? && v != Null ==> ListOf(v) == [v]
  {
  }

  // ---- Members a replaced element leaves out ----

  // A readOnly or immutable sub-attribute that the element leaves out and the stored one has.
  ghost predicate LeftOut(sub: Attribute, element: Object, stored: Object) {
    (sub.mutability == ReadOnly || sub.mutability == Immutable) && !Has(element, sub.name) && Has(stored, sub.name)
  }

  // The first such sub-attribute of the name.
  ghost function Carrying(subs: seq<Attribute>, element: Object, stored: Object, name: string): Option<Attribute>
    decreases |subs|
  {
    if subs == [] then None
    else if LeftOut(subs[0], element, stored) && EqualFold(subs[0].name, name) then Some(subs[0])
    else Carrying(subs[1..], element, stored, name)
  }

  // It is carried over from the stored element, and everything else is as it was sent.
  ghost predicate FilledFrom(subs: seq<Attribute>, element: Object, stored: Object, filled: Object) {
    forall name: string ::
      match Carrying(subs, element, stored, name)
      case Some(sub) => Get(filled, sub.name) == Get(stored, sub.name)
      case None => Get(filled, name) == Get(element, name)
  }

  ghost predicate ElementCarried(a: Attribute, stored: seq<Json>, element: Json, filled: Json) {
    if element.Obj? && KeyedByIdentity(a) && Contains(a, stored, element) then
      && filled.Obj? && stored[FirstSame(a, stored, element)].Obj?
      && FilledFrom(a.subs, element.fields, stored[FirstSame(a, stored, element)].fields, filled.fields)
    else filled == element
  }

  // A replaced list, element by element; anything else is what was sent.
  ghost predicate Carried(a: Attribute, op: Op, stored: seq<Json>, result: Json, after: Json) {
    if op == Replace && result.List? then
      && after.List? && |after.elements| == |result.elements|
      && forall i :: 0 <= i < |result.elements| ==> ElementCarried(a, stored, result.elements[i], after.elements[i])
    else after == result
  }

  lemma HasFold(o: Object, n: string, m: string)
    requires EqualFold(n, m)
    ensures Has(o, n) <==> Has(o, m)
  {
    assert Has(o, n) ==> Key(o, n) in Matches(o, m);
    assert Has(o, m) ==> Key(o, m) in Matches(o, n);
  }

  lemma HasSet(o: Object, name: string, v: Json, n: string)
    ensures Has(Set(o, name, v), n) <==> Has(o, n) || EqualFold(name, n)
  {
    var o' := Set(o, name, v);
    if EqualFold(name, n) {
      assert Key(o, name) in Matches(o', n);
    } else {
      GetSetOther(o, name, v, n);
    }
  }

  lemma {:induction false} CarryingSame(subs: seq<Attribute>, x: Object, stored: Object, name: string, v: Json,
                                        n: string)
    ensures !EqualFold(name, n) ==>
              Carrying(subs, Set(x, name, v), stored, n) == Carrying(subs, x, stored, n)
    ensures EqualFold(name, n) ==> Carrying(subs, Set(x, name, v), stored, n) == None
  {
    hide Has, Set;
    if subs != [] {
      CarryingSame(subs[1..], x, stored, name, v, n);
      HasSet(x, name, v, subs[0].name);
    }
  }

  lemma {:induction false} FillMemberFills(x: Object, stored: Object, subs: seq<Attribute>)
    ensures FilledFrom(subs, x, stored, FillMember(x, stored, FillSubs(subs)))
    decreases |subs|
  {
    hide Get, Has, Set;
    if subs == [] {
    } else {
      var s, rest := subs[0], subs[1..];
      var y := FillMember(x, stored, FillSubs(subs));
      if LeftOut(s, x, stored) {
        var next := Set(x, s.name, Get(stored, s.name));
        assert FillSubs(subs)[1..] == FillSubs(rest);
        FillMemberFills(next, stored, rest);
        forall name: string
          ensures match Carrying(subs, x, stored, name)
                  case Some(sub) => Get(y, sub.name) == Get(stored, sub.name)
                  case None => Get(y, name) == Get(x, name)
        {
          CarryingSame(rest, x, stored, s.name, Get(stored, s.name), name);
          CarryingSame(rest, x, stored, s.name, Get(stored, s.name), s.name);
          GetSetSame(x, s.name, Get(stored, s.name));
          if !EqualFold(s.name, name) {
            GetSetOther(x, s.name, Get(stored, s.name), name);
          }
        }
      } else {
        FillMemberFills(x, stored, rest);
        FillSkips(x, stored, subs);
        assert forall name: string :: Carrying(subs, x, stored, name) == Carrying(rest, x, stored, name);
      }
    }
  }

  lemma FillSkips(x: Object, stored: Object, subs: seq<Attribute>)
    requires subs != [] && !LeftOut(subs[0], x, stored)
    ensures FillMember(x, stored, FillSubs(subs)) == FillMember(x, stored, FillSubs(subs[1..]))
  {
    var s := subs[0];
    if s.mutability == Immutable || s.mutability == ReadOnly {
      assert FillSubs(subs)[1..] == FillSubs(subs[1..]);
    } else {
      assert FillSubs(subs) == FillSubs(subs[1..]);
    }
  }

  lemma {:induction false} NothingToFill(subs: seq<Attribute>, x: Object, stored: Object, name: string)
    requires FillSubs(subs) == []
    ensures Carrying(subs, x, stored, name) == None
  {
    if subs != [] {
      NothingToFill(subs[1..], x, stored, name);
    }
  }

  lemma ElementFills(a: Attribute, stored: seq<Json>, element: Json)
    ensures ElementCarried(a, stored, element, FillElement(a, stored, element))
  {
    hide SameElement, FilledFrom, FillMember, FillSubs;
    if element.Obj? && KeyedByIdentity(a) && Contains(a, stored, element) {
      var found := stored[FirstSame(a, stored, element)];
      SameAreObjects(a, found, element);
      FillMemberFills(element.fields, found.fields, a.subs);
    }
  }

  lemma ElementStays(a: Attribute, stored: seq<Json>, element: Json)
    requires FillSubs(a.subs) == []
    ensures ElementCarried(a, stored, element, element)
  {
    hide SameElement, Carrying, FillSubs;
    if element.Obj? && KeyedByIdentity(a) && Contains(a, stored, element) {
      var found := stored[FirstSame(a, stored, element)];
      SameAreObjects(a, found, element);
      forall name: string ensures Carrying(a.subs, element.fields, found.fields, name) == None {
        NothingToFill(a.subs, element.fields, found.fields, name);
      }
    }
  }

  lemma CarryForwardCarries(a: Attribute, op: Op, stored: seq<Json>, result: Json)
    ensures Carried(a, op, stored, result, CarryForward(a, op, stored, result))
  {
    hide ElementCarried, FillElement, FillSubs;
    if op == Replace && result.List? {
      var after := CarryForward(a, op, stored, result);
      forall i | 0 <= i < |result.elements|
        ensures ElementCarried(a, stored, result.elements[i], after.elements[i])
      {
        ElementFills(a, stored, result.elements[i]);
        if FillSubs(a.subs) == [] {
          ElementStays(a, stored, result.elements[i]);
        }
      }
    }
  }

  // ---- One value put under one name ----

  lemma UnfreshedResult(a: Attribute, op: Op, held: Json, sent: Json)
    ensures var shaped := Shaped(a, sent);
            var v := if op == Add && a.multi && held.List?
                     then List(Fresh(a, held.elements, ListOf(shaped))) else shaped;
            Appended(held, v, op) == Resulting(a, op, held, sent)
  {
    hide Fresh, Unique;
    if op == Add && a.multi && held.List? {
      FreshOfUnique(a, held.elements, ListOf(sent));
    }
  }

  lemma PutValueGives(holder: Object, t: Target, op: Op, sent: Json, stored: seq<Json>)
    requires !IsListAdd(t, op)
    ensures var held := Get(holder, WriteKey(t));
            var result := Resulting(t.attr, op, held, sent);
            var out := PutValue(holder, t, op, sent, stored);
            if Refused(t.attr, t.sub != "" && Closed(t.parent, holder), held, result) then out == Err(NotMutable)
            else out.Ok? && SameBut(holder, out.value, WriteKey(t)) &&
                 Carried(t.attr, op, stored, result, Get(out.value, WriteKey(t)))
  {
    hide Get, Set, Fresh, Unique, Equal, Resulting, Shaped, CarryForward, Carried, Appended;
    var key := WriteKey(t);
    var held := Get(holder, key);
    var shaped := Shaped(t.attr, sent);
    var v := if op == Add && t.attr.multi && held.List?
             then List(Fresh(t.attr, held.elements, ListOf(shaped))) else shaped;
    var result := Resulting(t.attr, op, held, sent);
    UnfreshedResult(t.attr, op, held, sent);
    if !Refused(t.attr, t.sub != "" && Closed(t.parent, holder), held, result) {
      var after := Appended(held, CarryForward(t.attr, op, stored, v), op);
      AppendedCarries(t.attr, op, held, stored, v);
      OneKeySet(holder, key, after);
      OneKeySame(holder, key, Set(holder, key, after));
      GetSetSame(holder, key, after);
    }
  }

  lemma AppendedCarries(a: Attribute, op: Op, held: Json, stored: seq<Json>, v: Json)
    ensures Carried(a, op, stored, Appended(held, v, op), Appended(held, CarryForward(a, op, stored, v), op))
  {
    hide CarryForward, ElementCarried;
    CarryForwardCarries(a, op, stored, v);
  }

  // ---- Merging an object ----

  // The name stands alone: no other name of the object is equal under folding.
  ghost predicate Alone(values: Object, k: string) {
    k in values && forall l :: l in values && EqualFold(l, k) ==> l == k
  }

  ghost predicate Mentions(values: Object, name: string) {
    exists k :: k in values && EqualFold(k, name)
  }

  // Every member is walked once, in any order.
  ghost predicate EachOnce(walk: Object -> seq<string>) {
    forall o: Object, k: string :: multiset(walk(o))[k] == if k in o then 1 else 0
  }

  ghost function MemberResult(a: Attribute, op: Op, o: Object, k: string, sent: Json): Json {
    Resulting(SubAttribute(a, k), op, Get(o, k), sent)
  }

  // Each member that was named holds what it is to hold; no other name reads differently.
  ghost predicate Merged(a: Attribute, op: Op, o: Object, values: Object, after: Object) {
    && (forall k :: Alone(values, k) ==> Get(after, k) == MemberResult(a, op, o, k, values[k]))
    && forall name: string :: !Mentions(values, name) ==> Get(after, name) == Get(o, name)
  }

  ghost predicate MemberRefused(a: Attribute, gate: bool, op: Op, o: Object, k: string, sent: Json) {
    Refused(SubAttribute(a, k), gate, Get(o, k), MemberResult(a, op, o, k, sent))
  }

  lemma MergeFieldGives(holder: Object, a: Attribute, gate: bool, op: Op, name: string, sent: Json)
    ensures var out := MergeField(holder, a, gate, op, name, sent);
            if MemberRefused(a, gate, op, holder, name, sent) then out == Err(NotMutable)
            else out == Ok(Set(holder, name, MemberResult(a, op, holder, name, sent)))
  {
    hide Fresh, Unique, Equal, Key, Resulting, Shaped, Appended;
    var sub := SubAttribute(a, name);
    var held := Get(holder, name);
    var shaped := Shaped(sub, sent);
    var v := if op == Add && sub.multi && held.List? then List(Fresh(sub, held.elements, ListOf(shaped))) else shaped;
    assert held == Held(holder, Key(holder, name));
    UnfreshedResult(sub, op, held, sent);
    assert Appended(held, v, op) == MemberResult(a, op, holder, name, sent);
  }

  lemma CountRest(order: seq<string>, k: string)
    requires order != []
    ensures multiset(order)[k] == (if order[0] == k then 1 else 0) + multiset(order[1..])[k]
  {
    assert order == [order[0]] + order[1..];
    assert multiset(order) == multiset{order[0]} + multiset(order[1..]);
  }

  // A member that is walked once gets its value then, and keeps it.
  lemma {:induction false} MergeWalkGives(holder: Object, a: Attribute, gate: bool, op: Op, values: Object,
                                          order: seq<string>, k: string)
    requires MergeWalk(holder, a, gate, op, values, order).Ok?
    requires Alone(values, k) && multiset(order)[k] <= 1
    ensures var after := MergeWalk(holder, a, gate, op, values, order).value;
            Get(after, k) ==
            if multiset(order)[k] == 1 then MemberResult(a, op, holder, k, values[k]) else Get(holder, k)
    decreases |order|
  {
    hide Get, Set, MergeField, MemberRefused, Resulting, SubAttribute;
    if order != [] {
      CountRest(order, k);
      var name := order[0];
      if name !in values {
        MergeWalkGives(holder, a, gate, op, values, order[1..], k);
      } else {
        MergeFieldGives(holder, a, gate, op, name, values[name]);
        var v := MemberResult(a, op, holder, name, values[name]);
        MergeWalkGives(Set(holder, name, v), a, gate, op, values, order[1..], k);
        if name == k {
          GetSetSame(holder, k, v);
        } else {
          GetSetOther(holder, name, v, k);
        }
      }
    }
  }

  lemma {:induction false} MergeWalkLeaves(holder: Object, a: Attribute, gate: bool, op: Op, values: Object,
                                           order: seq<string>, name: string)
    requires MergeWalk(holder, a, gate, op, values, order).Ok? && !Mentions(values, name)
    ensures Get(MergeWalk(holder, a, gate, op, values, order).value, name) == Get(holder, name)
    decreases |order|
  {
    hide Get, Set, MergeField, MemberRefused, Resulting, SubAttribute;
    if order != [] {
      if order[0] !in values {
        MergeWalkLeaves(holder, a, gate, op, values, order[1..], name);
      } else {
        var v := MemberResult(a, op, holder, order[0], values[order[0]]);
        MergeFieldGives(holder, a, gate, op, order[0], values[order[0]]);
        MergeWalkLeaves(Set(holder, order[0], v), a, gate, op, values, order[1..], name);
        GetSetOther(holder, order[0], v, name);
      }
    }
  }

  lemma MergeGives(holder: Object, a: Attribute, op: Op, values: Object, walk: Object -> seq<string>)
    requires EachOnce(walk) && Merge(holder, a, op, values, walk).Ok?
    ensures Merged(a, op, holder, values, Merge(holder, a, op, values, walk).value)
  {
    hide Get, MergeWalk, MemberResult;
    var gate := Gated(Some(a), holder);
    var after := Merge(holder, a, op, values, walk).value;
    forall k | Alone(values, k) ensures Get(after, k) == MemberResult(a, op, holder, k, values[k]) {
      MergeWalkGives(holder, a, gate, op, values, walk(values), k);
    }
    forall name: string | !Mentions(values, name) ensures Get(after, name) == Get(holder, name) {
      MergeWalkLeaves(holder, a, gate, op, values, walk(values), name);
    }
  }

  // ---- When a merge is refused ----

  ghost predicate Distinct(values: Object) {
    forall k :: k in values ==> Alone(values, k)
  }

  lemma OtherMemberSame(a: Attribute, gate: bool, op: Op, holder: Object, name: string, v: Json, k: string, sent: Json)
    requires !EqualFold(name, k)
    ensures MemberRefused(a, gate, op, Set(holder, name, v), k, sent) <==> MemberRefused(a, gate, op, holder, k, sent)
  {
    hide Get, Set, Refused, Resulting;
    GetSetOther(holder, name, v, k);
  }

  // The merge fails exactly when one of the members to be walked is refused by what the object holds at first.
  lemma {:induction false} MergeWalkRefused(holder: Object, a: Attribute, gate: bool, op: Op, values: Object,
                                            order: seq<string>)
    requires Distinct(values) && forall k :: multiset(order)[k] <= 1
    ensures var out := MergeWalk(holder, a, gate, op, values, order); out == Err(NotMutable) || out.Ok?
    ensures MergeWalk(holder, a, gate, op, values, order).Err? <==>
            exists k :: k in order && k in values && MemberRefused(a, gate, op, holder, k, values[k])
    decreases |order|
  {
    hide Get, Set, MergeField, MemberRefused, MemberResult;
    if order != [] {
      var name, rest := order[0], order[1..];
      forall k ensures multiset(rest)[k] <= 1 {
        CountRest(order, k);
      }
      CountRest(order, name);
      assert order == [name] + rest && name !in rest;
      if name !in values {
        MergeWalkRefused(holder, a, gate, op, values, rest);
      } else {
        MergeFieldGives(holder, a, gate, op, name, values[name]);
        if !MemberRefused(a, gate, op, holder, name, values[name]) {
          var v := MemberResult(a, op, holder, name, values[name]);
          MergeWalkRefused(Set(holder, name, v), a, gate, op, values, rest);
          forall k | k in rest && k in values
            ensures MemberRefused(a, gate, op, Set(holder, name, v), k, values[k]) <==>
                    MemberRefused(a, gate, op, holder, k, values[k])
          {
            assert !EqualFold(name, k);
            OtherMemberSame(a, gate, op, holder, name, v, k, values[k]);
          }
        }
      }
    }
  }

  lemma MergeRefused(holder: Object, a: Attribute, op: Op, values: Object, walk: Object -> seq<string>)
    requires EachOnce(walk) && Distinct(values)
    ensures var out := Merge(holder, a, op, values, walk);
            if exists k :: k in values && MemberRefused(a, Closed(a, holder), op, holder, k, values[k])
            then out == Err(NotMutable) else out.Ok?
  {
    hide MergeWalk, MemberRefused;
    MergeWalkRefused(holder, a, Gated(Some(a), holder), op, values, walk(values));
    forall k ensures k in walk(values) <==> k in values {
      assert k in walk(values) <==> multiset(walk(values))[k] > 0;
    }
  }

  // ---- One value, of whatever kind ----

  // An object sent to a complex attribute with one value is merged into what it holds.
  predicate Merges(a: Attribute, sent: Json) {
    sent.Obj? && a.kind == ComplexKind && !a.multi
  }

  ghost predicate ValueWritten(a: Attribute, op: Op, stored: seq<Json>, held: Json, sent: Json, after: Json) {
    if Merges(a, sent) then
      && (held == Null || held.Obj?) && after.Obj?
      && Merged(a, op, AsObject(held), sent.fields, after.fields)
    else Carried(a, op, stored, Resulting(a, op, held, sent), after)
  }

  lemma PutGives(holder: Object, t: Target, op: Op, sent: Json, stored: seq<Json>, walk: Object -> seq<string>)
    requires WriteKey(t) != "" && !IsListAdd(t, op) && EachOnce(walk)
    ensures var held := Get(holder, WriteKey(t));
            var gate := t.sub != "" && Closed(t.parent, holder);
            var out := Put(holder, t, op, sent, stored, walk);
            && (out.Ok? ==>
                  && SameBut(holder, out.value, WriteKey(t))
                  && ValueWritten(t.attr, op, stored, held, sent, Get(out.value, WriteKey(t))))
            && (!Merges(t.attr, sent) ==>
                  if Refused(t.attr, gate, held, Resulting(t.attr, op, held, sent)) then out == Err(NotMutable)
                  else out.Ok?)
  {
    hide Get, Set, Merge, PutValue, Refused, Carried, Resulting, Merged;
    var key := WriteKey(t);
    var held := Get(holder, key);
    if Merges(t.attr, sent) {
      if (held == Null || held.Obj?) && Merge(AsObject(held), t.attr, op, sent.fields, walk).Ok? {
        var merged := Merge(AsObject(held), t.attr, op, sent.fields, walk).value;
        MergeGives(AsObject(held), t.attr, op, sent.fields, walk);
        OneKeySet(holder, key, Obj(merged));
        OneKeySame(holder, key, Set(holder, key, Obj(merged)));
        GetSetSame(holder, key, Obj(merged));
      }
    } else {
      PutValueGives(holder, t, op, sent, stored);
    }
  }

  // ---- A whole attribute ----

  // Its "primary" reads true.
  ghost predicate Flagged(v: Json) {
    v.Obj? && Get(v.fields, "primary") == Bool(true)
  }

  // The flag reads false where it read true; nothing else is different.
  ghost predicate Unflagged(v: Json, after: Json) {
    if Flagged(v) then
      after.Obj? && SameBut(v.fields, after.fields, "primary") && Get(after.fields, "primary") == Bool(false)
    else after == v
  }

  lemma DemotedUnflags(v: Json)
    ensures Unflagged(v, Demoted(v))
  {
    hide Get, Set;
    if Flagged(v) {
      OneKeySet(v.fields, "primary", Bool(false));
      OneKeySame(v.fields, "primary", Set(v.fields, "primary", Bool(false)));
      GetSetSame(v.fields, "primary", Bool(false));
    }
  }

  // Someone among the new elements is primary. Of an attribute called "primary" the value itself is asked.
  ghost predicate TakesOver(key: string, multi: bool, sent: Json, gained: seq<Json>) {
    if EqualFold(key, "primary") then !multi && sent == Bool(true) else exists g :: g in gained && Flagged(g)
  }

  // The old elements, in order and without the flag if someone takes over, and then the new ones.
  ghost predicate Extended(was: seq<Json>, gained: seq<Json>, takesOver: bool, after: Json) {
    && after.List? && |after.elements| == |was| + |gained| && after.elements[|was|..] == gained
    && forall i :: 0 <= i < |was| ==>
         if takesOver then Unflagged(was[i], after.elements[i]) else after.elements[i] == was[i]
  }

  ghost predicate WholeWritten(t: Target, op: Op, sent: Json, held: Json, after: Json) {
    if op == Add && !Merges(t.attr, sent) && (t.attr.multi || held.List?) then
      var gained := if t.attr.multi then Gained(t.attr, ElementsAt(held), sent) else ListOf(sent);
      Extended(ElementsAt(held), gained, TakesOver(t.name, t.attr.multi, sent, gained), after)
    else ValueWritten(t.attr, op, ElementsAt(held), held, sent, after)
  }

  lemma {:induction false} FreshOfNothing(a: Attribute, list: seq<Json>)
    ensures Fresh(a, [], list) == list
  {
    if list != [] {
      FreshOfNothing(a, list[1..]);
    }
  }

  lemma ListAddResult(a: Attribute, held: Json, sent: Json)
    requires a.multi
    ensures Resulting(a, Add, held, sent) == List(ElementsAt(held) + Gained(a, ElementsAt(held), sent))
  {
    hide Unique, Fresh;
    if !held.List? {
      FreshOfNothing(a, ListOf(sent));
      assert ElementsAt(held) + Gained(a, [], sent) == Gained(a, [], sent);
    }
  }

  // The list that is added is put as it is.
  lemma ListAddPut(container: Object, t: Target, sent: Json, walk: Object -> seq<string>)
    requires IsListAdd(t, Add)
    ensures var held := Get(container, t.name);
            var result := Resulting(t.attr, Add, held, sent);
            var added := List(Fresh(t.attr, ElementsAt(held), ListOf(sent)));
            Put(container, t, Add, added, ElementsAt(held), walk) ==
            if Refused(t.attr, false, held, result) then Err(NotMutable) else Ok(Set(container, t.name, result))
  {
    hide Get, Set, Fresh, Unique, Equal, Resulting;
    var held := Get(container, t.name);
    ListAddResult(t.attr, held, sent);
    var gained := Gained(t.attr, ElementsAt(held), sent);
    assert [] + gained == gained;
    assert Appended(held, List(gained), Add) == Resulting(t.attr, Add, held, sent);
  }

  lemma UniquePrimary(a: Attribute, list: seq<Json>)
    ensures SomePrimary(List(list)) <==> exists g :: g in Unique(a, list) && Flagged(g)
  {
    hide SameElement, Get;
    if i :| 0 <= i < |list| && Primary(list[i]) {
      UniqueKeepsPrimary(a, list, list[i]);
      var k :| 0 <= k < |Unique(a, list)| && Primary(Unique(a, list)[k]) && StandsFor(a, Unique(a, list)[k], list[i]);
      assert Unique(a, list)[k] in Unique(a, list);
    } else {
      UniqueAddsNoPrimary(a, list);
    }
  }

  lemma DemoteExtends(t: Target, held: Json, gained: seq<Json>, takesOver: bool, list: seq<Json>)
    requires t.filter.None? && t.sub == "" && list == ElementsAt(held) + gained
    ensures var demoted := Demote(list, Written(t, ElementsAt(held), list, Add));
            Extended(ElementsAt(held), gained, takesOver, List(if takesOver then demoted else list))
  {
    hide Unflagged, Demoted;
    var was := ElementsAt(held);
    forall v: Json ensures Unflagged(v, Demoted(v)) {
      DemotedUnflags(v);
    }
    var demoted := Demote(list, Written(t, was, list, Add));
    assert demoted[|was|..] == gained;
    assert list[|was|..] == gained;
  }

  lemma ListAddGives(container: Object, t: Target, sent: Json, walk: Object -> seq<string>)
    requires IsListAdd(t, Add)
    ensures var held := Get(container, t.name);
            var out := WriteWhole(container, t, Add, sent, walk);
            if Refused(t.attr, false, held, Resulting(t.attr, Add, held, sent)) then out == Err(NotMutable)
            else out.Ok? && WholeWritten(t, Add, sent, held, Get(out.value, t.name))
  {
    hide Get, Set, Fresh, Refused, Resulting, Extended, Demote, Put, SomePrimary;
    var held := Get(container, t.name);
    var result := Resulting(t.attr, Add, held, sent);
    var candidates := Fresh(t.attr, ElementsAt(held), ListOf(sent));
    ListAddPut(container, t, sent, walk);
    ListAddResult(t.attr, held, sent);
    if !Refused(t.attr, false, held, result) {
      var gained := Gained(t.attr, ElementsAt(held), sent);
      var over := TakesOver(t.name, true, sent, gained);
      UniquePrimary(t.attr, candidates);
      assert Promotes(t.name, List(candidates)) <==> over;
      DemoteExtends(t, held, gained, over, result.elements);
      GetSetSame(container, t.name, result);
      var demoted := DemoteOthers(t, held, result, Add, List(candidates));
      SetTwice(container, t.name, result, demoted);
      GetSetSame(container, t.name, demoted);
    }
  }

  lemma ListedPrimary(sent: Json)
    ensures SomePrimary(sent) <==> exists g :: g in ListOf(sent) && Flagged(g)
  {
    hide Get;
    if sent.List? {
      if i :| 0 <= i < |sent.elements| && Primary(sent.elements[i]) {
        assert sent.elements[i] in ListOf(sent);
      }
    } else if Primary(sent) {
      assert sent in ListOf(sent);
    }
  }

  lemma AllWrittenSame(t: Target, held: Json, list: seq<Json>, op: Op)
    requires t.filter.None? && t.sub == "" && (op == Replace || ElementsAt(held) == [])
    ensures Demote(list, Written(t, ElementsAt(held), list, op)) == list
  {
  }

  // What demotion makes of the value that was put.
  lemma PutDemotes(t: Target, op: Op, sent: Json, held: Json, put: Json)
    requires t.filter.None? && t.sub == "" && !IsListAdd(t, op) && t.name != ""
    requires ValueWritten(t.attr, op, ElementsAt(held), held, sent, put)
    ensures var after := if Promotes(t.name, sent) && put.List? then DemoteOthers(t, held, put, op, sent) else put;
            WholeWritten(t, op, sent, held, after)
  {
    hide Extended, Demote, SomePrimary, ElementCarried, Merged;
    if op == Add && !Merges(t.attr, sent) && held.List? {
      var gained := ListOf(sent);
      ListedPrimary(sent);
      var over := TakesOver(t.name, false, sent, gained);
      assert over <==> Promotes(t.name, sent);
      DemoteExtends(t, held, gained, over, held.elements + gained);
    } else if put.List? {
      AllWrittenSame(t, held, put.elements, op);
    }
  }

  lemma WholeGives(container: Object, t: Target, op: Op, sent: Json, walk: Object -> seq<string>)
    requires t.filter.None? && t.sub == "" && t.name != "" && EachOnce(walk)
    ensures var held := Get(container, t.name);
            var out := WriteWhole(container, t, op, sent, walk);
            && (out.Ok? ==> WholeWritten(t, op, sent, held, Get(out.value, t.name)))
            && (!Merges(t.attr, sent) ==>
                  if Refused(t.attr, false, held, Resulting(t.attr, op, held, sent)) then out == Err(NotMutable)
                  else out.Ok?)
  {
    hide Get, Set, Fresh, Refused, Resulting, WholeWritten, Promotes, DemoteOthers, Put, ValueWritten;
    var held := Get(container, t.name);
    if IsListAdd(t, op) {
      ListAddGives(container, t, sent, walk);
    } else {
      PutGives(container, t, op, sent, ElementsAt(held), walk);
      var out := Put(container, t, op, sent, ElementsAt(held), walk);
      if out.Ok? {
        var put := Get(out.value, t.name);
        PutDemotes(t, op, sent, held, put);
        GetSetSame(out.value, t.name, DemoteOthers(t, held, put, op, sent));
      }
    }
  }

  // An object is merged exactly when there is none to merge it into but an object, and no member is refused.
  lemma MergeTaken(container: Object, t: Target, op: Op, sent: Json, walk: Object -> seq<string>)
    requires t.filter.None? && t.sub == "" && t.name != "" && EachOnce(walk)
    requires Merges(t.attr, sent) && Distinct(sent.fields)
    ensures var held := Get(container, t.name);
            var o := AsObject(held);
            var out := WriteWhole(container, t, op, sent, walk);
            if held != Null && !held.Obj? then out == Err(InvalidPath)
            else if exists k :: k in sent.fields && MemberRefused(t.attr, Closed(t.attr, o), op, o, k, sent.fields[k])
            then out == Err(NotMutable) else out.Ok?
  {
    hide Get, Set, Merge, MemberRefused, Distinct, Promotes, DemoteOthers;
    MergeRefused(AsObject(Get(container, t.name)), t.attr, op, sent.fields, walk);
  }

  // ---- A sub-attribute ----

  ghost predicate HolderWritten(t: Target, op: Op, stored: seq<Json>, sent: Json, o: Object, after: Object) {
    && SameBut(o, after, t.sub)
    && ValueWritten(t.attr, op, stored, Get(o, t.sub), sent, Get(after, t.sub))
  }

  ghost predicate SubWritten(t: Target, op: Op, sent: Json, held: Json, after: Json) {
    && !t.parent.multi && (held == Null || held.Obj?) && after.Obj?
    && HolderWritten(t, op, [], sent, AsObject(held), after.fields)
  }

  lemma SubGives(container: Object, t: Target, op: Op, sent: Json, walk: Object -> seq<string>)
    requires t.filter.None? && t.sub != "" && EachOnce(walk)
    ensures var held := Get(container, t.name);
            var out := WriteSub(container, t, op, sent, walk);
            var o := AsObject(held);
            && (out.Ok? ==> SubWritten(t, op, sent, held, Get(out.value, t.name)))
            && (t.parent.multi || (held != Null && !held.Obj?) ==> out == Err(InvalidPath))
            && (!t.parent.multi && (held == Null || held.Obj?) && !Merges(t.attr, sent) ==>
                  if Refused(t.attr, Closed(t.parent, o), Get(o, t.sub), Resulting(t.attr, op, Get(o, t.sub), sent))
                  then out == Err(NotMutable) else out.Ok?)
  {
    hide Get, Set, Put, Refused, Resulting, ValueWritten;
    var o := AsObject(Get(container, t.name));
    PutGives(o, t, op, sent, [], walk);
    if Put(o, t, op, sent, [], walk).Ok? {
      GetSetSame(container, t.name, Obj(Put(o, t, op, sent, [], walk).value));
    }
  }

  // ---- The elements a filter selects ----

  ghost predicate Chosen(t: Target, e: Json)
    requires t.filter.Some?
  {
    e.Obj? && t.filter.value(e)
  }

  // A selected object takes the members of the value, or the value under the sub-attribute.
  ghost predicate ElementWritten(t: Target, op: Op, stored: seq<Json>, sent: Json, e: Object, after: Object) {
    if t.sub == "" then sent.Obj? && Merged(t.parent, op, e, sent.fields, after)
    else HolderWritten(t, op, stored, sent, e, after)
  }

  // The list keeps its elements in order; the others lose the flag if the value that was sent takes over.
  ghost predicate FilteredWritten(t: Target, op: Op, sent: Json, held: Json, after: Json)
    requires t.filter.Some?
  {
    var was := ElementsAt(held);
    && after.List? && |after.elements| == |was|
    && forall i :: 0 <= i < |was| ==>
         if Chosen(t, was[i]) then
           after.elements[i].Obj? && ElementWritten(t, op, was, sent, was[i].fields, after.elements[i].fields)
         else if TakesOver(t.sub, false, sent, ListOf(sent)) then Unflagged(was[i], after.elements[i])
         else after.elements[i] == was[i]
  }

  lemma PutElementGives(e: Object, t: Target, op: Op, sent: Json, stored: seq<Json>, walk: Object -> seq<string>)
    requires t.filter.Some? && EachOnce(walk)
    ensures var out := Put(e, t, op, sent, stored, walk);
            && (out.Ok? ==> ElementWritten(t, op, stored, sent, e, out.value))
            && (t.sub != "" && !Merges(t.attr, sent) ==>
                  if Refused(t.attr, Closed(t.parent, e), Get(e, t.sub), Resulting(t.attr, op, Get(e, t.sub), sent))
                  then out == Err(NotMutable) else out.Ok?)
  {
    hide Get, Refused, Resulting, ValueWritten, Merge, PutValue, Merged;
    if t.sub == "" {
      if sent.Obj? && Merge(e, t.parent, op, sent.fields, walk).Ok? {
        MergeGives(e, t.parent, op, sent.fields, walk);
      }
    } else {
      PutGives(e, t, op, sent, stored, walk);
    }
  }

  ghost predicate RefusedAt(t: Target, op: Op, sent: Json, e: Json)
    requires t.filter.Some?
  {
    Chosen(t, e) &&
    Refused(t.attr, Closed(t.parent, e.fields), Get(e.fields, t.sub),
            Resulting(t.attr, op, Get(e.fields, t.sub), sent))
  }

  lemma {:induction false} PutSelectedGives(elements: seq<Json>, t: Target, op: Op, sent: Json, stored: seq<Json>,
                                            walk: Object -> seq<string>)
    requires t.filter.Some? && EachOnce(walk) && PutSelected(elements, t, op, sent, stored, walk).Ok?
    ensures var after := PutSelected(elements, t, op, sent, stored, walk).value;
            && |after| == |elements|
            && forall i :: 0 <= i < |elements| ==>
                 if Chosen(t, elements[i]) then
                   after[i].Obj? && ElementWritten(t, op, stored, sent, elements[i].fields, after[i].fields)
                 else after[i] == elements[i]
    decreases |elements|
  {
    hide Put, ElementWritten;
    if elements != [] {
      var e := elements[0];
      PutSelectedGives(elements[1..], t, op, sent, stored, walk);
      if Chosen(t, e) {
        PutElementGives(e.fields, t, op, sent, stored, walk);
      }
    }
  }

  // A value that replaces is refused exactly when one of the chosen elements refuses it.
  lemma {:induction false} PutSelectedRefused(elements: seq<Json>, t: Target, op: Op, sent: Json, stored: seq<Json>,
                                              walk: Object -> seq<string>)
    requires t.filter.Some? && EachOnce(walk) && t.sub != "" && !Merges(t.attr, sent)
    ensures var out := PutSelected(elements, t, op, sent, stored, walk);
            if exists i :: 0 <= i < |elements| && RefusedAt(t, op, sent, elements[i])
            then out == Err(NotMutable) else out.Ok?
    decreases |elements|
  {
    hide Put, Refused, Resulting, ElementWritten;
    if elements != [] {
      var e, rest := elements[0], elements[1..];
      assert elements == [e] + rest;
      PutSelectedRefused(rest, t, op, sent, stored, walk);
      if Chosen(t, e) {
        PutElementGives(e.fields, t, op, sent, stored, walk);
      }
      if i :| 0 <= i < |elements| && RefusedAt(t, op, sent, elements[i]) {
        if i > 0 {
          assert RefusedAt(t, op, sent, rest[i - 1]);
        }
      }
      if i :| 0 <= i < |rest| && RefusedAt(t, op, sent, rest[i]) {
        assert RefusedAt(t, op, sent, elements[i + 1]);
      }
    }
  }

  lemma SelectedPromotes(t: Target, sent: Json)
    requires t.filter.Some?
    ensures Promotes(WriteKey(t), sent) <==> TakesOver(t.sub, false, sent, ListOf(sent))
  {
    hide SomePrimary;
    ListedPrimary(sent);
  }

  lemma NotChosenUnflags(t: Target, v: Json)
    requires t.filter.Some? && !Chosen(t, v)
    ensures Unflagged(v, if Selected(t, v) then v else Demoted(v))
  {
    hide Demoted;
    DemotedUnflags(v);
  }

  lemma FilteredGives(container: Object, t: Target, op: Op, sent: Json, walk: Object -> seq<string>)
    requires t.filter.Some? && EachOnce(walk) && WriteFiltered(container, t, op, sent, walk).Ok?
    ensures FilteredWritten(t, op, sent, Get(container, t.name),
                            Get(WriteFiltered(container, t, op, sent, walk).value, t.name))
  {
    hide Get, Set, HoldsAny, Promotes, TakesOver, ElementWritten, PutSelected, Unflagged, Demoted;
    var held := Get(container, t.name);
    var was := ElementsAt(held);
    var put := PutSelected(was, t, op, sent, was, walk).value;
    var after := DemoteOthers(t, held, List(put), op, sent);
    PutSelectedGives(was, t, op, sent, was, walk);
    GetSetSame(container, t.name, after);
    SelectedPromotes(t, sent);
    forall i | 0 <= i < |was| && !Chosen(t, was[i])
      ensures if TakesOver(t.sub, false, sent, ListOf(sent)) then Unflagged(was[i], after.elements[i])
              else after.elements[i] == was[i]
    {
      NotChosenUnflags(t, was[i]);
    }
  }

  // Nothing selected is an error, and so is one selected element that refuses the value.
  lemma FilteredRefused(container: Object, t: Target, op: Op, sent: Json, walk: Object -> seq<string>)
    requires t.filter.Some? && EachOnce(walk)
    ensures var was := ElementsAt(Get(container, t.name));
            var out := WriteFiltered(container, t, op, sent, walk);
            if forall i :: 0 <= i < |was| ==> !Chosen(t, was[i]) then out == Err(NoTarget)
            else t.sub != "" && !Merges(t.attr, sent) ==>
              if exists i :: 0 <= i < |was| && RefusedAt(t, op, sent, was[i]) then out == Err(NotMutable) else out.Ok?
  {
    hide Get, Set, RefusedAt, DemoteOthers, PutSelected;
    var was := ElementsAt(Get(container, t.name));
    if t.sub != "" && !Merges(t.attr, sent) {
      PutSelectedRefused(was, t, op, sent, was, walk);
    }
  }
}
