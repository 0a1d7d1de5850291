// Dropping repeats from a list: what stays, in which order, and that no primary flag goes with a repeat
// (sections 2.4 of RFC 7643 and 3.5.2.1 of RFC 7644).
module PatchUnique {
  import opened PatchObject
  import opened PatchValue

  // The elements that nothing before them counts as.
  ghost function FirstOccurrences(a: Attribute, before: seq<Json>, list: seq<Json>): seq<Json>
    decreases |list|
  {
    if list == [] then []
    else (if Contains(a, before, list[0]) then [] else [list[0]]) + FirstOccurrences(a, before + [list[0]], list[1..])
  }

  // The same element, unless it was made primary.
  predicate SameOrPromoted(x: Json, y: Json) {
    y == x || (x.Obj? && y == Obj(x.fields["primary" := Bool(true)]))
  }

  predicate Pointwise(xs: seq<Json>, ys: seq<Json>) {
    |xs| == |ys| && forall i :: 0 <= i < |xs| ==> SameOrPromoted(xs[i], ys[i])
  }

  ghost predicate SameMembers(a: Attribute, xs: seq<Json>, ys: seq<Json>) {
    forall want :: Contains(a, xs, want) <==> Contains(a, ys, want)
  }

  ghost predicate NoRepeats(a: Attribute, list: seq<Json>) {
    forall j :: 0 <= j < |list| ==> !Contains(a, list[..j], list[j])
  }

  // An element of the result that stands for one of the list: itself, or the one it repeats.
  ghost predicate StandsFor(a: Attribute, kept: Json, v: Json) {
    kept == v || SameElement(a, kept, v)
  }

  ghost predicate HoldsPrimary(a: Attribute, kept: seq<Json>, v: Json) {
    exists k :: 0 <= k < |kept| && Primary(kept[k]) && StandsFor(a, kept[k], v)
  }

  // ---- Elements ----

  lemma PromotedSame(a: Attribute, v: Json, repeat: Json, want: Json)
    requires KeyedByIdentity(a)
    ensures SameElement(a, Promote(v, repeat), want) <==> SameElement(a, v, want)
    ensures SameOrPromoted(v, Promote(v, repeat))
    ensures Primary(v) || (v.Obj? && Primary(repeat)) ==> Primary(Promote(v, repeat))
  {
    hide Identity;
    if v.Obj? {
      PrimaryKeepsIdentity(a, v.fields, "primary", Bool(true));
    }
  }

  lemma SameTransitive(a: Attribute, x: Json, y: Json, z: Json)
    requires SameElement(a, x, y) && SameElement(a, y, z)
    ensures SameElement(a, x, z)
  {
    hide Identity, Equal;
    if !KeyedByIdentity(a) {
      EqualTransitive(a, x, y, z);
    }
  }

  lemma ContainsMore(a: Attribute, xs: seq<Json>, x: Json, want: Json)
    ensures Contains(a, xs + [x], want) <==> Contains(a, xs, want) || SameElement(a, x, want)
  {
    hide SameElement;
    var all := xs + [x];
    if Contains(a, xs, want) {
      var i :| 0 <= i < |xs| && SameElement(a, xs[i], want);
      assert all[i] == xs[i];
    }
    assert all[|xs|] == x;
  }

  lemma ContainsUpdated(a: Attribute, xs: seq<Json>, i: nat, v: Json, want: Json)
    requires i < |xs| && (SameElement(a, v, want) <==> SameElement(a, xs[i], want))
    ensures Contains(a, xs[i := v], want) <==> Contains(a, xs, want)
  {
    hide SameElement;
    var ys := xs[i := v];
    if Contains(a, xs, want) {
      var j :| 0 <= j < |xs| && SameElement(a, xs[j], want);
      assert SameElement(a, ys[j], want);
    }
    if Contains(a, ys, want) {
      var j :| 0 <= j < |ys| && SameElement(a, ys[j], want);
      assert SameElement(a, xs[j], want);
    }
  }

  // ---- One element admitted ----

  lemma AdmitMembers(a: Attribute, kept: seq<Json>, v: Json, want: Json)
    ensures Contains(a, Admit(a, kept, v), want) <==> Contains(a, kept, want) || SameElement(a, v, want)
  {
    hide SameElement;
    if !Contains(a, kept, v) {
      ContainsMore(a, kept, v, want);
    } else {
      var i := FirstSame(a, kept, v);
      if SameElement(a, v, want) {
        SameTransitive(a, kept[i], v, want);
      }
      if KeyedByIdentity(a) {
        PromotedSame(a, kept[i], v, want);
        ContainsUpdated(a, kept, i, Promote(kept[i], v), want);
      }
    }
  }

  lemma AdmitNoRepeats(a: Attribute, kept: seq<Json>, v: Json)
    requires NoRepeats(a, kept)
    ensures NoRepeats(a, Admit(a, kept, v))
  {
    hide SameElement, Contains;
    var after := Admit(a, kept, v);
    forall j | 0 <= j < |after| ensures !Contains(a, after[..j], after[j]) {
      if !Contains(a, kept, v) {
        assert after[..j] == if j < |kept| then kept[..j] else kept;
      } else if KeyedByIdentity(a) {
        var i := FirstSame(a, kept, v);
        PromotedRepeats(a, kept, i, v, j);
      } else {
        assert after == kept;
      }
    }
  }

  lemma PromotedRepeats(a: Attribute, kept: seq<Json>, i: nat, v: Json, j: nat)
    requires KeyedByIdentity(a) && i < |kept| && j < |kept|
    requires !Contains(a, kept[..j], kept[j])
    ensures var after := kept[i := Promote(kept[i], v)]; !Contains(a, after[..j], after[j])
  {
    hide SameElement;
    var after := kept[i := Promote(kept[i], v)];
    forall k | 0 <= k < j ensures !SameElement(a, after[k], after[j]) {
      assert kept[..j][k] == kept[k] && !SameElement(a, kept[k], kept[j]);
      PromotedSame(a, kept[i], v, after[j]);
      if j == i {
        PromotedWanted(a, kept[k], kept[i], v);
      }
    }
  }

  lemma PromotedWanted(a: Attribute, element: Json, v: Json, repeat: Json)
    requires KeyedByIdentity(a)
    ensures SameElement(a, element, Promote(v, repeat)) <==> SameElement(a, element, v)
  {
    hide Identity;
    if v.Obj? {
      PrimaryKeepsIdentity(a, v.fields, "primary", Bool(true));
    }
  }

  lemma AdmitPointwise(a: Attribute, kept: seq<Json>, v: Json)
    ensures Pointwise(if Contains(a, kept, v) then kept else kept + [v], Admit(a, kept, v))
  {
    hide SameElement, Contains;
    if Contains(a, kept, v) && KeyedByIdentity(a) {
      PromotedSame(a, kept[FirstSame(a, kept, v)], v, v);
    }
  }

  lemma AdmitPrimary(a: Attribute, kept: seq<Json>, v: Json, w: Json)
    requires HoldsPrimary(a, kept, w) || (w == v && Primary(v))
    ensures HoldsPrimary(a, Admit(a, kept, v), w)
  {
    hide SameElement, Contains, Primary;
    var after := Admit(a, kept, v);
    if HoldsPrimary(a, kept, w) {
      var k :| 0 <= k < |kept| && Primary(kept[k]) && StandsFor(a, kept[k], w);
      if !Contains(a, kept, v) {
        assert after[k] == kept[k];
      } else if KeyedByIdentity(a) && k == FirstSame(a, kept, v) {
        PromotedSame(a, kept[k], v, w);
        IdentifiedStands(a, kept[k], v, w);
        assert StandsFor(a, after[k], w);
      } else {
        assert after[k] == kept[k];
      }
    } else if !Contains(a, kept, v) {
      assert after[|kept|] == v;
    } else {
      var i := FirstSame(a, kept, v);
      if KeyedByIdentity(a) {
        PromotedSame(a, kept[i], v, v);
        SameAreObjects(a, kept[i], v);
        assert Primary(after[i]) && StandsFor(a, after[i], v);
      } else {
        EqualPrimary(a, kept[i], v);
      }
    }
  }

  lemma IdentifiedStands(a: Attribute, kept: Json, v: Json, w: Json)
    requires KeyedByIdentity(a) && SameElement(a, kept, v) && StandsFor(a, kept, w)
    ensures SameElement(a, kept, w)
  {
    hide Identity;
  }

  lemma SameAreObjects(a: Attribute, kept: Json, v: Json)
    requires KeyedByIdentity(a) && SameElement(a, kept, v)
    ensures kept.Obj?
  {
  }

  lemma EqualPrimary(a: Attribute, x: Json, y: Json)
    requires !KeyedByIdentity(a) && SameElement(a, x, y) && Primary(y)
    ensures Primary(x)
  {
  }

  // ---- A whole list admitted ----

  lemma {:induction false} AdmitAllMembers(a: Attribute, kept: seq<Json>, list: seq<Json>, want: Json)
    ensures Contains(a, AdmitAll(a, kept, list), want) <==> Contains(a, kept, want) || Contains(a, list, want)
    decreases |list|
  {
    hide SameElement, Admit;
    if list != [] {
      AdmitMembers(a, kept, list[0], want);
      AdmitAllMembers(a, Admit(a, kept, list[0]), list[1..], want);
      ContainsSplit(a, list, want);
    }
  }

  lemma ContainsSplit(a: Attribute, list: seq<Json>, want: Json)
    requires list != []
    ensures Contains(a, list, want) <==> SameElement(a, list[0], want) || Contains(a, list[1..], want)
  {
    hide SameElement;
    if Contains(a, list, want) {
      var i :| 0 <= i < |list| && SameElement(a, list[i], want);
      if i > 0 {
        assert list[1..][i - 1] == list[i];
      }
    }
    if Contains(a, list[1..], want) {
      var i :| 0 <= i < |list[1..]| && SameElement(a, list[1..][i], want);
      assert list[i + 1] == list[1..][i];
    }
  }

  lemma {:induction false} AdmitAllNoRepeats(a: Attribute, kept: seq<Json>, list: seq<Json>)
    requires NoRepeats(a, kept)
    ensures NoRepeats(a, AdmitAll(a, kept, list))
    decreases |list|
  {
    hide NoRepeats, Admit;
    if list != [] {
      AdmitNoRepeats(a, kept, list[0]);
      AdmitAllNoRepeats(a, Admit(a, kept, list[0]), list[1..]);
    }
  }

  lemma {:induction false} AdmitAllFirsts(a: Attribute, before: seq<Json>, kept: seq<Json>, list: seq<Json>)
    requires SameMembers(a, kept, before)
    ensures Pointwise(kept + FirstOccurrences(a, before, list), AdmitAll(a, kept, list))
    decreases |list|
  {
    hide Contains, SameElement, Admit;
    if list == [] {
      assert kept + [] == kept;
    } else {
      var v := list[0];
      var next := Admit(a, kept, v);
      forall want ensures Contains(a, next, want) <==> Contains(a, before + [v], want) {
        AdmitMembers(a, kept, v, want);
        ContainsMore(a, before, v, want);
      }
      AdmitAllFirsts(a, before + [v], next, list[1..]);
      AdmitPointwise(a, kept, v);
      var later := FirstOccurrences(a, before + [v], list[1..]);
      var start := if Contains(a, kept, v) then kept else kept + [v];
      PointwiseChain(start, next, later, AdmitAll(a, next, list[1..]));
      assert start + later == kept + FirstOccurrences(a, before, list);
    }
  }

  lemma PointwiseChain(xs: seq<Json>, ys: seq<Json>, later: seq<Json>, zs: seq<Json>)
    requires Pointwise(xs, ys) && Pointwise(ys + later, zs)
    ensures Pointwise(xs + later, zs)
  {
    forall i | 0 <= i < |xs + later| ensures SameOrPromoted((xs + later)[i], zs[i]) {
      assert SameOrPromoted((ys + later)[i], zs[i]);
      if i < |xs| {
        assert SameOrPromoted(xs[i], ys[i]);
      }
    }
  }

  lemma {:induction false} AdmitAllPrimary(a: Attribute, kept: seq<Json>, list: seq<Json>, w: Json)
    requires HoldsPrimary(a, kept, w) || (w in list && Primary(w))
    ensures HoldsPrimary(a, AdmitAll(a, kept, list), w)
    decreases |list|
  {
    hide HoldsPrimary, Admit, Primary;
    if list != [] {
      if HoldsPrimary(a, kept, w) || w == list[0] {
        AdmitPrimary(a, kept, list[0], w);
      }
      AdmitAllPrimary(a, Admit(a, kept, list[0]), list[1..], w);
    }
  }

  lemma {:induction false} AdmitAllNew(a: Attribute, kept: seq<Json>, list: seq<Json>)
    requires NoRepeats(a, kept + list)
    ensures AdmitAll(a, kept, list) == kept + list
    decreases |list|
  {
    hide Contains;
    if list != [] {
      assert (kept + list)[..|kept|] == kept && (kept + list)[|kept|] == list[0];
      assert kept + list == kept + [list[0]] + list[1..];
      AdmitAllNew(a, kept + [list[0]], list[1..]);
    } else {
      assert kept + list == kept;
    }
  }

  // ---- The guarantees ----

  // The first of every group of repeats stays, in the order of the list; at most it becomes primary.
  lemma UniqueKeepsFirsts(a: Attribute, list: seq<Json>)
    ensures Pointwise(FirstOccurrences(a, [], list), Unique(a, list))
  {
    hide SameElement;
    if |list| < 2 {
      if list != [] {
        assert FirstOccurrences(a, [] + [list[0]], list[1..]) == [];
        assert FirstOccurrences(a, [], list) == list;
      }
    } else {
      AdmitAllFirsts(a, [], [], list);
      assert [] + FirstOccurrences(a, [], list) == FirstOccurrences(a, [], list);
    }
  }

  lemma UniqueSameMembers(a: Attribute, list: seq<Json>)
    ensures NoRepeats(a, Unique(a, list)) && SameMembers(a, Unique(a, list), list)
  {
    hide SameElement;
    if |list| >= 2 {
      AdmitAllNoRepeats(a, [], list);
      forall want ensures Contains(a, Unique(a, list), want) <==> Contains(a, list, want) {
        AdmitAllMembers(a, [], list, want);
      }
    }
  }

  lemma UniqueIdempotent(a: Attribute, list: seq<Json>)
    ensures Unique(a, Unique(a, list)) == Unique(a, list)
  {
    hide NoRepeats, SameMembers;
    UniqueSameMembers(a, list);
    var once := Unique(a, list);
    assert [] + once == once;
    if |once| >= 2 {
      AdmitAllNew(a, [], once);
    }
  }

  // Whoever was primary is, or is stood for by someone who now is.
  lemma UniqueKeepsPrimary(a: Attribute, list: seq<Json>, w: Json)
    requires w in list && Primary(w)
    ensures HoldsPrimary(a, Unique(a, list), w)
  {
    hide Primary, SameElement;
    if |list| >= 2 {
      AdmitAllPrimary(a, [], list, w);
    } else {
      assert list[0] == w && StandsFor(a, list[0], w);
    }
  }

  // Nor does anyone become primary when nobody was.
  lemma UniqueAddsNoPrimary(a: Attribute, list: seq<Json>)
    requires forall i :: 0 <= i < |list| ==> !Primary(list[i])
    ensures forall i :: 0 <= i < |Unique(a, list)| ==> !Primary(Unique(a, list)[i])
  {
    if |list| >= 2 {
      AdmitAllAddsNoPrimary(a, [], list);
    }
  }

  lemma {:induction false} AdmitAllAddsNoPrimary(a: Attribute, kept: seq<Json>, list: seq<Json>)
    requires forall i :: 0 <= i < |list| ==> !Primary(list[i])
    requires forall i :: 0 <= i < |kept| ==> !Primary(kept[i])
    ensures forall i :: 0 <= i < |AdmitAll(a, kept, list)| ==> !Primary(AdmitAll(a, kept, list)[i])
    decreases |list|
  {
    hide Primary, Contains, SameElement;
    if list != [] {
      assert forall v: Json :: Promote(v, list[0]) == v || Primary(list[0]) by {
        NotPromoted(list[0]);
      }
      AdmitAllAddsNoPrimary(a, Admit(a, kept, list[0]), list[1..]);
    }
  }

  lemma NotPromoted(repeat: Json)
    requires !Primary(repeat)
    ensures forall v: Json :: Promote(v, repeat) == v
  {
  }

  // ---- Leaving out what a list holds already ----

  // Of the candidates, exactly those that the list does not hold are left, each as often as it was sent.
  lemma {:induction false} FreshExactly(a: Attribute, elements: seq<Json>, candidates: seq<Json>, v: Json)
    ensures multiset(Fresh(a, elements, candidates))[v] ==
            if Contains(a, elements, v) then 0 else multiset(candidates)[v]
  {
    hide Contains;
    if candidates != [] {
      var c, rest := candidates[0], candidates[1..];
      FreshExactly(a, elements, rest, v);
      assert candidates == [c] + rest;
      assert multiset(candidates) == multiset{c} + multiset(rest);
      var first := if Contains(a, elements, c) then [] else [c];
      assert multiset(Fresh(a, elements, candidates)) == multiset(first) + multiset(Fresh(a, elements, rest));
    }
  }

  lemma {:induction false} FreshAppend(a: Attribute, elements: seq<Json>, xs: seq<Json>, ys: seq<Json>)
    ensures Fresh(a, elements, xs + ys) == Fresh(a, elements, xs) + Fresh(a, elements, ys)
  {
    hide Contains;
    if xs == [] {
      assert xs + ys == ys;
    } else {
      assert (xs + ys)[1..] == xs[1..] + ys;
      FreshAppend(a, elements, xs[1..], ys);
    }
  }

  // Two of a kind are held alike.
  lemma HeldAlike(a: Attribute, elements: seq<Json>, x: Json, y: Json)
    requires SameElement(a, x, y)
    ensures Contains(a, elements, x) <==> Contains(a, elements, y)
  {
    hide SameElement;
    forall v: Json ensures SameElement(a, v, x) <==> SameElement(a, v, y) {
      SameWanted(a, v, x, y);
    }
  }

  lemma SameWanted(a: Attribute, v: Json, x: Json, y: Json)
    requires SameElement(a, x, y)
    ensures SameElement(a, v, x) <==> SameElement(a, v, y)
  {
    hide Identity, Equal;
    if !KeyedByIdentity(a) {
      EqualSymmetric(a, x, y);
      if Equal(a, v, x) {
        EqualTransitive(a, v, x, y);
      }
      if Equal(a, v, y) {
        EqualTransitive(a, v, y, x);
      }
    }
  }

  lemma EqualSymmetric(a: Attribute, x: Json, y: Json)
    requires Equal(a, x, y)
    ensures Equal(a, y, x)
  {
  }

  lemma PromotedHeld(a: Attribute, elements: seq<Json>, v: Json, repeat: Json)
    requires KeyedByIdentity(a)
    ensures Contains(a, elements, Promote(v, repeat)) <==> Contains(a, elements, v)
  {
    hide SameElement, Promote;
    forall e: Json ensures SameElement(a, e, Promote(v, repeat)) <==> SameElement(a, e, v) {
      PromotedWanted(a, e, v, repeat);
    }
  }

  lemma FreshAround(a: Attribute, elements: seq<Json>, before: seq<Json>, v: Json, later: seq<Json>)
    ensures Fresh(a, elements, before + [v] + later) ==
            Fresh(a, elements, before) + (if Contains(a, elements, v) then [] else [v]) + Fresh(a, elements, later)
  {
    hide Contains;
    FreshAppend(a, elements, before + [v], later);
    FreshAppend(a, elements, before, [v]);
    FreshOne(a, elements, v);
  }

  // Promoting the first of a kind and leaving out what is held can change places.
  lemma FreshPromoted(a: Attribute, elements: seq<Json>, kept: seq<Json>, v: Json)
    requires KeyedByIdentity(a) && Contains(a, kept, v)
    ensures var i := FirstSame(a, kept, v);
            var after := Fresh(a, elements, kept[i := Promote(kept[i], v)]);
            var left := Fresh(a, elements, kept);
            if Contains(a, elements, v) then after == left
            else Contains(a, left, v) &&
                 after == left[FirstSame(a, left, v) := Promote(left[FirstSame(a, left, v)], v)]
  {
    hide SameElement, Contains, Promote, Fresh, FirstSame;
    var i := FirstSame(a, kept, v);
    var x, w := kept[i], Promote(kept[i], v);
    var before, later := kept[..i], kept[i + 1..];
    HeldAlike(a, elements, x, v);
    PromotedHeld(a, elements, x, v);
    assert kept == before + [x] + later && kept[i := w] == before + [w] + later;
    FreshAround(a, elements, before, x, later);
    FreshAround(a, elements, before, w, later);
    if !Contains(a, elements, v) {
      var front, back := Fresh(a, elements, before), Fresh(a, elements, later);
      NoneSame(a, elements, before, v);
      FirstIs(a, front + [x] + back, |front|, v);
      assert (front + [x] + back)[|front| := w] == front + [w] + back;
    }
  }

  lemma FreshOne(a: Attribute, elements: seq<Json>, v: Json)
    ensures Fresh(a, elements, [v]) == if Contains(a, elements, v) then [] else [v]
  {
    assert [v][1..] == [];
  }

  lemma {:induction false} NoneSame(a: Attribute, elements: seq<Json>, list: seq<Json>, v: Json)
    requires forall j :: 0 <= j < |list| ==> !SameElement(a, list[j], v)
    ensures forall j :: 0 <= j < |Fresh(a, elements, list)| ==> !SameElement(a, Fresh(a, elements, list)[j], v)
  {
    hide SameElement, Contains;
    if list != [] {
      NoneSame(a, elements, list[1..], v);
    }
  }

  lemma FirstIs(a: Attribute, list: seq<Json>, i: nat, v: Json)
    requires i < |list| && SameElement(a, list[i], v)
    requires forall j :: 0 <= j < i ==> !SameElement(a, list[j], v)
    ensures Contains(a, list, v) && FirstSame(a, list, v) == i
  {
    hide SameElement;
  }

  lemma {:induction false} FreshContains(a: Attribute, elements: seq<Json>, list: seq<Json>, v: Json)
    requires !Contains(a, elements, v)
    ensures Contains(a, Fresh(a, elements, list), v) <==> Contains(a, list, v)
  {
    hide SameElement;
    if list != [] {
      FreshContains(a, elements, list[1..], v);
      ContainsSplit(a, list, v);
      if SameElement(a, list[0], v) {
        HeldAlike(a, elements, list[0], v);
      }
      if !Contains(a, elements, list[0]) {
        ContainsSplit(a, Fresh(a, elements, list), v);
        assert Fresh(a, elements, list)[1..] == Fresh(a, elements, list[1..]);
      } else {
        assert Fresh(a, elements, list) == Fresh(a, elements, list[1..]);
      }
    }
  }

  lemma FreshAdmit(a: Attribute, elements: seq<Json>, kept: seq<Json>, v: Json)
    ensures Fresh(a, elements, Admit(a, kept, v)) ==
            if Contains(a, elements, v) then Fresh(a, elements, kept) else Admit(a, Fresh(a, elements, kept), v)
  {
    hide SameElement, Contains, Promote;
    FreshAppend(a, elements, kept, [v]);
    FreshOne(a, elements, v);
    if Contains(a, kept, v) && KeyedByIdentity(a) {
      FreshPromoted(a, elements, kept, v);
    }
    if !Contains(a, elements, v) {
      FreshContains(a, elements, kept, v);
    }
  }

  lemma {:induction false} FreshAdmitAll(a: Attribute, elements: seq<Json>, kept: seq<Json>, list: seq<Json>)
    ensures Fresh(a, elements, AdmitAll(a, kept, list)) ==
            AdmitAll(a, Fresh(a, elements, kept), Fresh(a, elements, list))
    decreases |list|
  {
    hide Contains, Admit;
    if list != [] {
      FreshAdmitAll(a, elements, Admit(a, kept, list[0]), list[1..]);
      var left := Fresh(a, elements, list[1..]);
      assert ([list[0]] + left)[1..] == left && [] + left == left;
      FreshAdmit(a, elements, kept, list[0]);
    }
  }

  lemma UniqueIsAdmitAll(a: Attribute, list: seq<Json>)
    ensures Unique(a, list) == AdmitAll(a, [], list)
  {
    if |list| == 1 {
      assert Admit(a, [], list[0]) == [list[0]] == list;
      assert AdmitAll(a, list, list[1..]) == list;
    }
  }

  // Leaving out what is held and dropping repeats can be done in either order.
  lemma FreshOfUnique(a: Attribute, elements: seq<Json>, list: seq<Json>)
    ensures Fresh(a, elements, Unique(a, list)) == Unique(a, Fresh(a, elements, list))
  {
    hide Unique, Contains;
    UniqueIsAdmitAll(a, list);
    UniqueIsAdmitAll(a, Fresh(a, elements, list));
    FreshAdmitAll(a, elements, [], list);
  }
}
