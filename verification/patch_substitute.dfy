// Replacing or dropping the values a filter selects, in the array that holds them.
module PatchSubstitute {
  import opened PatchObject
  import opened PatchValue
  import opened PatchEngine

  function Unmatched(elements: seq<Json>, matched: seq<bool>): seq<Json>
    requires |elements| == |matched|
  {
    if elements == [] then []
    else (if matched[0] then [] else [elements[0]]) + Unmatched(elements[1..], matched[1..])
  }

  // Once the new value is placed, or if nothing matches, only the unmatched elements are left.
  lemma {:induction false} SubstitutePlaced(elements: seq<Json>, matched: seq<bool>, incoming: Json, placed: bool)
    requires |elements| == |matched|
    requires placed || true !in matched
    ensures Substitute(elements, matched, incoming, placed) == Unmatched(elements, matched)
    decreases |elements|
  {
    if elements != [] {
      SubstitutePlaced(elements[1..], matched[1..], incoming, placed);
    }
  }

  // Otherwise it stands where the first match stood, between the unmatched elements before and after.
  lemma {:induction false} SubstituteAtFirst(elements: seq<Json>, matched: seq<bool>, incoming: Json, first: nat)
    requires |elements| == |matched| && first < |matched| && matched[first]
    requires forall j :: 0 <= j < first ==> !matched[j]
    ensures Substitute(elements, matched, incoming, false) ==
            elements[..first] + [incoming] + Unmatched(elements[first + 1..], matched[first + 1..])
    decreases first
  {
    if first == 0 {
      SubstitutePlaced(elements[1..], matched[1..], incoming, true);
    } else {
      SubstituteAtFirst(elements[1..], matched[1..], incoming, first - 1);
      assert elements[1..][first..] == elements[first + 1..] && matched[1..][first..] == matched[first + 1..];
      assert elements[..first] == [elements[0]] + elements[1..][..first - 1];
    }
  }

  method KeepsIn(a: Attribute, elements: array<Json>, matched: seq<bool>, incoming: Json) returns (keeps: bool)
    requires |matched| == elements.Length
    ensures keeps == Keeps(a, elements[..], matched, incoming)
  {
    hide Equal;
    for i := 0 to elements.Length
      invariant forall j :: 0 <= j < i && !matched[j] ==> !Equal(a, elements[j], incoming)
    {
      if !matched[i] && Equal(a, elements[i], incoming) {
        assert elements[..][i] == elements[i];
        return true;
      }
    }
    keeps := false;
  }

  // The result overwrites the very array it is read from, unless the attribute is immutable: then the old
  // values are still needed, and a new array is used.
  method SubstituteIn(a: Attribute, elements: array<Json>, matched: seq<bool>, incoming: Json)
    returns (after: array<Json>, length: nat)
    requires |matched| == elements.Length
    modifies elements
    ensures length <= after.Length
    ensures after[..length] == Substitute(old(elements[..]), matched, incoming,
                                          incoming == Null || Keeps(a, old(elements[..]), matched, incoming))
    ensures if a.mutability == Immutable then fresh(after) && elements[..] == old(elements[..])
            else after == elements && elements[length..] == old(elements[length..])
  {
    hide Keeps, Equal, Substitute;
    after := elements;
    if a.mutability == Immutable {
      after := new Json[elements.Length](_ => Null);
    }
    length := 0;
    var keeps := KeepsIn(a, elements, matched, incoming);
    var placed := incoming == Null || keeps;
    ghost var was, start := elements[..], placed;
    AllLeft(was, matched, incoming, start);
    assert after[..0] == [];
    for i := 0 to elements.Length
      invariant length <= i && after.Length == elements.Length
      invariant if a.mutability == Immutable then fresh(after) && elements[..] == was
                else after == elements && elements[..][length..] == was[length..]
      invariant Left(was, matched, incoming, start, i, after[..length], placed)
    {
      var element := elements[i];
      assert element == was[i] && elements[length + 1..] == was[length + 1..] by {
        TailSame(elements[..], was, length, i);
      }
      OneLess(was, matched, incoming, start, i, after[..length], placed);
      if !matched[i] {
        Append(after, length, element);
        length := length + 1;
      } else if !placed {
        Append(after, length, incoming);
        length := length + 1;
        placed := true;
      }
    }
    NoneLeft(was, matched, incoming, start, after[..length], placed);
  }

  lemma TailSame(now: seq<Json>, was: seq<Json>, length: nat, i: nat)
    requires length <= i < |now| == |was| && now[length..] == was[length..]
    ensures now[i] == was[i] && now[length + 1..] == was[length + 1..]
  {
    assert now[length..][i - length] == was[length..][i - length];
    assert now[length + 1..] == now[length..][1..] && was[length + 1..] == was[length..][1..];
  }

  method Append(after: array<Json>, length: nat, v: Json)
    requires length < after.Length
    modifies after
    ensures after[..length + 1] == old(after[..length]) + [v]
    ensures after[length + 1..] == old(after[length + 1..])
  {
    after[length] := v;
  }

  // What is done by position i, and what is left of the list and still to do.
  ghost predicate Left(was: seq<Json>, matched: seq<bool>, incoming: Json, start: bool, i: nat, done: seq<Json>,
                       placed: bool)
  {
    && |was| == |matched| && i <= |was|
    && Substitute(was, matched, incoming, start) == done + Substitute(was[i..], matched[i..], incoming, placed)
  }

  lemma AllLeft(was: seq<Json>, matched: seq<bool>, incoming: Json, start: bool)
    requires |was| == |matched|
    ensures Left(was, matched, incoming, start, 0, [], start)
  {
    assert was[0..] == was && matched[0..] == matched;
  }

  lemma OneLess(was: seq<Json>, matched: seq<bool>, incoming: Json, start: bool, i: nat, done: seq<Json>, placed: bool)
    requires Left(was, matched, incoming, start, i, done, placed) && i < |was|
    ensures if !matched[i] then Left(was, matched, incoming, start, i + 1, done + [was[i]], placed)
            else if placed then Left(was, matched, incoming, start, i + 1, done, placed)
            else Left(was, matched, incoming, start, i + 1, done + [incoming], true)
  {
    assert was[i..][1..] == was[i + 1..] && matched[i..][1..] == matched[i + 1..];
    var v := if !matched[i] then was[i] else incoming;
    var later := Substitute(was[i + 1..], matched[i + 1..], incoming, placed || matched[i]);
    assert done + ([v] + later) == done + [v] + later;
  }

  lemma NoneLeft(was: seq<Json>, matched: seq<bool>, incoming: Json, start: bool, done: seq<Json>, placed: bool)
    requires Left(was, matched, incoming, start, |was|, done, placed)
    ensures Substitute(was, matched, incoming, start) == done
  {
    assert done + [] == done;
  }

  // The gate that follows reads the array again, and still sees the values from before the write.
  method RewriteIn(a: Attribute, elements: array<Json>, matched: seq<bool>, incoming: Json)
    returns (ok: bool, after: array<Json>, length: nat)
    requires |matched| == elements.Length
    modifies elements
    ensures length <= after.Length
    ensures after[..length] == Substitute(old(elements[..]), matched, incoming,
                                          incoming == Null || Keeps(a, old(elements[..]), matched, incoming))
    ensures ok == Writable(a, List(old(elements[..])), List(after[..length]))
  {
    hide Keeps, Equal, Substitute;
    after, length := SubstituteIn(a, elements, matched, incoming);
    ok := Writable(a, List(elements[..]), List(after[..length]));
  }
}
