// JSON values, and objects whose attribute names are case insensitive (section 2.1 of RFC 7643).
module PatchObject {
  import opened Text

  datatype Json =
    | Null
    | Bool(flag: bool)
    | Num(digits: string)
    | Str(text: string)
    | List(elements: seq<Json>)
    | Obj(fields: Object)

  type Object = map<string, Json>

  ghost function Matches(o: Object, name: string): set<string> {
    set k | k in o && EqualFold(k, name)
  }

  // The key a name stands for: itself if it is there, else the least one equal to it under folding, else itself.
  ghost function Key(o: Object, name: string): (k: string)
    ensures EqualFold(k, name)
    ensures k in o || (k == name && Matches(o, name) == {})
  {
    if name in o || Matches(o, name) == {} then
      assert name in o ==> name in Matches(o, name);
      name
    else
      LeastExists(Matches(o, name));
      var least :| IsLeast(Matches(o, name), least);
      least
  }

  function Held(o: Object, key: string): Json {
    if key in o then o[key] else Null
  }

  ghost function Get(o: Object, name: string): Json {
    Held(o, Key(o, name))
  }

  ghost predicate Has(o: Object, name: string) {
    Key(o, name) in o
  }

  ghost function Set(o: Object, name: string, value: Json): Object {
    o[Key(o, name) := value]
  }

  ghost function Remove(o: Object, name: string): Object {
    o - {Key(o, name)}
  }

  // ---- Laws ----

  // A key depends only on which keys equal to the name under folding are there.
  lemma KeyDepends(o: Object, p: Object, name: string)
    requires Matches(o, name) == Matches(p, name)
    ensures Key(o, name) == Key(p, name)
  {
    assert name in o <==> name in Matches(o, name);
    assert name in p <==> name in Matches(p, name);
    if name !in o && Matches(o, name) != {} {
      LeastExists(Matches(o, name));
      KeyIsLeast(o, name);
      KeyIsLeast(p, name);
      LeastUnique(Matches(o, name), Key(o, name), Key(p, name));
    }
  }

  lemma KeyIsLeast(o: Object, name: string)
    requires name !in o && Matches(o, name) != {}
    ensures IsLeast(Matches(o, name), Key(o, name))
  {
    LeastExists(Matches(o, name));
  }

  lemma GetOther(o: Object, key: string, value: Json, name: string)
    requires !EqualFold(key, name)
    ensures Get(o[key := value], name) == Get(o, name)
    ensures Key(o[key := value], name) == Key(o, name)
  {
    assert Matches(o[key := value], name) == Matches(o, name);
    KeyDepends(o, o[key := value], name);
  }

  lemma GetSetOther(o: Object, n: string, value: Json, name: string)
    requires !EqualFold(n, name)
    ensures Get(Set(o, n, value), name) == Get(o, name)
    ensures Has(Set(o, n, value), name) == Has(o, name)
  {
    GetOther(o, Key(o, n), value, name);
  }

  lemma GetSetSame(o: Object, name: string, value: Json)
    ensures Get(Set(o, name, value), name) == value
  {
    var k := Key(o, name);
    if k in o {
      assert Matches(Set(o, name, value), name) == Matches(o, name);
      KeyDepends(o, Set(o, name, value), name);
    } else {
      assert name in Set(o, name, value);
    }
  }

  // Reading a name back under another spelling: it stands for the written key, and held what that key
  // held, or it stands for a different one, whose value is what it was.
  lemma GetSetFold(o: Object, n: string, value: Json, name: string)
    requires EqualFold(n, name)
    ensures (Get(Set(o, n, value), name) == value && Get(o, name) == Get(o, n))
         || Get(Set(o, n, value), name) == Get(o, name)
  {
    var k := Key(o, n);
    var o' := Set(o, n, value);
    if k in o {
      assert Matches(o', name) == Matches(o, name);
      KeyDepends(o, o', name);
    } else {
      assert Matches(o, name) == Matches(o, n) == {};
      assert Matches(o', name) == {n};
      assert Key(o', name) in Matches(o', name);
    }
  }

  lemma GetRemoveFold(o: Object, n: string, name: string)
    requires EqualFold(n, name)
    ensures Get(Remove(o, n), name) == Get(o, name) || Get(o, name) == Get(o, n)
  {
    var k := Key(o, n);
    if k != Key(o, name) && k in o {
      var o' := Remove(o, n);
      assert Matches(o', name) == Matches(o, name) - {k} && k in Matches(o, name);
      if name in o {
      } else {
        KeyIsLeast(o, name);
        assert Key(o, name) in Matches(o', name);
        KeyIsLeast(o', name);
        LeastUnique(Matches(o', name), Key(o, name), Key(o', name));
      }
    }
  }

  lemma GetRemoveOther(o: Object, n: string, name: string)
    requires !EqualFold(n, name)
    ensures Get(Remove(o, n), name) == Get(o, name)
  {
    assert Matches(Remove(o, n), name) == Matches(o, name);
    KeyDepends(o, Remove(o, n), name);
  }

  lemma SetTwice(o: Object, name: string, v: Json, w: Json)
    ensures Set(Set(o, name, v), name, w) == Set(o, name, w)
  {
    var p := Set(o, name, v);
    if Key(o, name) in o {
      assert Matches(p, name) == Matches(o, name);
      KeyDepends(o, p, name);
    }
  }

  // ---- The search ----

  // The least match so far is kept; "" stands for none, since only an exact match is empty.
  method KeyOf(o: Object, name: string) returns (k: string)
    ensures k == Key(o, name)
  {
    if name in o {
      return name;
    }
    var found := "";
    var rest := o.Keys;
    while rest != {}
      invariant rest <= o.Keys
      invariant found == "" ==> Matches(o, name) <= rest
      invariant found != "" ==> found in Matches(o, name) - rest
      invariant found != "" ==> forall k :: k in Matches(o, name) - rest ==> k == found || Less(found, k)
      decreases |rest|
    {
      var candidate :| candidate in rest;
      rest := rest - {candidate};
      if EqualFold(candidate, name) {
        assert candidate in Matches(o, name) && candidate != "";
        if found == "" || Less(candidate, found) {
          Earlier(Matches(o, name) - rest - {candidate}, candidate, found);
          found := candidate;
        } else {
          LessTotal(candidate, found);
        }
      }
    }
    if found != "" {
      KeyIsLeast(o, name);
      LeastUnique(Matches(o, name), found, Key(o, name));
    }
    k := if found == "" then name else found;
  }

  // Whatever comes before the least of a set comes before all of it.
  lemma Earlier(s: set<string>, candidate: string, found: string)
    requires found != "" ==> Less(candidate, found) && forall k :: k in s ==> k == found || Less(found, k)
    requires found == "" ==> s == {}
    ensures forall k :: k in s ==> Less(candidate, k)
  {
    forall k | k in s ensures Less(candidate, k) {
      if k != found {
        LessTransitive(candidate, found, k);
      }
    }
  }

  method GetOf(o: Object, name: string) returns (v: Json)
    ensures v == Get(o, name)
  {
    var k := KeyOf(o, name);
    v := Held(o, k);
  }
}
