// The two derived indexes of the store and what it means for them to agree with a scan of the entries.
module StoreIndex {
  import opened StoreTypes
  import opened StoreSpec
  import opened StoreInvariants

  // An id without an inner map has no inbound edges.
  function Into(inbound: Inbound, t: Id): set<Edge> {
    if t in inbound then inbound[t] else {}
  }

  // An edge is recorded at t exactly when its source is stored with t among the targets of its attribute.
  ghost predicate InboundExact(es: Entries, inbound: Inbound) {
    forall t, s, a :: Edge(s, a) in Into(inbound, t) <==> s in es && t in TargetsOf(es[s].links, a)
  }

  // A key is held exactly by the resource whose body has it.
  ghost predicate UniqueExact(es: Entries, unique: UniqueIndex) {
    && (forall k :: k in unique ==> unique[k] in es && k in EntryKeys(es[unique[k]]))
    && (forall id, k :: id in es && k in EntryKeys(es[id]) ==> k in unique && unique[k] == id)
  }

  // The edges the links of one source put at t.
  ghost function EdgesInto(source: Id, links: seq<Link>, t: Id): set<Edge> {
    set l | l in links && t in l.targets :: Edge(source, l.attribute)
  }

  lemma EdgesIntoIff(source: Id, links: seq<Link>, t: Id)
    requires DistinctNames(links)
    ensures forall s, a :: Edge(s, a) in EdgesInto(source, links, t) <==> s == source && t in TargetsOf(links, a)
  {
    forall s, a ensures Edge(s, a) in EdgesInto(source, links, t) <==> s == source && t in TargetsOf(links, a) {
      TargetsOfIff(links, a, t);
    }
  }

  // Answering from the index is answering by scanning every other resource.
  lemma ConflictIsScan(es: Entries, unique: UniqueIndex, id: Id, keys: set<Key>)
    requires UniqueExact(es, unique)
    ensures (forall k :: k in keys && k in unique ==> unique[k] == id) <==> KeysFree(es, id, keys)
  {
    if forall k :: k in keys && k in unique ==> unique[k] == id {
      forall other | other in es && other != id ensures EntryKeys(es[other]) !! keys {
        forall k | k in EntryKeys(es[other]) ensures k !in keys {
          assert k in unique && unique[k] == other;
        }
      }
    }
  }

  // With both indexes exact, no two resources hold one key.
  lemma UniqueExactDisjoint(es: Entries, unique: UniqueIndex)
    requires UniqueExact(es, unique)
    ensures KeysDisjoint(es)
  {
    forall a, b | a in es && b in es && a != b ensures EntryKeys(es[a]) !! EntryKeys(es[b]) {
      forall k | k in EntryKeys(es[a]) ensures k !in EntryKeys(es[b]) {
        assert unique[k] == a;
      }
    }
  }

  // ---- Exactness through a write ----

  lemma WriteKeepsInbound(es: Entries, inbound: Inbound, inbound': Inbound, id: Id, next: Entry)
    requires InboundExact(es, inbound)
    requires DistinctNames(LinksAt(es, id)) && DistinctNames(next.links)
    requires forall t ::
               Into(inbound', t) == Into(inbound, t) - EdgesInto(id, LinksAt(es, id), t) + EdgesInto(id, next.links, t)
    ensures InboundExact(es[id := next], inbound')
  {
    forall t, s, a
      ensures Edge(s, a) in Into(inbound', t) <==>
              s in es[id := next] && t in TargetsOf(es[id := next][s].links, a)
    {
      EdgesIntoIff(id, LinksAt(es, id), t);
      EdgesIntoIff(id, next.links, t);
      assert Edge(s, a) in Into(inbound, t) <==> s in es && t in TargetsOf(es[s].links, a);
    }
  }

  lemma TouchKeepsIndexes(es: Entries, es': Entries, touched: iset<Id>, unique: UniqueIndex, inbound: Inbound)
    requires Touched(es, es', touched) && UniqueExact(es, unique) && InboundExact(es, inbound)
    ensures UniqueExact(es', unique) && InboundExact(es', inbound)
  {
    forall id | id in es ensures EntryKeys(es'[id]) == EntryKeys(es[id]) {}
  }

  lemma WriteKeepsUnique(es: Entries, unique: UniqueIndex, unique': UniqueIndex, id: Id, next: Entry)
    requires UniqueExact(es, unique) && KeysFree(es, id, EntryKeys(next))
    requires forall k :: k in unique' <==>
             k in EntryKeys(next) || (k in unique && !(id in es && k in EntryKeys(es[id])))
    requires forall k :: k in unique' ==>
      if k in EntryKeys(next) then unique'[k] == id else k in unique && unique'[k] == unique[k]
    ensures UniqueExact(es[id := next], unique')
  {
    hide EntryKeys;
    var es' := es[id := next];
    forall k | k in unique' ensures unique'[k] in es' && k in EntryKeys(es'[unique'[k]]) {
      if k !in EntryKeys(next) {
        assert unique[k] in es && k in EntryKeys(es[unique[k]]);
      }
    }
    forall other, k | other in es' && k in EntryKeys(es'[other]) ensures k in unique' && unique'[k] == other {
      if other != id {
        assert EntryKeys(es[other]) !! EntryKeys(next);
        assert k in unique && unique[k] == other;
      }
    }
  }

  // ---- Exactness through a delete ----

  lemma SameKeysUnique(es: Entries, es': Entries, unique: UniqueIndex)
    requires UniqueExact(es, unique) && es'.Keys == es.Keys
    requires forall id :: id in es ==> EntryKeys(es'[id]) == EntryKeys(es[id])
    ensures UniqueExact(es', unique)
  {
  }

  lemma DropUnique(es: Entries, unique: UniqueIndex, unique': UniqueIndex, id: Id)
    requires id in es && UniqueExact(es, unique)
    requires forall k :: k in unique' <==> k in unique && k !in EntryKeys(es[id])
    requires forall k :: k in unique' ==> unique'[k] == unique[k]
    ensures UniqueExact(es - {id}, unique')
  {
    hide EntryKeys;
    forall s, k | s in es - {id} && k in EntryKeys(es[s]) ensures k in unique' && unique'[k] == s {
      assert unique[k] == s;
    }
  }

  lemma DeleteKeepsUnique(es: Entries, unique: UniqueIndex, unique': UniqueIndex, id: Id)
    requires id in es && UniqueExact(es, unique)
    requires forall k :: k in unique' <==> k in unique && k !in EntryKeys(es[id])
    requires forall k :: k in unique' ==> unique'[k] == unique[k]
    ensures UniqueExact(Detached(es, id), unique')
  {
    DropUnique(es, unique, unique', id);
    forall s | s in Detached(es, id) ensures EntryKeys(Detached(es, id)[s]) == EntryKeys((es - {id})[s]) {
      UnlinkedKeys(es[s], AttributesTo(es[s], id), id);
    }
    SameKeysUnique(es - {id}, Detached(es, id), unique');
  }

  lemma DeleteKeepsInbound(es: Entries, inbound: Inbound, inbound': Inbound, id: Id)
    requires Sound(es) && id in es && InboundExact(es, inbound)
    requires forall t :: Into(inbound', t) == if t == id then {} else Into(inbound, t) - EdgesInto(id, es[id].links, t)
    ensures InboundExact(Detached(es, id), inbound')
  {
    var mid := Detached(es, id);
    forall t, s, a
      ensures Edge(s, a) in Into(inbound', t) <==> s in mid && t in TargetsOf(mid[s].links, a)
    {
      EdgesIntoIff(id, es[id].links, t);
      assert Edge(s, a) in Into(inbound, t) <==> s in es && t in TargetsOf(es[s].links, a);
      if s in mid {
        UnlinkedTargets(es[s], id, a, t);
      }
    }
  }
}
