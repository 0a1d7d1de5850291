// Every write and delete keeps the entries sound: references resolve, membership is acyclic, unique keys are held once.
module StoreInvariants {
  import opened StoreTypes
  import opened StoreGraph
  import opened StoreSpec

  lemma {:induction false} HeldIff(es: Entries, ids: seq<Id>)
    ensures forall t :: t in Held(es, ids) <==> t in ids && t in es
  {
    if ids != [] {
      HeldIff(es, ids[1..]);
    }
  }

  lemma {:induction false} WithoutIff(ids: seq<Id>, t: Id)
    ensures forall u :: u in Without(ids, t) <==> u in ids && u != t
    ensures t !in ids ==> Without(ids, t) == ids
  {
    if ids != [] {
      WithoutIff(ids[1..], t);
    }
  }

  // A target survives resolution when it is stored, and a hard one always does.
  lemma ResolveIff(es: Entries, link: Link, t: Id)
    ensures t in Resolve(es, link).targets <==> t in link.targets && (link.soft ==> t in es)
  {
    HeldIff(es, link.targets);
  }

  lemma ResolvedFits(es: Entries, schema: Schema, links: seq<Link>)
    requires Fits(schema, links)
    ensures Fits(schema, Resolved(es, links))
  {
    var r := Resolved(es, links);
    assert Shape(r) == Shape(links);
    forall i, j | 0 <= i < j < |r| ensures r[i].attribute != r[j].attribute {
      assert links[i].attribute != links[j].attribute;
    }
  }

  lemma {:induction false} ResolvedTargets(es: Entries, links: seq<Link>, a: string, t: Id)
    requires DistinctNames(links)
    ensures t in TargetsOf(Resolved(es, links), a) ==> t in TargetsOf(links, a)
    ensures t in es ==> (t in TargetsOf(Resolved(es, links), a) <==> t in TargetsOf(links, a))
  {
    if links != [] {
      assert Resolved(es, links)[1..] == Resolved(es, links[1..]);
      if links[0].attribute == a {
        ResolveIff(es, links[0], t);
      } else {
        ResolvedTargets(es, links[1..], a, t);
      }
    }
  }

  // The write never touches the resource it writes: it cannot name itself, before or after.
  lemma WriteSkipsItself(es: Entries, schema: Schema, doc: Document)
    requires Sound(es) && WellFormed(schema, doc) && Accepts(es, schema, doc)
    requires doc.id in es ==> es[doc.id].schema == schema
    ensures !TargetChanged(LinksAt(es, doc.id), doc.links, doc.id)
  {
    var before := LinksAt(es, doc.id);
    if l :| l in doc.links && ((doc.id in l.targets) != (doc.id in TargetsOf(before, l.attribute))) {
      if doc.id in es { TargetsStored(es, doc.id, l.attribute); }
      assert doc.id in l.targets && doc.id !in TargetsOf(before, l.attribute);
      assert LinkAccepted(es, doc.id, before, l);
      assert TargetAccepted(es, doc.id, l, doc.id);
      ReachesSelf(es, l.attribute, doc.id);
    }
  }

  // Two states with the same links and the same keys, entry by entry.
  lemma SameKeysDisjoint(es: Entries, es': Entries)
    requires KeysDisjoint(es) && es'.Keys <= es.Keys
    requires forall id :: id in es' ==> EntryKeys(es'[id]) == EntryKeys(es[id])
    ensures KeysDisjoint(es')
  {
    forall a, b | a in es' && b in es' && a != b ensures EntryKeys(es'[a]) !! EntryKeys(es'[b]) {
      assert EntryKeys(es[a]) !! EntryKeys(es[b]);
    }
  }

  ghost predicate SameButTimes(es: Entries, es': Entries) {
    es'.Keys == es.Keys && forall id :: id in es ==> es'[id] == es[id].(updated := es'[id].updated)
  }

  lemma RetimedAcyclic(es: Entries, es': Entries)
    requires Acyclic(es) && SameButTimes(es, es')
    ensures Acyclic(es')
  {
    forall a, s, t | HardEdge(es', a, s, t) ensures HardEdge(es, a, s, t) {
      assert es'[s].links == es[s].links;
    }
    AcyclicSubgraph(es, es');
  }

  lemma TouchedSound(es: Entries, es': Entries, touched: iset<Id>)
    requires Sound(es) && Touched(es, es', touched)
    ensures Sound(es') && SameButTimes(es, es')
  {
    hide Acyclic, KeysOf;
    RetimedAcyclic(es, es');
    SameKeysDisjoint(es, es');
  }

  lemma LinkedTargetOk(es: Entries, schema: Schema, doc: Document, l: Link, t: Id)
    requires Sound(es) && WellFormed(schema, doc) && Accepts(es, schema, doc)
    requires doc.id in es ==> es[doc.id].schema == schema
    requires l in doc.links && t in l.targets && (l.soft ==> t in es)
    ensures t in es && es[t].schema.name in l.types && t != doc.id
    ensures t in TargetsOf(LinksAt(es, doc.id), l.attribute) || l.soft || !Reaches(es, l.attribute, t, doc.id)
    ensures t in TargetsOf(LinksAt(es, doc.id), l.attribute) && !l.soft ==> HardEdge(es, l.attribute, doc.id, t)
  {
    var before := LinksAt(es, doc.id);
    if t in TargetsOf(before, l.attribute) {
      var i := TargetsOfSource(before, l.attribute);
      assert before[i] in before;
      SameShape(schema, before, doc.links);
      var j :| 0 <= j < |doc.links| && doc.links[j] == l;
      assert before[j].attribute == l.attribute;
      assert i == j;
    } else {
      assert LinkAccepted(es, doc.id, before, l);
      assert TargetAccepted(es, doc.id, l, t);
      if t == doc.id { ReachesSelf(es, l.attribute, t); }
    }
  }

  lemma WriteSound(es: Entries, schema: Schema, doc: Document, created: int, updated: int)
    requires Sound(es) && WellFormed(schema, doc) && Accepts(es, schema, doc)
    requires doc.id in es ==> es[doc.id].schema == schema
    ensures Sound(es[doc.id := Next(es, schema, doc, created, updated)])
  {
    var next := Next(es, schema, doc, created, updated);
    var mid := es[doc.id := next];
    ResolvedFits(es, schema, doc.links);
    forall id, l, t | id in mid && l in mid[id].links && t in l.targets
      ensures t in mid && mid[t].schema.name in l.types && t != id
    {
      if id == doc.id {
        WriteLinkOk(es, schema, doc, l, t);
      }
    }
    forall a, s, t | s != doc.id && HardEdge(mid, a, s, t) ensures HardEdge(es, a, s, t) {}
    forall a, t | HardEdge(mid, a, doc.id, t)
      ensures HardEdge(es, a, doc.id, t) || !Reaches(es, a, t, doc.id)
    {
      var l :| l in next.links && l.attribute == a && !l.soft && t in l.targets;
      WriteLinkOk(es, schema, doc, l, t);
    }
    AcyclicStep(es, mid, doc.id);
    forall a, b | a in mid && b in mid && a != b ensures EntryKeys(mid[a]) !! EntryKeys(mid[b]) {
      if a == doc.id {
        assert EntryKeys(es[b]) !! KeysOf(schema, doc.body);
      } else if b == doc.id {
        assert EntryKeys(es[a]) !! KeysOf(schema, doc.body);
      } else {
        assert EntryKeys(es[a]) !! EntryKeys(es[b]);
      }
    }
  }

  lemma WriteLinkOk(es: Entries, schema: Schema, doc: Document, l: Link, t: Id)
    requires Sound(es) && WellFormed(schema, doc) && Accepts(es, schema, doc)
    requires doc.id in es ==> es[doc.id].schema == schema
    requires l in Resolved(es, doc.links) && t in l.targets
    ensures t in es && es[t].schema.name in l.types && t != doc.id
    ensures !l.soft ==> HardEdge(es, l.attribute, doc.id, t) || !Reaches(es, l.attribute, t, doc.id)
  {
    var i :| 0 <= i < |doc.links| && Resolve(es, doc.links[i]) == l;
    ResolveIff(es, doc.links[i], t);
    LinkedTargetOk(es, schema, doc, doc.links[i], t);
  }

  lemma SaveSound(es: Entries, es': Entries, schema: Schema, doc: Document, created: int, updated: int)
    requires Sound(es) && WellFormed(schema, doc) && Accepts(es, schema, doc)
    requires doc.id in es ==> es[doc.id].schema == schema
    requires Saved(es, es', schema, doc, created, updated)
    ensures Sound(es')
    ensures doc.id in es' && es'[doc.id] == Next(es, schema, doc, created, updated)
  {
    WriteSound(es, schema, doc, created, updated);
    WriteSkipsItself(es, schema, doc);
    TouchedSound(es[doc.id := Next(es, schema, doc, created, updated)], es',
                 iset t | TargetChanged(LinksAt(es, doc.id), doc.links, t));
  }

  // ---- Delete ----

  lemma UnlinkedTargets(e: Entry, t: Id, a: string, u: Id)
    requires DistinctNames(e.links)
    ensures u in TargetsOf(Unlinked(e, AttributesTo(e, t), t).links, a) <==> u in TargetsOf(e.links, a) && u != t
    ensures DistinctNames(Unlinked(e, AttributesTo(e, t), t).links)
  {
    var links' := Unlinked(e, AttributesTo(e, t), t).links;
    forall i, j | 0 <= i < j < |links'| ensures links'[i].attribute != links'[j].attribute {
      assert e.links[i].attribute != e.links[j].attribute;
    }
    forall i | 0 <= i < |links'| ensures u in links'[i].targets <==> u in e.links[i].targets && u != t {
      WithoutIff(e.links[i].targets, t);
      assert e.links[i] in e.links;
    }
    if u in TargetsOf(links', a) {
      var i := TargetsOfSource(links', a);
      TargetsOfMember(e.links, i);
    }
    if u in TargetsOf(e.links, a) && u != t {
      var i := TargetsOfSource(e.links, a);
      TargetsOfMember(links', i);
    }
  }

  lemma UnlinkedFits(e: Entry, attributes: set<string>, t: Id)
    requires Fits(e.schema, e.links)
    ensures Fits(e.schema, Unlinked(e, attributes, t).links)
  {
    var links' := Unlinked(e, attributes, t).links;
    assert Shape(links') == Shape(e.links);
    forall i, j | 0 <= i < j < |links'| ensures links'[i].attribute != links'[j].attribute {
      assert e.links[i].attribute != e.links[j].attribute;
    }
  }

  // The references of an entry other than to t stay as they were, and nothing names t any more.
  lemma UnlinkedLink(e: Entry, attributes: set<string>, t: Id, i: nat)
    requires i < |e.links|
    ensures var l := Unlinked(e, attributes, t).links[i];
            l == e.links[i].(targets := l.targets) &&
            (forall u :: u in l.targets ==> u in e.links[i].targets) &&
            (e.links[i].attribute in attributes ==> t !in l.targets)
  {
    WithoutIff(e.links[i].targets, t);
  }

  lemma UnlinkedKeys(e: Entry, attributes: set<string>, t: Id)
    ensures EntryKeys(Unlinked(e, attributes, t)) == EntryKeys(e)
  {
    var e' := Unlinked(e, attributes, t);
    forall f | f in e.schema.fields ensures KeysOfField(e.schema, f, e'.body) == KeysOfField(e.schema, f, e.body) {
      assert ValuesAt(e'.body, f.name) == ValuesAt(e.body, f.name);
    }
  }

  lemma DetachedAcyclic(es: Entries, id: Id)
    requires AllFit(es) && NoDangling(es) && Acyclic(es)
    ensures Acyclic(Detached(es, id))
  {
    forall a, s, t | HardEdge(Detached(es, id), a, s, t) ensures HardEdge(es, a, s, t) {
      var l :| l in Detached(es, id)[s].links && l.attribute == a && !l.soft && t in l.targets;
      DetachedLink(es, id, s, l, t);
    }
    AcyclicSubgraph(es, Detached(es, id));
  }

  lemma DetachedNoDangling(es: Entries, id: Id)
    requires AllFit(es) && NoDangling(es)
    ensures NoDangling(Detached(es, id))
  {
    hide AllFit, UnlinkLink, AttributesTo;
    forall s, l, t | s in Detached(es, id) && l in Detached(es, id)[s].links && t in l.targets
      ensures t in es && t != id && es[t].schema.name in l.types && t != s
    {
      DetachedLink(es, id, s, l, t);
    }
  }

  lemma DetachSound(es: Entries, id: Id)
    requires Sound(es)
    ensures Sound(Detached(es, id))
  {
    forall s | s in Detached(es, id) ensures Fits(Detached(es, id)[s].schema, Detached(es, id)[s].links) {
      UnlinkedFits(es[s], AttributesTo(es[s], id), id);
    }
    DetachedNoDangling(es, id);
    DetachedAcyclic(es, id);
    DetachedKeys(es, id);
  }

  lemma DetachedKeys(es: Entries, id: Id)
    requires KeysDisjoint(es)
    ensures KeysDisjoint(Detached(es, id))
  {
    forall a | a in Detached(es, id) ensures EntryKeys(Detached(es, id)[a]) == EntryKeys(es[a]) {
      UnlinkedKeys(es[a], AttributesTo(es[a], id), id);
    }
    SameKeysDisjoint(es, Detached(es, id));
  }

  lemma DetachedLink(es: Entries, id: Id, s: Id, l: Link, t: Id)
    requires AllFit(es) && NoDangling(es)
    requires s in Detached(es, id) && l in Detached(es, id)[s].links && t in l.targets
    ensures t in es && t != id && es[t].schema.name in l.types && t != s
    ensures exists k :: k in es[s].links && k.attribute == l.attribute && k.soft == l.soft && t in k.targets
  {
    hide AllFit, UnlinkLink;
    var i :| 0 <= i < |es[s].links| && Detached(es, id)[s].links[i] == l;
    UnlinkedLink(es[s], AttributesTo(es[s], id), id, i);
    assert es[s].links[i] in es[s].links;
    if id in es[s].links[i].targets {
      assert es[s].links[i].attribute in AttributesTo(es[s], id);
    }
  }

  lemma RemoveSound(es: Entries, es': Entries, id: Id)
    requires Sound(es) && Removed(es, es', id)
    ensures Sound(es') && id !in es'
  {
    DetachSound(es, id);
    TouchedSound(Detached(es, id), es', iset other | Neighbour(es, id, other));
  }

  // ---- The three operations ----

  lemma CreateSound(es: Entries, es': Entries, schema: Schema, doc: Document)
    requires Sound(es) && WellFormed(schema, doc) && Creates(es, es', schema, doc)
    ensures Sound(es')
  {
    SaveSound(es, es', schema, doc, es'[doc.id].updated, es'[doc.id].updated);
  }

  lemma UpdateSound(es: Entries, es': Entries, schema: Schema, doc: Document, version: string)
    requires Sound(es) && WellFormed(schema, doc) && Updates(es, es', schema, doc, version)
    ensures Sound(es')
  {
    SaveSound(es, es', schema, doc, es[doc.id].created, es'[doc.id].updated);
  }

  lemma DeleteSound(es: Entries, es': Entries, schema: Schema, id: Id, version: string)
    requires Sound(es) && Deletes(es, es', schema, id, version)
    ensures Sound(es') && id !in es'
    ensures forall s, l :: s in es' && l in es'[s].links ==> id !in l.targets
  {
    hide Acyclic, KeysDisjoint, AllFit;
    RemoveSound(es, es', id);
  }
}
