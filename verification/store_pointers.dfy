// A single reference such as a manager is kept twice: as a link, which the server follows, and in the body, which
// readers see. Both name the same stored resource at all times, and a deleted resource is named by neither.
module StorePointers {
  import opened StoreTypes
  import opened StoreSpec
  import opened StoreInvariants
  import opened StoreMeaning
  import opened StoreVersions

  // The texts that can be ids at all.
  const IS_ID: string -> bool

  ghost predicate PointsTo(e: Entry, attribute: string, t: Id) {
    attribute in e.body.pointers && e.body.pointers[attribute] == t
  }

  // The encoder links a single reference to the id its body names, unless that is no id or the resource itself.
  ghost predicate Encoded(schema: Schema, doc: Document) {
    && WellFormed(schema, doc) && IS_ID(doc.id)
    && (forall a :: a in doc.body.pointers ==> exists l :: l in doc.links && l.soft && l.attribute == a)
    && forall l :: l in doc.links && l.soft ==> l.targets == Linked(doc, l.attribute)
  }

  function Linked(doc: Document, a: string): seq<Id> {
    if a in doc.body.pointers && IS_ID(doc.body.pointers[a]) && doc.body.pointers[a] != doc.id
    then [doc.body.pointers[a]] else []
  }

  // Of the stored resources, a body names exactly those that a soft link of the same attribute holds.
  ghost predicate PointersLinked(es: Entries) {
    && (forall s :: s in es ==> IS_ID(s))
    && forall s, a, t :: s in es && t in es && t != s ==> (PointsTo(es[s], a, t) <==> SoftlyNames(es[s], a, t))
  }

  // No body names the id, other than its own.
  ghost predicate Unnamed(es: Entries, t: Id) {
    forall s, a :: s in es && s != t ==> !PointsTo(es[s], a, t)
  }

  // ---- One operation ----

  lemma KeptTarget(es: Entries, sent: Link, kept: Link, t: Id)
    requires Stored(es, sent, kept) && t in es
    ensures t in kept.targets <==> t in sent.targets
  {
    assert multiset(kept.targets)[t] == multiset(sent.targets)[t];
  }

  lemma StoredAlike(es: Entries, sent: Link, kept: Link)
    requires Stored(es, sent, kept)
    ensures kept.attribute == sent.attribute && kept.soft == sent.soft
  {
  }

  ghost predicate Sends(links: seq<Link>, a: string, t: Id) {
    exists l :: l in links && l.soft && l.attribute == a && t in l.targets
  }

  lemma StoredNames(es: Entries, sent: seq<Link>, kept: Entry, a: string, t: Id)
    requires |kept.links| == |sent| && t in es
    requires forall i :: 0 <= i < |sent| ==> Stored(es, sent[i], kept.links[i])
    ensures SoftlyNames(kept, a, t) <==> Sends(sent, a, t)
  {
    hide Stored;
    forall i | 0 <= i < |sent|
      ensures kept.links[i].soft == sent[i].soft && kept.links[i].attribute == sent[i].attribute
      ensures t in kept.links[i].targets <==> t in sent[i].targets
    {
      StoredAlike(es, sent[i], kept.links[i]);
      KeptTarget(es, sent[i], kept.links[i], t);
    }
    if l :| l in sent && l.soft && l.attribute == a && t in l.targets {
      var i :| 0 <= i < |sent| && sent[i] == l;
      assert kept.links[i] in kept.links;
    }
    if k :| k in kept.links && k.soft && k.attribute == a && t in k.targets {
      var i :| 0 <= i < |kept.links| && kept.links[i] == k;
      assert sent[i] in sent;
    }
  }

  lemma WrittenPointers(es: Entries, es': Entries, schema: Schema, doc: Document, a: string, t: Id)
    requires Encoded(schema, doc) && Written(es, es', schema, doc)
    requires t in es && t != doc.id && IS_ID(t)
    ensures PointsTo(es'[doc.id], a, t) <==> SoftlyNames(es'[doc.id], a, t)
  {
    hide WellFormed, Stored, GainedOrLost;
    StoredNames(es, doc.links, es'[doc.id], a, t);
  }

  lemma UpdateKeepsPointers(es: Entries, es': Entries, schema: Schema, doc: Document, version: string)
    requires Sound(es) && PointersLinked(es) && Encoded(schema, doc) && Updates(es, es', schema, doc, version)
    ensures PointersLinked(es')
  {
    hide Sound, Updates;
    UpdateWrites(es, es', schema, doc, version);
    assert es'.Keys == es.Keys;
    forall s, a, t | s in es' && t in es' && t != s ensures PointsTo(es'[s], a, t) <==> SoftlyNames(es'[s], a, t) {
      if s == doc.id {
        WrittenPointers(es, es', schema, doc, a, t);
      } else {
        assert PointsTo(es[s], a, t) <==> SoftlyNames(es[s], a, t);
      }
    }
  }

  lemma NewIsUnlinked(es: Entries, es': Entries, schema: Schema, doc: Document, s: Id, a: string)
    requires NoDangling(es) && Written(es, es', schema, doc) && doc.id !in es && s in es
    ensures !SoftlyNames(es'[s], a, doc.id)
  {
    assert Retimed(es[s], es'[s], GainedOrLost(es, doc, s));
  }

  lemma SameNames(e: Entry, e': Entry, a: string, t: Id)
    requires e'.links == e.links && e'.body == e.body
    ensures PointsTo(e', a, t) <==> PointsTo(e, a, t)
    ensures SoftlyNames(e', a, t) <==> SoftlyNames(e, a, t)
  {
  }

  // A new resource keeps bodies and links in step exactly when no stored body has named its id before.
  lemma CreateKeepsPointersExactly(es: Entries, es': Entries, schema: Schema, doc: Document)
    requires Sound(es) && PointersLinked(es) && Encoded(schema, doc) && Creates(es, es', schema, doc)
    ensures PointersLinked(es') <==> Unnamed(es, doc.id)
  {
    hide Creates, Written, Clashes, LinksFine, KeysDisjoint, AllFit, NoDangling;
    CreateWrites(es, es', schema, doc);
    WrittenOthers(es, es', schema, doc);
    forall s, a | s in es ensures !SoftlyNames(es'[s], a, doc.id) {
      NewIsUnlinked(es, es', schema, doc, s, a);
    }
    if Unnamed(es, doc.id) {
      forall s, a, t | s in es' && t in es' && t != s ensures PointsTo(es'[s], a, t) <==> SoftlyNames(es'[s], a, t) {
        if s == doc.id {
          WrittenPointers(es, es', schema, doc, a, t);
        } else {
          SameNames(es[s], es'[s], a, t);
          if t == doc.id {
            assert !PointsTo(es[s], a, t);
          } else {
            assert PointsTo(es[s], a, t) <==> SoftlyNames(es[s], a, t);
          }
        }
      }
    } else {
      var s, a :| s in es && s != doc.id && PointsTo(es[s], a, doc.id);
      assert PointsTo(es'[s], a, doc.id) && !SoftlyNames(es'[s], a, doc.id);
    }
  }

  lemma WrittenOthers(es: Entries, es': Entries, schema: Schema, doc: Document)
    requires Written(es, es', schema, doc)
    ensures es'.Keys == es.Keys + {doc.id}
    ensures forall s :: s in es && s != doc.id ==> es'[s].links == es[s].links && es'[s].body == es[s].body
  {
  }

  lemma FreedLinks(e: Entry, e': Entry, id: Id, a: string, t: Id)
    requires Freed(e, e', id) && t != id
    ensures SoftlyNames(e', a, t) <==> SoftlyNames(e, a, t)
  {
    forall i | 0 <= i < |e.links| ensures t in e'.links[i].targets <==> t in e.links[i].targets {
      assert multiset(e'.links[i].targets)[t] == multiset(e.links[i].targets)[t];
    }
    if l :| l in e.links && l.soft && l.attribute == a && t in l.targets {
      var i :| 0 <= i < |e.links| && e.links[i] == l;
      assert e'.links[i] in e'.links;
    }
    if l :| l in e'.links && l.soft && l.attribute == a && t in l.targets {
      var i :| 0 <= i < |e'.links| && e'.links[i] == l;
      assert e.links[i] in e.links;
    }
  }

  // A delete leaves no stored body that names the deleted id, and takes no other name out of a body.
  lemma DeleteUnnames(es: Entries, es': Entries, schema: Schema, id: Id, version: string)
    requires Sound(es) && PointersLinked(es) && Deletes(es, es', schema, id, version)
    ensures PointersLinked(es') && Unnamed(es', id)
    ensures forall s, a, t :: s in es' && t != id ==> (PointsTo(es'[s], a, t) <==> PointsTo(es[s], a, t))
  {
    hide Sound, Deletes, Freed;
    SoundFits(es);
    DeleteErases(es, es', schema, id, version);
    forall s, a, t | s in es'
      ensures PointsTo(es'[s], a, t) <==> PointsTo(es[s], a, t) && t != id
    {
      FreedPointer(es[s], es'[s], id, a, t);
      assert PointsTo(es[s], a, id) <==> SoftlyNames(es[s], a, id);
    }
    forall s, a, t | s in es' && t in es' && t != s
      ensures PointsTo(es'[s], a, t) <==> SoftlyNames(es'[s], a, t)
    {
      assert PointsTo(es[s], a, t) <==> SoftlyNames(es[s], a, t);
      FreedLinks(es[s], es'[s], id, a, t);
    }
  }

  lemma FreedPointer(e: Entry, e': Entry, id: Id, a: string, t: Id)
    requires Freed(e, e', id)
    ensures PointsTo(e', a, t) <==> PointsTo(e, a, t) && !SoftlyNames(e, a, id)
  {
  }

  // ---- Whole runs ----

  // Documents come from the encoder, and the id of a new resource is one that no stored body names.
  ghost predicate OpEncoded(es: Entries, op: Op) {
    match op
    case Create(schema, doc) => Encoded(schema, doc) && Unnamed(es, doc.id)
    case Update(schema, doc, _) => Encoded(schema, doc)
    case _ => true
  }

  ghost predicate RunEncoded(states: seq<State>, ops: seq<Op>) {
    |states| > |ops| && forall i :: 0 <= i < |ops| ==> OpEncoded(states[i].entries, ops[i])
  }

  // In every state of a run, bodies and links name the same stored resources.
  lemma {:induction false} RunKeepsPointers(states: seq<State>, ops: seq<Op>, i: nat)
    requires Run(states, ops) && RunEncoded(states, ops) && i < |states|
    ensures Sound(states[i].entries) && PointersLinked(states[i].entries)
  {
    hide Sound, PointersLinked, Encoded, Creates, Updates, Deletes;
    RunSound(states, ops, i);
    if i == 0 {
      NothingLinked();
    } else {
      RunKeepsPointers(states, ops, i - 1);
      assert StepAt(states, ops, i - 1) && OpEncoded(states[i - 1].entries, ops[i - 1]);
      match ops[i - 1]
      case Create(schema, doc) =>
        CreateKeepsPointersExactly(states[i - 1].entries, states[i].entries, schema, doc);
      case Update(schema, doc, version) =>
        UpdateKeepsPointers(states[i - 1].entries, states[i].entries, schema, doc, version);
      case Delete(schema, id, version) =>
        DeleteUnnames(states[i - 1].entries, states[i].entries, schema, id, version);
      case Refused =>
    }
  }

  lemma NothingLinked()
    ensures PointersLinked(map[])
  {
  }

  // Whatever happened before, after a delete no stored body and no stored link names the deleted id.
  lemma DeletedIsUnnamed(states: seq<State>, ops: seq<Op>, i: nat)
    requires Run(states, ops) && RunEncoded(states, ops) && i < |ops| && ops[i].Delete?
    ensures ops[i].id !in states[i + 1].entries && Unnamed(states[i + 1].entries, ops[i].id)
    ensures var after := states[i + 1].entries;
            forall s, l :: s in after && l in after[s].links ==> ops[i].id !in l.targets
  {
    hide Sound, PointersLinked, Deletes;
    RunKeepsPointers(states, ops, i);
    assert StepAt(states, ops, i);
    DeleteUnnames(states[i].entries, states[i + 1].entries, ops[i].schema, ops[i].id, ops[i].version);
    DeleteSound(states[i].entries, states[i + 1].entries, ops[i].schema, ops[i].id, ops[i].version);
  }
}
