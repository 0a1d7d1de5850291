// A version determines the representation: no operation changes what a reader sees of a resource,
// its derived references included, without moving that resource's modification time forward.
module StoreVersions {
  import opened StoreTypes
  import opened StoreGraph
  import opened StoreSpec
  import opened StoreInvariants
  import Etag

  ghost predicate Keeps(es: Entries, es': Entries, id: Id)
    requires NoDangling(es) && NoDangling(es') && id in es && id in es'
  {
    && es'[id].schema == es[id].schema && es'[id].created == es[id].created
    && es[id].updated <= es'[id].updated
    && (es'[id].updated == es[id].updated ==> Render(es', id) == Render(es, id))
  }

  ghost predicate Evolves(es: Entries, es': Entries)
    requires NoDangling(es) && NoDangling(es')
  {
    forall id :: id in es && id in es' ==> Keeps(es, es', id)
  }

  // What another resource's representation depends on.
  ghost predicate SameNeighbours(es: Entries, es': Entries, id: Id)
    requires id in es && id in es'
  {
    && es'[id].schema == es[id].schema && es'[id].body == es[id].body && es'[id].links == es[id].links
    && (forall l, t :: l in es[id].links && t in l.targets ==> t in es && t in es' && es'[t].schema == es[t].schema)
    && (forall s, a :: s in es' && id in TargetsOf(es'[s].links, a) ==>
          s in es && id in TargetsOf(es[s].links, a) && es'[s].schema == es[s].schema)
    && (forall s, a :: s in es && id in TargetsOf(es[s].links, a) ==>
          s in es' && id in TargetsOf(es'[s].links, a) && es'[s].schema == es[s].schema)
  }

  lemma SameList(es: Entries, es': Entries, id: Id, r: Reference)
    requires NoDangling(es) && NoDangling(es') && id in es && id in es'
    requires SameNeighbours(es, es', id)
    ensures (forall t :: t in TargetsOf(es[id].links, r.name) ==> t in es && t in es')
    ensures List(es, id, r) == List(es', id, r)
  {
    TargetsStored(es, id, r.name);
    TargetsStored(es', id, r.name);
    if r.Inverse() {
      assert InverseSources(es, id, r) == InverseSources(es', id, r);
    } else {
      var targets := TargetsOf(es[id].links, r.name);
      forall t | t in targets ensures es'[t].schema == es[t].schema {
        var i := TargetsOfSource(es[id].links, r.name);
        assert es[id].links[i] in es[id].links;
      }
    }
  }

  lemma SameRender(es: Entries, es': Entries, id: Id)
    requires NoDangling(es) && NoDangling(es') && id in es && id in es'
    requires SameNeighbours(es, es', id)
    ensures Render(es, id) == Render(es', id)
  {
    var references := es[id].schema.references;
    forall i | 0 <= i < |references|
      ensures Render(es, id).listings[i] == Render(es', id).listings[i]
    {
      SameList(es, es', id, references[i]);
    }
    assert Render(es, id).listings == Render(es', id).listings;
  }

  // After a write, another resource that was not touched has the same neighbours.
  lemma SaveKeepsOthers(es: Entries, es': Entries, schema: Schema, doc: Document, created: int, updated: int, id: Id)
    requires Sound(es) && WellFormed(schema, doc) && Accepts(es, schema, doc)
    requires doc.id in es ==> es[doc.id].schema == schema
    requires Saved(es, es', schema, doc, created, updated)
    requires id in es && id != doc.id && !TargetChanged(LinksAt(es, doc.id), doc.links, id)
    ensures id in es' && SameNeighbours(es, es', id)
  {
    hide Accepts, WellFormed, Acyclic, KeysDisjoint, AllFit, Resolved, TargetChanged;
    SaveSound(es, es', schema, doc, created, updated);
    forall a ensures id in TargetsOf(es'[doc.id].links, a) <==> id in TargetsOf(LinksAt(es, doc.id), a) {
      UnchangedTarget(es, schema, doc, id, a);
    }
    assert forall s :: s in es' && s != doc.id ==> es'[s].links == es[s].links && es'[s].schema == es[s].schema;
    SavedNeighbours(es, es', doc.id, id);
  }

  // One resource was written, and links to another as it did before.
  lemma SavedNeighbours(es: Entries, es': Entries, written: Id, id: Id)
    requires NoDangling(es) && id in es && id != written && es'.Keys == es.Keys + {written}
    requires es'[id].body == es[id].body && (written in es ==> es'[written].schema == es[written].schema)
    requires forall s :: s in es' && s != written ==> es'[s].links == es[s].links && es'[s].schema == es[s].schema
    requires forall a :: id in TargetsOf(es'[written].links, a) <==> id in TargetsOf(LinksAt(es, written), a)
    ensures SameNeighbours(es, es', id)
  {
    forall s, a | s in es' && id in TargetsOf(es'[s].links, a)
      ensures s in es && id in TargetsOf(es[s].links, a) && es'[s].schema == es[s].schema
    {
      if s == written {
        assert id in TargetsOf(LinksAt(es, written), a);
      }
    }
  }

  lemma UnchangedTarget(es: Entries, schema: Schema, doc: Document, id: Id, a: string)
    requires Sound(es) && WellFormed(schema, doc) && id in es
    requires doc.id in es ==> es[doc.id].schema == schema
    requires !TargetChanged(LinksAt(es, doc.id), doc.links, id)
    ensures id in TargetsOf(Resolved(es, doc.links), a) <==> id in TargetsOf(LinksAt(es, doc.id), a)
  {
    var before := LinksAt(es, doc.id);
    ResolvedTargets(es, doc.links, a, id);
    if id in TargetsOf(doc.links, a) {
      var i := TargetsOfSource(doc.links, a);
      assert doc.links[i] in doc.links;
    }
    if id in TargetsOf(before, a) {
      var i := TargetsOfSource(before, a);
      SameShape(schema, before, doc.links);
      assert doc.links[i] in doc.links && doc.links[i].attribute == a;
      TargetsOfMember(doc.links, i);
    }
  }

  lemma SaveEvolves(es: Entries, es': Entries, schema: Schema, doc: Document, created: int, updated: int)
    requires Sound(es) && Sound(es') && WellFormed(schema, doc) && Accepts(es, schema, doc)
    requires doc.id in es ==>
               es[doc.id].schema == schema && es[doc.id].created == created && es[doc.id].updated < updated
    requires Saved(es, es', schema, doc, created, updated)
    ensures Evolves(es, es')
  {
    SaveSound(es, es', schema, doc, created, updated);
    forall id | id in es && id in es' ensures Keeps(es, es', id) {
      if id != doc.id && !TargetChanged(LinksAt(es, doc.id), doc.links, id) {
        SaveKeepsOthers(es, es', schema, doc, created, updated, id);
        SameRender(es, es', id);
      }
    }
  }

  lemma RemoveKeepsOthers(es: Entries, es': Entries, id: Id, other: Id)
    requires Sound(es) && Sound(es') && Removed(es, es', id)
    requires other in es && other != id && !Neighbour(es, id, other)
    ensures other in es' && SameNeighbours(es, es', other)
  {
    hide Acyclic, KeysDisjoint, AllFit, TargetsOf, Unlinked, AttributesTo, Neighbour;
    NotNeighbour(es, id, other);
    RemoveIsolated(es, id, other);
    forall s | s in es' ensures es'[s].schema == es[s].schema {
      UnlinkedSchema(es, id, s);
    }
    forall s, a | s in es' ensures other in TargetsOf(es'[s].links, a) <==> other in TargetsOf(es[s].links, a) {
      FitsDistinct(es, s);
      UnlinkedTargets(es[s], id, a, other);
    }
    forall s, a | s in es && other in TargetsOf(es[s].links, a) ensures s in es' {
      LinkedIsNeighbour(es, s, a, other);
    }
    forall l, t | l in es[other].links && t in l.targets ensures t in es' {
      NotLinked(es[other], id, l);
    }
  }

  lemma NotNeighbour(es: Entries, id: Id, other: Id)
    requires other in es && !Neighbour(es, id, other)
    ensures AttributesTo(es[other], id) == {}
  {
  }

  lemma NotLinked(e: Entry, id: Id, l: Link)
    requires AttributesTo(e, id) == {} && l in e.links
    ensures id !in l.targets
  {
    assert id in l.targets ==> l.attribute in AttributesTo(e, id);
  }

  lemma UnlinkedSchema(es: Entries, id: Id, s: Id)
    requires s in Detached(es, id)
    ensures Detached(es, id)[s].schema == es[s].schema
  {
  }

  lemma FitsDistinct(es: Entries, s: Id)
    requires AllFit(es) && s in es
    ensures DistinctNames(es[s].links)
  {
  }

  lemma LinkedIsNeighbour(es: Entries, s: Id, a: string, t: Id)
    requires s in es && t in TargetsOf(es[s].links, a)
    ensures Neighbour(es, s, t)
  {
    var i := TargetsOfSource(es[s].links, a);
    assert es[s].links[i] in es[s].links;
  }

  lemma RemoveIsolated(es: Entries, id: Id, other: Id)
    requires other in es && other != id && AttributesTo(es[other], id) == {}
    ensures Detached(es, id)[other] == es[other]
  {
    var e := es[other];
    assert Unlinked(e, {}, id).links == e.links;
    assert Unlinked(e, {}, id).body.pointers == e.body.pointers;
  }

  lemma RemoveEvolves(es: Entries, es': Entries, id: Id)
    requires Sound(es) && Sound(es') && Removed(es, es', id)
    ensures Evolves(es, es')
  {
    forall other | other in es && other in es' ensures Keeps(es, es', other) {
      if !Neighbour(es, id, other) {
        RemoveKeepsOthers(es, es', id, other);
        SameRender(es, es', other);
      }
    }
  }

  // ---- One step of the store ----

  datatype Op =
    | Create(schema: Schema, doc: Document)
    | Update(schema: Schema, doc: Document, version: string)
    | Delete(schema: Schema, id: Id, version: string)
    | Refused

  ghost predicate OpWellFormed(op: Op) {
    match op
    case Create(schema, doc) => WellFormed(schema, doc)
    case Update(schema, doc, _) => WellFormed(schema, doc)
    case _ => true
  }

  // used holds every id ever handed out; a new resource gets one that was not.
  ghost predicate Step(used: set<Id>, es: Entries, op: Op, used': set<Id>, es': Entries) {
    match op
    case Create(schema, doc) => doc.id !in used && used' == used + {doc.id} && Creates(es, es', schema, doc)
    case Update(schema, doc, version) => used' == used && Updates(es, es', schema, doc, version)
    case Delete(schema, id, version) => used' == used && Deletes(es, es', schema, id, version)
    case Refused => used' == used && es' == es
  }

  lemma StepSound(used: set<Id>, es: Entries, op: Op, used': set<Id>, es': Entries)
    requires Sound(es) && es.Keys <= used && OpWellFormed(op) && Step(used, es, op, used', es')
    ensures Sound(es') && es'.Keys <= used' && used <= used'
    ensures es'.Keys * used <= es.Keys
    ensures Evolves(es, es')
  {
    match op
    case Create(schema, doc) =>
      CreateSound(es, es', schema, doc);
      SaveEvolves(es, es', schema, doc, es'[doc.id].updated, es'[doc.id].updated);
    case Update(schema, doc, version) =>
      UpdateSound(es, es', schema, doc, version);
      SaveEvolves(es, es', schema, doc, es[doc.id].created, es'[doc.id].updated);
    case Delete(schema, id, version) =>
      DeleteSound(es, es', schema, id, version);
      RemoveEvolves(es, es', id);
    case Refused =>
  }

  // ---- Whole runs ----

  datatype State = State(used: set<Id>, entries: Entries)

  // A run from the empty store: each operation takes one state to the next.
  ghost predicate Run(states: seq<State>, ops: seq<Op>) {
    && |states| == |ops| + 1
    && states[0] == State({}, map[])
    && forall i :: 0 <= i < |ops| ==> StepAt(states, ops, i)
  }

  ghost predicate StepAt(states: seq<State>, ops: seq<Op>, i: nat)
    requires i < |ops| < |states|
  {
    OpWellFormed(ops[i]) &&
    Step(states[i].used, states[i].entries, ops[i], states[i + 1].used, states[i + 1].entries)
  }

  lemma EmptySound()
    ensures Sound(map[])
  {
    forall a, p | |p| > 1 ensures !HardPath(map[], a, p) {
      assert !HardEdge(map[], a, p[0], p[1]);
    }
  }

  // In every reachable state references resolve, membership is acyclic and unique keys are held once.
  lemma {:induction false} RunSound(states: seq<State>, ops: seq<Op>, i: nat)
    requires Run(states, ops) && i < |states|
    ensures Sound(states[i].entries) && states[i].entries.Keys <= states[i].used
  {
    if i == 0 {
      EmptySound();
    } else {
      RunSound(states, ops, i - 1);
      assert StepAt(states, ops, i - 1);
      StepSound(states[i - 1].used, states[i - 1].entries, ops[i - 1], states[i].used, states[i].entries);
    }
  }

  lemma {:induction false} RunEvolves(states: seq<State>, ops: seq<Op>, i: nat, j: nat)
    requires Run(states, ops) && i <= j < |states|
    ensures Sound(states[i].entries) && Sound(states[j].entries) && Evolves(states[i].entries, states[j].entries)
    ensures states[i].used <= states[j].used && states[j].entries.Keys * states[i].used <= states[i].entries.Keys
    decreases j - i
  {
    RunSound(states, ops, i);
    RunSound(states, ops, j);
    if i < j {
      RunEvolves(states, ops, i, j - 1);
      RunSound(states, ops, j - 1);
      assert StepAt(states, ops, j - 1);
      StepSound(states[j - 1].used, states[j - 1].entries, ops[j - 1], states[j].used, states[j].entries);
      forall id | id in states[i].entries && id in states[j].entries
        ensures Keeps(states[i].entries, states[j].entries, id)
      {
        assert id in states[j - 1].entries;
        assert Keeps(states[i].entries, states[j - 1].entries, id);
        assert Keeps(states[j - 1].entries, states[j].entries, id);
      }
    }
  }

  // One entity tag never stands for two representations of one resource, whatever the clock did.
  lemma VersionDeterminesRepresentation(states: seq<State>, ops: seq<Op>, i: nat, j: nat, id: Id)
    requires Run(states, ops) && i < |states| && j < |states|
    requires id in states[i].entries && id in states[j].entries
    requires Etag.Weak(states[i].entries[id].updated) == Etag.Weak(states[j].entries[id].updated)
    ensures NoDangling(states[i].entries) && NoDangling(states[j].entries)
    ensures RecordOf(states[i].entries, id) == RecordOf(states[j].entries, id)
  {
    Etag.WeakInjective(states[i].entries[id].updated, states[j].entries[id].updated);
    if i <= j {
      RunEvolves(states, ops, i, j);
      assert Keeps(states[i].entries, states[j].entries, id);
    } else {
      RunEvolves(states, ops, j, i);
      assert Keeps(states[j].entries, states[i].entries, id);
    }
  }

  // A deleted id never comes back: one that was handed out and is stored later was stored all along.
  lemma DeletedStaysDeleted(states: seq<State>, ops: seq<Op>, i: nat, j: nat, id: Id)
    requires Run(states, ops) && i <= j < |states| && id in states[i].used
    ensures id in states[j].entries ==> id in states[i].entries
  {
    RunEvolves(states, ops, i, j);
    if id in states[j].entries {
      assert id in states[j].entries.Keys * states[i].used;
    }
  }
}
