// What the store promises of each operation, said of the stored entries alone: which documents it takes, what a
// write or delete leaves behind, and what a reader is shown.
module StoreMeaning {
  import opened Text
  import opened StoreTypes
  import opened StoreGraph
  import opened StoreSpec
  import opened StoreInvariants
  import Etag

  // ---- Which values count as one ----

  // The same letter, in upper or lower case.
  predicate SameLetter(c: char, d: char) {
    || c == d
    || ('A' <= c <= 'Z' && d as int == c as int + 32)
    || ('A' <= d <= 'Z' && c as int == d as int + 32)
  }

  predicate SameLetters(a: string, b: string) {
    |a| == |b| && forall i :: 0 <= i < |a| ==> SameLetter(a[i], b[i])
  }

  predicate OneValue(caseExact: bool, v: Value, w: Value) {
    v == w || (!caseExact && v.Str? && w.Str? && SameLetters(v.text, w.text))
  }

  predicate Assigns(body: Body, name: string, v: Value) {
    name in body.values && v in body.values[name] && !v.Unassigned?
  }

  // Both bodies have a value at the field, and the two count as one.
  ghost predicate Shares(field: Field, a: Body, b: Body) {
    exists v, w :: Assigns(a, field.name, v) && Assigns(b, field.name, w) && OneValue(field.caseExact, v, w)
  }

  // Another stored resource of the schema has a value that must not be held twice.
  ghost predicate Clashes(es: Entries, schema: Schema, id: Id, body: Body, field: Field) {
    && field in schema.fields && field.unique
    && exists other :: other in es && other != id && es[other].schema == schema && Shares(field, body, es[other].body)
  }

  lemma LowerAgrees(a: string, b: string)
    ensures Lower(a) == Lower(b) <==> SameLetters(a, b)
  {
    if Lower(a) == Lower(b) {
      assert |a| == |Lower(a)| == |b|;
      forall i | 0 <= i < |a| ensures SameLetter(a[i], b[i]) {
        assert Lower(a)[i] == Lower(b)[i];
      }
    }
  }

  lemma OneKey(field: Field, v: Value, w: Value)
    ensures StoreTypes.Fold(field, v) == StoreTypes.Fold(field, w) <==> OneValue(field.caseExact, v, w)
  {
    if v.Str? && w.Str? {
      LowerAgrees(v.text, w.text);
    }
  }

  // The entries of one schema whose keys meet are those that share a value at a unique field.
  lemma KeysMeet(schema: Schema, a: Body, b: Body, field: Field)
    requires field in schema.fields && field.unique
    ensures (exists k :: k in KeysOf(schema, a) && k in KeysOf(schema, b) && k.field == field) <==> Shares(field, a, b)
  {
    if k :| k in KeysOf(schema, a) && k in KeysOf(schema, b) && k.field == field {
      var f :| f in schema.fields && k in KeysOfField(schema, f, a);
      var g :| g in schema.fields && k in KeysOfField(schema, g, b);
      assert f == field == g;
      var v :| v in ValuesAt(a, field.name) && v != Unassigned && k == Key(schema, field, StoreTypes.Fold(field, v));
      var w :| w in ValuesAt(b, field.name) && w != Unassigned && k == Key(schema, field, StoreTypes.Fold(field, w));
      OneKey(field, v, w);
      assert Assigns(a, field.name, v) && Assigns(b, field.name, w);
    }
    if Shares(field, a, b) {
      var v, w :| Assigns(a, field.name, v) && Assigns(b, field.name, w) && OneValue(field.caseExact, v, w);
      OneKey(field, v, w);
      var k := Key(schema, field, StoreTypes.Fold(field, v));
      assert k in KeysOfField(schema, field, a) && k in KeysOfField(schema, field, b);
    }
  }

  // A body holds the key of a value exactly when it has a value that counts as one with it.
  lemma KeyHeld(schema: Schema, field: Field, body: Body, w: Value)
    requires field.unique
    ensures Key(schema, field, StoreTypes.Fold(field, w)) in KeysOfField(schema, field, body) <==>
            exists v :: Assigns(body, field.name, v) && OneValue(field.caseExact, v, w)
  {
    var k := Key(schema, field, StoreTypes.Fold(field, w));
    if k in KeysOfField(schema, field, body) {
      var v :| v in ValuesAt(body, field.name) && v != Unassigned && k == Key(schema, field, StoreTypes.Fold(field, v));
      OneKey(field, v, w);
      assert Assigns(body, field.name, v);
    }
    if v :| Assigns(body, field.name, v) && OneValue(field.caseExact, v, w) {
      OneKey(field, v, w);
      assert k == Key(schema, field, StoreTypes.Fold(field, v));
    }
  }

  lemma KeyOrigin(e: Entry, k: Key)
    requires k in EntryKeys(e)
    ensures k.scope == e.schema && k.field in e.schema.fields && k.field.unique
  {
  }

  // The keys are free exactly when no stored value clashes.
  lemma KeysFreeExactly(es: Entries, schema: Schema, doc: Document)
    ensures KeysFree(es, doc.id, KeysOf(schema, doc.body)) <==>
            !exists field :: Clashes(es, schema, doc.id, doc.body, field)
  {
    var keys := KeysOf(schema, doc.body);
    if field :| Clashes(es, schema, doc.id, doc.body, field) {
      var other :|
        other in es && other != doc.id && es[other].schema == schema && Shares(field, doc.body, es[other].body);
      KeysMeet(schema, doc.body, es[other].body, field);
      var k :| k in keys && k in KeysOf(schema, es[other].body) && k.field == field;
      assert k in EntryKeys(es[other]);
    }
    if !KeysFree(es, doc.id, keys) {
      var other :| other in es && other != doc.id && !(EntryKeys(es[other]) !! keys);
      var k :| k in EntryKeys(es[other]) && k in keys;
      KeyOrigin(es[other], k);
      KeyOrigin(Entry(schema, doc.body, [], 0, 0), k);
      KeysMeet(schema, doc.body, es[other].body, k.field);
      assert Clashes(es, schema, doc.id, doc.body, k.field);
    }
  }

  // In a sound state a value of a unique field, however it is spelled, belongs to one resource of the schema.
  lemma UniqueOnce(es: Entries, a: Id, b: Id, field: Field)
    requires Sound(es) && a in es && b in es && a != b && es[a].schema == es[b].schema
    requires field in es[a].schema.fields && field.unique
    ensures !Shares(field, es[a].body, es[b].body)
  {
    assert EntryKeys(es[a]) !! EntryKeys(es[b]);
    KeysMeet(es[a].schema, es[a].body, es[b].body, field);
  }

  // ---- Which links a write may have ----

  // An id is named by a link of this attribute.
  ghost predicate Names(e: Entry, attribute: string, t: Id) {
    exists l :: l in e.links && l.attribute == attribute && t in l.targets
  }

  ghost predicate Named(es: Entries, id: Id, attribute: string, t: Id) {
    id in es && Names(es[id], attribute, t)
  }

  // The ids lead from one to the next through links of the attribute.
  ghost predicate Trail(es: Entries, attribute: string, p: seq<Id>) {
    |p| > 0 && forall i :: 0 < i < |p| ==> Named(es, p[i - 1], attribute, p[i])
  }

  ghost predicate Leads(es: Entries, attribute: string, from: Id, goal: Id) {
    exists p :: Trail(es, attribute, p) && p[0] == from && p[|p| - 1] == goal
  }

  // The document names t, and the stored resource does not.
  ghost predicate NewTarget(es: Entries, doc: Document, l: Link, t: Id) {
    l in doc.links && t in l.targets && !Named(es, doc.id, l.attribute, t)
  }

  // It is stored with another type, or it is not stored and the link must not leave the server.
  ghost predicate WrongTarget(es: Entries, l: Link, t: Id) {
    if t in es then es[t].schema.name !in l.types else !l.soft
  }

  ghost predicate BadTarget(es: Entries, doc: Document, l: Link, t: Id) {
    WrongTarget(es, l, t) || (!l.soft && Leads(es, l.attribute, t, doc.id))
  }

  ghost predicate LinksFine(es: Entries, doc: Document) {
    forall l, t :: NewTarget(es, doc, l, t) ==> !BadTarget(es, doc, l, t)
  }

  lemma NamesIffTarget(es: Entries, id: Id, attribute: string, t: Id)
    requires AllFit(es)
    ensures Named(es, id, attribute, t) <==> t in TargetsOf(LinksAt(es, id), attribute)
    ensures Named(es, id, attribute, t) <==> t in TargetsAt(es, attribute, id)
  {
    if id in es {
      TargetsOfIff(es[id].links, attribute, t);
    }
  }

  lemma LeadsIffReaches(es: Entries, attribute: string, from: Id, goal: Id)
    requires AllFit(es)
    ensures Leads(es, attribute, from, goal) <==> Reaches(es, attribute, from, goal)
  {
    forall id, t ensures Named(es, id, attribute, t) <==> t in TargetsAt(es, attribute, id) {
      NamesIffTarget(es, id, attribute, t);
    }
    if p :| Trail(es, attribute, p) && p[0] == from && p[|p| - 1] == goal {
      forall i | 0 < i < |p| ensures p[i] in TargetsAt(es, attribute, p[i - 1]) {
        assert Named(es, p[i - 1], attribute, p[i]);
      }
      assert Connects(es, attribute, from, goal, p);
    }
    if p :| Connects(es, attribute, from, goal, p) {
      forall i | 0 < i < |p| ensures Named(es, p[i - 1], attribute, p[i]) {
        assert p[i] in TargetsAt(es, attribute, p[i - 1]);
      }
      assert Trail(es, attribute, p);
    }
  }

  lemma LinkFine(es: Entries, doc: Document, l: Link)
    requires AllFit(es) && l in doc.links
    ensures LinkAccepted(es, doc.id, LinksAt(es, doc.id), l) <==>
            forall t :: NewTarget(es, doc, l, t) ==> !BadTarget(es, doc, l, t)
  {
    forall t ensures NewTarget(es, doc, l, t) <==> t in l.targets && t !in TargetsOf(LinksAt(es, doc.id), l.attribute) {
      NamesIffTarget(es, doc.id, l.attribute, t);
    }
    forall t ensures TargetAccepted(es, doc.id, l, t) <==> !BadTarget(es, doc, l, t) {
      LeadsIffReaches(es, l.attribute, t, doc.id);
    }
  }

  // A document is accepted exactly when no new target is wrong or leads back, and no unique value is held twice.
  lemma AcceptsExactly(es: Entries, schema: Schema, doc: Document)
    requires AllFit(es)
    ensures LinksAccepted(es, doc) <==> LinksFine(es, doc)
    ensures Accepts(es, schema, doc) <==>
            LinksFine(es, doc) && !exists field :: Clashes(es, schema, doc.id, doc.body, field)
  {
    hide LinkAccepted, Clashes, KeysOf, BadTarget;
    forall l | l in doc.links
      ensures LinkAccepted(es, doc.id, LinksAt(es, doc.id), l) <==>
              forall t :: NewTarget(es, doc, l, t) ==> !BadTarget(es, doc, l, t)
    {
      LinkFine(es, doc, l);
    }
    KeysFreeExactly(es, schema, doc);
  }

  // ---- What the links of a type are ----

  // One link for each reference that is not derived, in the order of the schema, and soft where it has one value.
  ghost predicate LinkOf(r: Reference, l: Link) {
    r.inverseOf == "" && l.attribute == r.name && l.types == r.types && l.soft == !r.multiValued
  }

  lemma {:induction false} TemplateReference(references: seq<Reference>, i: nat) returns (k: nat)
    requires i < |Template(references)|
    ensures k < |references| && LinkOf(references[k], Template(references)[i])
  {
    var rest := references[1..];
    if references[0].Inverse() {
      k := TemplateReference(rest, i);
      k := k + 1;
    } else if i == 0 {
      k := 0;
    } else {
      k := TemplateReference(rest, i - 1);
      k := k + 1;
    }
  }

  lemma {:induction false} TemplateLink(references: seq<Reference>, k: nat) returns (i: nat)
    requires k < |references| && references[k].inverseOf == ""
    ensures i < |Template(references)| && LinkOf(references[k], Template(references)[i])
  {
    if k == 0 {
      i := 0;
    } else {
      i := TemplateLink(references[1..], k - 1);
      if !references[0].Inverse() {
        i := i + 1;
      }
    }
  }

  // A type fixes the links of its resources in everything except the targets.
  lemma LinksFollowReferences(schema: Schema, links: seq<Link>)
    requires Fits(schema, links)
    ensures forall l :: l in links ==> exists r :: r in schema.references && LinkOf(r, l)
    ensures forall r :: r in schema.references && r.inverseOf == "" ==> exists l :: l in links && LinkOf(r, l)
    ensures forall i, j :: 0 <= i < j < |links| ==> links[i].attribute != links[j].attribute
  {
    hide Template;
    assert |Shape(links)| == |links|;
    forall l | l in links ensures exists r :: r in schema.references && LinkOf(r, l) {
      var i :| 0 <= i < |links| && links[i] == l;
      assert Shape(links)[i] == l.(targets := []);
      var k := TemplateReference(schema.references, i);
      assert LinkOf(schema.references[k], l);
    }
    forall r | r in schema.references && r.inverseOf == "" ensures exists l :: l in links && LinkOf(r, l) {
      var k :| 0 <= k < |schema.references| && schema.references[k] == r;
      var i := TemplateLink(schema.references, k);
      assert Shape(links)[i] == links[i].(targets := []);
      assert LinkOf(r, links[i]);
    }
  }

  // ---- What a write leaves behind ----

  // Strictly later if it should be, and otherwise nothing changed at all.
  ghost predicate Retimed(e: Entry, e': Entry, later: bool) {
    if later then e'.updated > e.updated && e' == e.(updated := e'.updated) else e' == e
  }

  // The link as sent; a soft one without the targets this server does not hold.
  ghost predicate Stored(es: Entries, sent: Link, kept: Link) {
    && kept.attribute == sent.attribute && kept.types == sent.types && kept.soft == sent.soft
    && forall t :: multiset(kept.targets)[t] == if sent.soft && t !in es then 0 else multiset(sent.targets)[t]
  }

  ghost predicate GainedOrLost(es: Entries, doc: Document, t: Id) {
    exists l :: l in doc.links && ((t in l.targets) != Named(es, doc.id, l.attribute, t))
  }

  // The document is stored as it was sent, and of the others exactly the gained and the lost targets move on.
  ghost predicate Written(es: Entries, es': Entries, schema: Schema, doc: Document) {
    && es'.Keys == es.Keys + {doc.id}
    && es'[doc.id].schema == schema && es'[doc.id].body == doc.body
    && |es'[doc.id].links| == |doc.links|
    && (forall i :: 0 <= i < |doc.links| ==> Stored(es, doc.links[i], es'[doc.id].links[i]))
    && forall id :: id in es && id != doc.id ==> Retimed(es[id], es'[id], GainedOrLost(es, doc, id))
  }

  lemma {:induction false} HeldCount(es: Entries, ids: seq<Id>, t: Id)
    ensures multiset(Held(es, ids))[t] == if t in es then multiset(ids)[t] else 0
  {
    if ids != [] {
      HeldCount(es, ids[1..], t);
      assert ids == [ids[0]] + ids[1..];
      assert multiset(ids) == multiset{ids[0]} + multiset(ids[1..]);
      var first := if ids[0] in es then [ids[0]] else [];
      assert multiset(Held(es, ids)) == multiset(first) + multiset(Held(es, ids[1..]));
    }
  }

  lemma ResolveStores(es: Entries, link: Link)
    ensures Stored(es, link, Resolve(es, link))
  {
    if link.soft {
      forall t ensures multiset(Held(es, link.targets))[t] == if t in es then multiset(link.targets)[t] else 0 {
        HeldCount(es, link.targets, t);
      }
    }
  }

  lemma GainedOrLostIff(es: Entries, doc: Document, t: Id)
    requires AllFit(es)
    ensures GainedOrLost(es, doc, t) <==> TargetChanged(LinksAt(es, doc.id), doc.links, t)
  {
    forall a ensures Named(es, doc.id, a, t) <==> t in TargetsOf(LinksAt(es, doc.id), a) {
      NamesIffTarget(es, doc.id, a, t);
    }
  }

  lemma SavedIsWritten(es: Entries, es': Entries, schema: Schema, doc: Document, created: int, updated: int)
    requires Sound(es) && WellFormed(schema, doc) && Accepts(es, schema, doc)
    requires doc.id in es ==> es[doc.id].schema == schema
    requires Saved(es, es', schema, doc, created, updated)
    ensures Written(es, es', schema, doc) && es'[doc.id].created == created && es'[doc.id].updated == updated
  {
    hide Sound, Accepts, WellFormed, Resolve, Stored, TargetChanged, GainedOrLost;
    SaveSound(es, es', schema, doc, created, updated);
    forall i | 0 <= i < |doc.links| ensures Stored(es, doc.links[i], es'[doc.id].links[i]) {
      ResolveStores(es, doc.links[i]);
    }
    SoundFits(es);
    forall id | id in es && id != doc.id ensures Retimed(es[id], es'[id], GainedOrLost(es, doc, id)) {
      GainedOrLostIff(es, doc, id);
    }
  }

  lemma SoundFits(es: Entries)
    requires Sound(es)
    ensures AllFit(es)
  {
  }

  // A Create puts the whole document under a new id.
  lemma CreateWrites(es: Entries, es': Entries, schema: Schema, doc: Document)
    requires Sound(es) && WellFormed(schema, doc) && Creates(es, es', schema, doc)
    ensures doc.id !in es && LinksFine(es, doc) && !exists field :: Clashes(es, schema, doc.id, doc.body, field)
    ensures Written(es, es', schema, doc) && es'[doc.id].created == es'[doc.id].updated
  {
    AcceptsExactly(es, schema, doc);
    SavedIsWritten(es, es', schema, doc, es'[doc.id].updated, es'[doc.id].updated);
  }

  // An Update replaces body and links of a stored resource, keeps its creation time and moves its version on.
  lemma UpdateWrites(es: Entries, es': Entries, schema: Schema, doc: Document, version: string)
    requires Sound(es) && WellFormed(schema, doc) && Updates(es, es', schema, doc, version)
    ensures doc.id in es && es[doc.id].schema == schema
    ensures version == "" || version == Etag.Weak(es[doc.id].updated)
    ensures LinksFine(es, doc) && !exists field :: Clashes(es, schema, doc.id, doc.body, field)
    ensures Written(es, es', schema, doc)
    ensures es'[doc.id].created == es[doc.id].created && es'[doc.id].updated > es[doc.id].updated
  {
    AcceptsExactly(es, schema, doc);
    SavedIsWritten(es, es', schema, doc, es[doc.id].created, es'[doc.id].updated);
  }

  // ---- What a delete leaves behind ----

  ghost predicate SoftlyNames(e: Entry, attribute: string, t: Id) {
    exists l :: l in e.links && l.soft && l.attribute == attribute && t in l.targets
  }

  // The entry without any mention of t: neither as a target nor, where a soft link held it, in the body.
  ghost predicate Freed(e: Entry, e': Entry, t: Id) {
    && e'.schema == e.schema && e'.created == e.created && e'.body.values == e.body.values
    && |e'.links| == |e.links|
    && (forall i :: 0 <= i < |e.links| ==>
          && e'.links[i] == e.links[i].(targets := e'.links[i].targets)
          && multiset(e'.links[i].targets) == multiset(e.links[i].targets)[t := 0])
    && (forall a :: a in e'.body.pointers <==> a in e.body.pointers && !SoftlyNames(e, a, t))
    && (forall a :: a in e'.body.pointers ==> e'.body.pointers[a] == e.body.pointers[a])
  }

  ghost predicate LinksTo(e: Entry, t: Id) {
    exists l :: l in e.links && t in l.targets
  }

  // The resource is gone, all others are freed of it, and exactly those linked with it move on.
  ghost predicate Erased(es: Entries, es': Entries, id: Id) {
    && id in es && es'.Keys == es.Keys - {id}
    && forall s :: s in es' ==>
         && Freed(es[s], es'[s], id)
         && if LinksTo(es[s], id) || LinksTo(es[id], s) then es'[s].updated > es[s].updated else es'[s] == es[s]
  }

  lemma {:induction false} WithoutCount(ids: seq<Id>, t: Id)
    ensures multiset(Without(ids, t)) == multiset(ids)[t := 0]
  {
    if ids != [] {
      WithoutCount(ids[1..], t);
      assert ids == [ids[0]] + ids[1..];
      assert multiset(ids) == multiset{ids[0]} + multiset(ids[1..]);
      var first := if ids[0] == t then [] else [ids[0]];
      assert multiset(Without(ids, t)) == multiset(first) + multiset(Without(ids[1..], t));
    }
  }

  lemma SoftNameHasLink(e: Entry, a: string)
    requires Fits(e.schema, e.links) && SoftName(e.schema.references, a)
    ensures exists l :: l in e.links && l.soft && l.attribute == a
  {
    hide Fits;
    var k :| 0 <= k < |e.schema.references| && e.schema.references[k].Soft() && e.schema.references[k].name == a;
    var r := e.schema.references[k];
    LinksFollowReferences(e.schema, e.links);
    assert r in e.schema.references && r.inverseOf == "";
    var l :| l in e.links && LinkOf(r, l);
    assert l.soft && l.attribute == a;
  }

  lemma SoftLinkHasName(e: Entry, l: Link)
    requires Fits(e.schema, e.links) && l in e.links && l.soft
    ensures SoftName(e.schema.references, l.attribute)
  {
    hide Fits;
    LinksFollowReferences(e.schema, e.links);
    var r :| r in e.schema.references && LinkOf(r, l);
    var k :| 0 <= k < |e.schema.references| && e.schema.references[k] == r;
    assert e.schema.references[k].Soft();
  }

  lemma OneLink(e: Entry, l: Link, m: Link)
    requires Fits(e.schema, e.links) && l in e.links && m in e.links && l.attribute == m.attribute
    ensures l == m
  {
  }

  // Under a soft reference's name there is a soft link and no other.
  lemma SoftNameIff(e: Entry, l: Link)
    requires Fits(e.schema, e.links) && l in e.links
    ensures SoftName(e.schema.references, l.attribute) <==> l.soft
  {
    hide Fits, SoftName;
    if SoftName(e.schema.references, l.attribute) {
      SoftNameHasLink(e, l.attribute);
      var m :| m in e.links && m.soft && m.attribute == l.attribute;
      OneLink(e, l, m);
    }
    if l.soft {
      SoftLinkHasName(e, l);
    }
  }

  lemma UnlinkedPointers(e: Entry, t: Id, a: string)
    requires Fits(e.schema, e.links)
    ensures a in AttributesTo(e, t) && SoftName(e.schema.references, a) <==> SoftlyNames(e, a, t)
  {
    hide Fits, SoftName;
    if a in AttributesTo(e, t) {
      var l :| l in e.links && t in l.targets && l.attribute == a;
      SoftNameIff(e, l);
    }
    if SoftlyNames(e, a, t) {
      var l :| l in e.links && l.soft && l.attribute == a && t in l.targets;
      SoftNameIff(e, l);
    }
  }

  lemma UnlinkedTargetsFreed(e: Entry, t: Id, i: nat)
    requires i < |e.links|
    ensures var l := Unlinked(e, AttributesTo(e, t), t).links[i];
            l == e.links[i].(targets := l.targets) && multiset(l.targets) == multiset(e.links[i].targets)[t := 0]
  {
    assert e.links[i] in e.links;
    WithoutCount(e.links[i].targets, t);
    if t !in e.links[i].targets {
      assert multiset(e.links[i].targets)[t := 0] == multiset(e.links[i].targets);
      WithoutIff(e.links[i].targets, t);
    }
  }

  lemma UnlinkedFrees(e: Entry, t: Id)
    requires Fits(e.schema, e.links)
    ensures Freed(e, Unlinked(e, AttributesTo(e, t), t), t)
  {
    hide Fits, SoftlyNames, SoftName, AttributesTo;
    forall i | 0 <= i < |e.links|
      ensures var l := Unlinked(e, AttributesTo(e, t), t).links[i];
              l == e.links[i].(targets := l.targets) && multiset(l.targets) == multiset(e.links[i].targets)[t := 0]
    {
      UnlinkedTargetsFreed(e, t, i);
    }
    forall a ensures a in AttributesTo(e, t) && SoftName(e.schema.references, a) <==> SoftlyNames(e, a, t) {
      UnlinkedPointers(e, t, a);
    }
  }

  lemma NeighbourIff(es: Entries, id: Id, s: Id)
    requires id in es && s in es
    ensures Neighbour(es, id, s) <==> LinksTo(es[s], id) || LinksTo(es[id], s)
  {
    if LinksTo(es[s], id) {
      var l :| l in es[s].links && id in l.targets;
      assert l.attribute in AttributesTo(es[s], id);
    }
    if AttributesTo(es[s], id) != {} {
      var a :| a in AttributesTo(es[s], id);
    }
  }

  lemma NotLinkedStays(es: Entries, id: Id, s: Id)
    requires s in es && !LinksTo(es[s], id)
    ensures Unlinked(es[s], AttributesTo(es[s], id), id) == es[s]
  {
    var e := es[s];
    assert AttributesTo(e, id) == {};
    assert Unlinked(e, {}, id).links == e.links;
    assert Unlinked(e, {}, id).body.pointers == e.body.pointers;
  }

  lemma RemovedIsErased(es: Entries, es': Entries, id: Id)
    requires AllFit(es) && id in es && Removed(es, es', id)
    ensures Erased(es, es', id)
  {
    hide Fits, Unlinked, Freed, LinksTo, Neighbour;
    forall s | s in es'
      ensures Freed(es[s], es'[s], id)
      ensures if LinksTo(es[s], id) || LinksTo(es[id], s) then es'[s].updated > es[s].updated else es'[s] == es[s]
    {
      var e := Unlinked(es[s], AttributesTo(es[s], id), id);
      UnlinkedFrees(es[s], id);
      FreedAnyTime(es[s], e, id, es'[s].updated);
      NeighbourIff(es, id, s);
      UnlinkedTime(es[s], AttributesTo(es[s], id), id);
      if !LinksTo(es[s], id) {
        NotLinkedStays(es, id, s);
      }
    }
  }

  lemma FreedAnyTime(e: Entry, e': Entry, t: Id, updated: int)
    requires Freed(e, e', t)
    ensures Freed(e, e'.(updated := updated), t)
  {
  }

  lemma UnlinkedTime(e: Entry, attributes: set<string>, t: Id)
    ensures Unlinked(e, attributes, t).updated == e.updated
  {
  }

  // A Delete takes the resource and every mention of it that a link held, and nothing else.
  lemma DeleteErases(es: Entries, es': Entries, schema: Schema, id: Id, version: string)
    requires AllFit(es) && Deletes(es, es', schema, id, version)
    ensures Erased(es, es', id) && es[id].schema == schema
    ensures version == "" || version == Etag.Weak(es[id].updated)
  {
    RemovedIsErased(es, es', id);
  }

  // One reference dropped: its links lose t, and a single-valued one leaves the body.
  ghost predicate Dropped(e: Entry, e': Entry, attribute: string, t: Id) {
    && e'.schema == e.schema && e'.created == e.created && e'.updated == e.updated
    && e'.body.values == e.body.values && |e'.links| == |e.links|
    && (forall i :: 0 <= i < |e.links| ==>
          && e'.links[i] == e.links[i].(targets := e'.links[i].targets)
          && multiset(e'.links[i].targets) ==
             if e.links[i].attribute == attribute then multiset(e.links[i].targets)[t := 0]
             else multiset(e.links[i].targets))
    && (forall a :: a in e'.body.pointers <==> a in e.body.pointers && !(a == attribute && Single(e.schema, a)))
    && (forall a :: a in e'.body.pointers ==> e'.body.pointers[a] == e.body.pointers[a])
  }

  ghost predicate Single(schema: Schema, attribute: string) {
    exists r :: r in schema.references && r.name == attribute && !r.multiValued && r.inverseOf == ""
  }

  lemma SingleIff(schema: Schema, a: string)
    ensures SoftName(schema.references, a) <==> Single(schema, a)
  {
    if SoftName(schema.references, a) {
      var i :| 0 <= i < |schema.references| && schema.references[i].Soft() && schema.references[i].name == a;
      assert schema.references[i] in schema.references;
    }
  }

  lemma UnlinkedDrops(e: Entry, attribute: string, t: Id)
    ensures Dropped(e, Unlinked(e, {attribute}, t), attribute, t)
  {
    forall i | 0 <= i < |e.links|
      ensures var l := Unlinked(e, {attribute}, t).links[i];
              e.links[i].attribute == attribute ==> multiset(l.targets) == multiset(e.links[i].targets)[t := 0]
    {
      WithoutCount(e.links[i].targets, t);
    }
    SingleIff(e.schema, attribute);
  }

  // ---- What a reader is shown ----

  // A derived reference lists, once each, the resources of its types that name this one; a list lists its
  // targets with their types; a single reference lists nothing, since it stays in the body.
  ghost predicate ShowsReference(es: Entries, id: Id, r: Reference, shown: Listing)
    requires id in es
  {
    if r.inverseOf != "" then
      && (forall s :: shown.members[s] == if s in es && Derives(es[s], id, r) then 1 else 0)
      && shown.kinds.Keys == (set s | s in shown.members)
      && forall s :: s in shown.kinds ==> shown.kinds[s] == "direct"
    else if r.multiValued then
      && (forall l :: l in es[id].links && l.attribute == r.name ==> shown.members == multiset(l.targets))
      && shown.kinds.Keys == (set t | t in shown.members)
      && forall t :: t in shown.kinds ==> t in es && shown.kinds[t] == es[t].schema.name
    else shown == Listing(multiset{}, map[])
  }

  ghost predicate Derives(e: Entry, id: Id, r: Reference) {
    e.schema.name in r.types && Names(e, r.inverseOf, id)
  }

  ghost predicate Shows(es: Entries, id: Id, record: Record) {
    && id in es && record.id == id && record.view.body == es[id].body
    && record.created == es[id].created && record.updated == es[id].updated
    && record.version == Etag.Weak(es[id].updated)
    && |record.view.listings| == |es[id].schema.references|
    && forall i :: 0 <= i < |record.view.listings| ==>
         ShowsReference(es, id, es[id].schema.references[i], record.view.listings[i])
  }

  lemma ListShows(es: Entries, id: Id, r: Reference)
    requires AllFit(es) && NoDangling(es) && id in es
    ensures (TargetsStored(es, id, r.name); ShowsReference(es, id, r, List(es, id, r)))
  {
    TargetsStored(es, id, r.name);
    var shown := List(es, id, r);
    if r.Inverse() {
      forall s ensures shown.members[s] == if s in es && Derives(es[s], id, r) then 1 else 0 {
        NamesIffTarget(es, s, r.inverseOf, id);
        assert s in es ==> (Derives(es[s], id, r) <==> s in InverseSources(es, id, r));
      }
    } else if r.multiValued {
      forall l | l in es[id].links && l.attribute == r.name ensures shown.members == multiset(l.targets) {
        var i :| 0 <= i < |es[id].links| && es[id].links[i] == l;
        TargetsOfMember(es[id].links, i);
      }
    }
  }

  // A record shows the stored body, times and tag, and each reference as the links of the whole store have it.
  lemma RecordShows(es: Entries, id: Id)
    requires AllFit(es) && NoDangling(es) && id in es
    ensures Shows(es, id, RecordOf(es, id))
  {
    hide ShowsReference, List;
    forall i | 0 <= i < |es[id].schema.references|
      ensures ShowsReference(es, id, es[id].schema.references[i], RecordOf(es, id).view.listings[i])
    {
      ListShows(es, id, es[id].schema.references[i]);
    }
  }
}
