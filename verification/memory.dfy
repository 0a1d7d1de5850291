// The in-memory store: entries with a reverse-link index and a unique index, all changed in place.
module Memory {
  import opened Wrappers
  import opened StoreTypes
  import opened StoreGraph
  import opened StoreSpec
  import opened StoreInvariants
  import opened StoreIndex
  import opened StoreMeaning
  import Etag

  // ---- Clock ----

  // The wall clock in microseconds: any time at all, forwards or backwards.
  method Now() returns (t: int)
  {
    t := *;
  }

  method Bumped(previous: int) returns (modified: int)
    ensures modified > previous
  {
    modified := Now();
    if modified <= previous {
      modified := previous + 1;
    }
  }

  // ---- Link differences ----

  // The ids of from that are not in exclude, each once, in order of first appearance.
  method Missing(from: seq<Id>, exclude: seq<Id>) returns (absent: seq<Id>)
    ensures forall t :: t in absent <==> t in from && t !in exclude
    ensures forall i, j :: 0 <= i < j < |absent| ==> absent[i] != absent[j]
  {
    absent := [];
    var have: set<Id>, seen: set<Id> := {}, {};
    for i := 0 to |exclude|
      invariant forall t :: t in have <==> t in exclude[..i]
    {
      have := have + {exclude[i]};
    }
    for i := 0 to |from|
      invariant forall t :: t in seen <==> t in from[..i]
      invariant forall t :: t in absent <==> t in from[..i] && t !in exclude
      invariant forall j, k :: 0 <= j < k < |absent| ==> absent[j] != absent[k]
    {
      if from[i] !in have && from[i] !in seen {
        absent := absent + [from[i]];
      }
      seen := seen + {from[i]};
    }
  }

  method LinkDiff(current: seq<Id>, wanted: seq<Id>) returns (add: seq<Id>, remove: seq<Id>)
    ensures forall t :: t in add <==> t in wanted && t !in current
    ensures forall t :: t in remove <==> t in current && t !in wanted
  {
    add := Missing(wanted, current);
    remove := Missing(current, wanted);
  }

  // Every target a write adds to or removes from a link.
  method ChangedTargets(before: seq<Link>, links: seq<Link>) returns (changed: seq<Id>)
    ensures forall t :: t in changed <==> TargetChanged(before, links, t)
  {
    changed := [];
    for i := 0 to |links|
      invariant forall t :: t in changed <==> TargetChanged(before, links[..i], t)
    {
      var add, remove := LinkDiff(TargetsOf(before, links[i].attribute), links[i].targets);
      changed := changed + add + remove;
      assert links[..i + 1] == links[..i] + [links[i]];
    }
    assert links[..] == links;
  }

  method AllTargets(links: seq<Link>) returns (all: seq<Id>)
    ensures forall t :: t in all <==> exists l :: l in links && t in l.targets
  {
    all := [];
    for i := 0 to |links|
      invariant forall t :: t in all <==> exists l :: l in links[..i] && t in l.targets
    {
      all := all + links[i].targets;
      assert links[..i + 1] == links[..i] + [links[i]];
    }
    assert links[..] == links;
  }

  // ---- Unique keys ----

  // The keys of the unique fields, in field order; unassigned values have none.
  method IndexKeysOf(e: Entry) returns (keys: seq<Key>)
    ensures forall k :: k in keys <==> k in EntryKeys(e)
  {
    keys := [];
    for i := 0 to |e.schema.fields|
      invariant forall k :: k in keys <==>
                exists f :: f in e.schema.fields[..i] && k in KeysOfField(e.schema, f, e.body)
    {
      var field := e.schema.fields[i];
      assert e.schema.fields[..i + 1] == e.schema.fields[..i] + [field];
      if field.unique {
        var found := UniqueKeys(e.schema, field, e.body);
        keys := keys + found;
      }
    }
    assert e.schema.fields[..] == e.schema.fields;
  }

  method UniqueKeys(schema: Schema, field: Field, body: Body) returns (keys: seq<Key>)
    requires field.unique
    ensures forall k :: k in keys <==> k in KeysOfField(schema, field, body)
    ensures forall w :: Key(schema, field, Fold(field, w)) in keys <==>
              exists v :: Assigns(body, field.name, v) && OneValue(field.caseExact, v, w)
  {
    keys := [];
    var values := ValuesAt(body, field.name);
    for i := 0 to |values|
      invariant forall k :: k in keys <==>
        exists v :: v in values[..i] && v != Unassigned && k == Key(schema, field, Fold(field, v))
    {
      assert values[..i + 1] == values[..i] + [values[i]];
      if values[i] != Unassigned {
        keys := keys + [Key(schema, field, Fold(field, values[i]))];
      }
    }
    assert values[..] == values;
    forall w ensures Key(schema, field, Fold(field, w)) in KeysOfField(schema, field, body) <==>
                     exists v :: Assigns(body, field.name, v) && OneValue(field.caseExact, v, w)
    {
      KeyHeld(schema, field, body, w);
    }
  }

  // ---- Why a write is refused ----

  ghost predicate BadLink(es: Entries, doc: Document, l: Link, t: Id) {
    l in doc.links && t in l.targets && t !in TargetsOf(LinksAt(es, doc.id), l.attribute)
  }

  // The error names something that is wrong with the document.
  ghost predicate Explains(es: Entries, schema: Schema, doc: Document, error: Error) {
    match error
    case InvalidTarget(t) =>
      exists l :: BadLink(es, doc, l, t) && !(if t in es then es[t].schema.name in l.types else l.soft)
    case Cyclic(t, a) => exists l :: BadLink(es, doc, l, t) && l.attribute == a && !l.soft && Reaches(es, a, t, doc.id)
    case NotUnique(a) =>
      exists k, other :: k in KeysOf(schema, doc.body) && k.field.name == a &&
                         other in es && other != doc.id && k in EntryKeys(es[other])
    case _ => false
  }

  function Only(named: bool, e: Edge): set<Edge> {
    if named then {e} else {}
  }

  class Memory {
    var entries: Entries
    var unique: UniqueIndex
    var inbound: Inbound

    // The entries are sound and both indexes are what a scan of the entries would compute.
    ghost predicate Valid()
      reads this
    {
      Sound(entries) && UniqueExact(entries, unique) && InboundExact(entries, inbound)
    }

    constructor ()
      ensures Valid() && entries == map[]
    {
      entries, unique, inbound := map[], map[], map[];
      new;
      forall a, p | |p| > 1 ensures !HardPath(entries, a, p) {
        assert !HardEdge(entries, a, p[0], p[1]);
      }
    }

    // ---- Checks ----

    // Depth-first search over links of one attribute; terminates on any graph, cycles and repeats included.
    method ReachesGoal(from: Id, goal: Id, attribute: string) returns (found: bool)
      ensures found <==> Reaches(entries, attribute, from, goal)
    {
      var seen: set<Id> := {};
      var pending := [from];
      ReachesSelf(entries, attribute, from);
      while |pending| > 0
        invariant forall id :: id in pending ==> Reaches(entries, attribute, from, id)
        invariant forall id :: id in seen ==> id != goal
        invariant from in seen || from in pending
        invariant forall id, t :: id in seen && t in TargetsAt(entries, attribute, id) ==> t in seen || t in pending
        decreases entries.Keys - seen, |pending|
      {
        var id := pending[|pending| - 1];
        ghost var rest := pending[..|pending| - 1];
        assert pending == rest + [id];
        pending := pending[..|pending| - 1];
        if id == goal {
          return true;
        }
        if id !in seen {
          ghost var open := entries.Keys - seen;
          seen := seen + {id};
          pending := pending + TargetsAt(entries, attribute, id);
          forall t | t in TargetsAt(entries, attribute, id) ensures Reaches(entries, attribute, from, t) {
            ReachesStep(entries, attribute, from, id, t);
          }
          assert entries.Keys - seen == open - {id};
        }
      }
      if p :| Connects(entries, attribute, from, goal, p) {
        ClosedSetBlocks(entries, attribute, seen, goal, p);
      }
      found := false;
    }

    method CheckTargets(link: Link, ids: seq<Id>) returns (r: Option<Error>)
      ensures r.None? ==> forall t :: t in ids ==>
              if t in entries then entries[t].schema.name in link.types else link.soft
      ensures r.Some? ==> r.value.InvalidTarget? && r.value.target in ids &&
                          var t := r.value.target;
                          !(if t in entries then entries[t].schema.name in link.types else link.soft)
    {
      for i := 0 to |ids|
        invariant forall j :: 0 <= j < i ==>
          if ids[j] in entries then entries[ids[j]].schema.name in link.types else link.soft
      {
        var held := ids[i] in entries;
        if !held && link.soft {
          continue;
        }
        if !held || entries[ids[i]].schema.name !in link.types {
          return Some(InvalidTarget(ids[i]));
        }
      }
      r := None;
    }

    method CheckAcyclic(source: Id, attribute: string, targets: seq<Id>) returns (r: Option<Error>)
      ensures r.None? ==> forall t :: t in targets ==> !Reaches(entries, attribute, t, source)
      ensures r.Some? ==> exists t ::
                r.value == Cyclic(t, attribute) && t in targets && Reaches(entries, attribute, t, source)
    {
      for i := 0 to |targets|
        invariant forall j :: 0 <= j < i ==> !Reaches(entries, attribute, targets[j], source)
      {
        var found := ReachesGoal(targets[i], source, attribute);
        if found {
          return Some(Cyclic(targets[i], attribute));
        }
      }
      r := None;
    }

    // Only the targets a link did not have before are checked.
    method CheckLinks(schema: Schema, doc: Document) returns (r: Option<Error>)
      ensures r.None? <==> LinksAccepted(entries, doc)
      ensures r.Some? ==> Explains(entries, schema, doc, r.value) && !r.value.NotUnique?
    {
      var before := LinksAt(entries, doc.id);
      for i := 0 to |doc.links|
        invariant forall j :: 0 <= j < i ==> LinkAccepted(entries, doc.id, before, doc.links[j])
      {
        var link := doc.links[i];
        var add, _ := LinkDiff(TargetsOf(before, link.attribute), link.targets);
        r := CheckTargets(link, add);
        if r.Some? {
          assert BadLink(entries, doc, link, r.value.target);
          assert !TargetAccepted(entries, doc.id, link, r.value.target);
          return;
        }
        if link.soft {
          continue;
        }
        r := CheckAcyclic(doc.id, link.attribute, add);
        if r.Some? {
          assert BadLink(entries, doc, link, r.value.target);
          assert !TargetAccepted(entries, doc.id, link, r.value.target);
          return;
        }
      }
      r := None;
    }

    // The attribute of the first key another resource holds.
    method Conflict(id: Id, keys: seq<Key>) returns (attribute: Option<string>)
      ensures attribute.None? <==> forall k :: k in keys && k in unique ==> unique[k] == id
      ensures attribute.Some? ==> exists k ::
              k in keys && k in unique && unique[k] != id && k.field.name == attribute.value
    {
      for i := 0 to |keys|
        invariant forall j :: 0 <= j < i && keys[j] in unique ==> unique[keys[j]] == id
      {
        if keys[i] in unique && unique[keys[i]] != id {
          return Some(keys[i].field.name);
        }
      }
      attribute := None;
    }

    method ResolvedLinks(links: seq<Link>) returns (resolved: seq<Link>)
      ensures resolved == Resolved(entries, links)
    {
      resolved := [];
      for i := 0 to |links|
        invariant resolved == Resolved(entries, links)[..i]
      {
        resolved := resolved + [Resolve(entries, links[i])];
      }
    }

    // ---- Index updates ----

    method AddKeys(keys: seq<Key>, id: Id)
      modifies this`unique
      ensures forall k :: k in unique <==> k in old(unique) || k in keys
      ensures forall k :: k in unique ==> unique[k] == if k in keys then id else old(unique)[k]
    {
      for i := 0 to |keys|
        invariant forall k :: k in unique <==> k in old(unique) || k in keys[..i]
        invariant forall k :: k in unique ==> unique[k] == if k in keys[..i] then id else old(unique)[k]
      {
        unique := unique[keys[i] := id];
      }
    }

    method RemoveKeys(keys: seq<Key>)
      modifies this`unique
      ensures forall k :: k in unique <==> k in old(unique) && k !in keys
      ensures forall k :: k in unique ==> unique[k] == old(unique)[k]
    {
      for i := 0 to |keys|
        invariant forall k :: k in unique <==> k in old(unique) && k !in keys[..i]
        invariant forall k :: k in unique ==> unique[k] == old(unique)[k]
      {
        unique := unique - {keys[i]};
      }
    }

    method AddEdge(target: Id, e: Edge)
      modifies this`inbound
      ensures forall t :: Into(inbound, t) == Into(old(inbound), t) + Only(t == target, e)
    {
      if target !in inbound {
        inbound := inbound[target := {}];
      }
      inbound := inbound[target := inbound[target] + {e}];
    }

    method RemoveEdge(target: Id, e: Edge)
      modifies this`inbound
      ensures forall t :: Into(inbound, t) == Into(old(inbound), t) - Only(t == target, e)
    {
      if target in inbound {
        inbound := inbound[target := inbound[target] - {e}];
      }
    }

    method RemoveLinks(source: Id, links: seq<Link>)
      modifies this`inbound
      ensures forall t :: Into(inbound, t) == Into(old(inbound), t) - EdgesInto(source, links, t)
    {
      for i := 0 to |links|
        invariant forall t :: Into(inbound, t) == Into(old(inbound), t) - EdgesInto(source, links[..i], t)
      {
        var link := links[i];
        label outer:
        for j := 0 to |link.targets|
          invariant forall t ::
                      Into(inbound, t) ==
                      Into(old@outer(inbound), t) - Only(t in link.targets[..j], Edge(source, link.attribute))
        {
          RemoveEdge(link.targets[j], Edge(source, link.attribute));
        }
        assert links[..i + 1] == links[..i] + [link];
      }
      assert links[..] == links;
    }

    method AddLinks(source: Id, links: seq<Link>)
      modifies this`inbound
      ensures forall t :: Into(inbound, t) == Into(old(inbound), t) + EdgesInto(source, links, t)
    {
      for i := 0 to |links|
        invariant forall t :: Into(inbound, t) == Into(old(inbound), t) + EdgesInto(source, links[..i], t)
      {
        var link := links[i];
        label outer:
        for j := 0 to |link.targets|
          invariant forall t ::
                      Into(inbound, t) ==
                      Into(old@outer(inbound), t) + Only(t in link.targets[..j], Edge(source, link.attribute))
        {
          AddEdge(link.targets[j], Edge(source, link.attribute));
        }
        assert links[..i + 1] == links[..i] + [link];
      }
      assert links[..] == links;
    }

    method Relink(source: Id, before: seq<Link>, after: seq<Link>)
      modifies this`inbound
      ensures forall t ::
                Into(inbound, t) == Into(old(inbound), t) - EdgesInto(source, before, t) + EdgesInto(source, after, t)
    {
      RemoveLinks(source, before);
      AddLinks(source, after);
    }

    method Touch(ids: seq<Id>)
      modifies this`entries
      ensures Touched(old(entries), entries, iset t | t in ids)
    {
      for i := 0 to |ids|
        invariant Touched(old(entries), entries, iset t | t in ids[..i])
      {
        var id := ids[i];
        if id in entries {
          var modified := Bumped(entries[id].updated);
          entries := entries[id := entries[id].(updated := modified)];
        }
      }
    }

    // ---- Rendering ----

    // The sources that link to this id with the attribute, read off the reverse index.
    method Sources(target: Id, attribute: string) returns (sources: set<Id>)
      ensures sources == set e | e in Into(inbound, target) && e.attribute == attribute :: e.source
    {
      sources := {};
      var open := Into(inbound, target);
      while open != {}
        invariant open <= Into(inbound, target)
        invariant sources == set e | e in Into(inbound, target) - open && e.attribute == attribute :: e.source
        decreases open
      {
        var e :| e in open;
        if e.attribute == attribute {
          sources := sources + {e.source};
        }
        assert Into(inbound, target) - (open - {e}) == (Into(inbound, target) - open) + {e};
        open := open - {e};
      }
    }

    method ListMembers(id: Id, reference: Reference) returns (listing: Listing)
      requires Valid() && id in entries
      ensures (TargetsStored(entries, id, reference.name); listing == List(entries, id, reference))
    {
      TargetsStored(entries, id, reference.name);
      if reference.Soft() {
        return Listing(multiset{}, map[]);
      }
      if !reference.Inverse() {
        var targets := TargetsOf(entries[id].links, reference.name);
        return Listing(multiset(targets), map t | t in targets :: entries[t].schema.name);
      }
      listing := InverseMembers(id, reference);
    }

    method InverseMembers(id: Id, reference: Reference) returns (listing: Listing)
      requires Valid() && id in entries && reference.Inverse()
      ensures listing == Listing(multiset(InverseSources(entries, id, reference)),
                                 map s | s in InverseSources(entries, id, reference) :: "direct")
    {
      var linked := Sources(id, reference.inverseOf);
      SourcesAreInverse(id, reference, linked);
      var sources := set s | s in linked && entries[s].schema.name in reference.types;
      assert sources == InverseSources(entries, id, reference);
      listing := Listing(multiset(sources), map s | s in sources :: "direct");
    }

    lemma SourcesAreInverse(id: Id, r: Reference, linked: set<Id>)
      requires InboundExact(entries, inbound)
      requires linked == set e | e in Into(inbound, id) && e.attribute == r.inverseOf :: e.source
      ensures forall s :: s in linked <==> s in entries && id in TargetsOf(entries[s].links, r.inverseOf)
    {
      forall s | s in entries && id in TargetsOf(entries[s].links, r.inverseOf) ensures s in linked {
        assert Edge(s, r.inverseOf) in Into(inbound, id);
      }
    }

    method RecordFor(id: Id) returns (record: Record)
      requires Valid() && id in entries
      ensures record == RecordOf(entries, id)
    {
      var e := entries[id];
      var listings: seq<Listing> := [];
      for i := 0 to |e.schema.references|
        invariant listings == Render(entries, id).listings[..i]
      {
        var listing := ListMembers(id, e.schema.references[i]);
        listings := listings + [listing];
      }
      record := Record(id, View(e.body, listings), e.created, e.updated, Etag.Weak(e.updated));
    }

    method Find(schema: Schema, id: Id) returns (r: Result<Record, Error>)
      requires Valid()
      ensures r.Ok? <==> id in entries && entries[id].schema == schema
      ensures r.Ok? ==> r.value == RecordOf(entries, id) && Shows(entries, id, r.value)
      ensures r.Err? ==> r.error == NotFound
    {
      if id in entries && entries[id].schema == schema {
        var record := RecordFor(id);
        RecordShows(entries, id);
        r := Ok(record);
      } else {
        r := Err(NotFound);
      }
    }

    // ---- Writes ----

    method Verify(schema: Schema, doc: Document, next: Entry) returns (r: Result<seq<Key>, Error>)
      requires Valid()
      requires next.schema == schema && next.body == doc.body
      ensures r.Ok? <==> Accepts(entries, schema, doc)
      ensures r.Ok? ==> forall k :: k in r.value <==> k in EntryKeys(next)
      ensures r.Err? ==> Explains(entries, schema, doc, r.error)
      ensures r.Err? ==> (r.error.NotUnique? <==> LinksAccepted(entries, doc))
    {
      var bad := CheckLinks(schema, doc);
      if bad.Some? {
        return Err(bad.value);
      }
      var keys := IndexKeysOf(next);
      var attribute := Conflict(doc.id, keys);
      ConflictIsScan(entries, unique, doc.id, EntryKeys(next));
      if attribute.Some? {
        var k :| k in keys && k in unique && unique[k] != doc.id && k.field.name == attribute.value;
        assert unique[k] in entries && k in EntryKeys(entries[unique[k]]);
        return Err(NotUnique(attribute.value));
      }
      r := Ok(keys);
    }

    method CommitWrite(schema: Schema, doc: Document, next: Entry, keys: seq<Key>)
      requires Valid() && WellFormed(schema, doc) && Accepts(entries, schema, doc)
      requires doc.id in entries ==> entries[doc.id].schema == schema
      requires next == Next(entries, schema, doc, next.created, next.updated)
      requires forall k :: k in keys <==> k in EntryKeys(next)
      modifies this
      ensures Valid()
      ensures Saved(old(entries), entries, schema, doc, next.created, next.updated)
      ensures doc.id in entries && entries[doc.id] == next
    {
      ghost var es, u, inb := entries, unique, inbound;
      var before := LinksAt(entries, doc.id);
      if doc.id in entries {
        var stale := IndexKeysOf(entries[doc.id]);
        RemoveKeys(stale);
      }
      var changed := ChangedTargets(before, doc.links);
      Relink(doc.id, before, next.links);
      entries := entries[doc.id := next];
      ghost var mid := entries;
      Touch(changed);
      assert (iset t | t in changed) == iset t | TargetChanged(before, doc.links, t);
      AddKeys(keys, doc.id);
      ResolvedFits(es, schema, doc.links);
      WriteKeepsInbound(es, inb, inbound, doc.id, next);
      WriteKeepsUnique(es, u, unique, doc.id, next);
      TouchKeepsIndexes(mid, entries, (iset t | t in changed), unique, inbound);
      SaveSound(es, entries, schema, doc, next.created, next.updated);
    }

    method Save(schema: Schema, doc: Document, created: int, updated: int) returns (r: Result<Record, Error>)
      requires Valid() && WellFormed(schema, doc)
      requires doc.id in entries ==> entries[doc.id].schema == schema
      modifies this
      ensures Valid()
      ensures r.Ok? <==> Accepts(old(entries), schema, doc)
      ensures r.Ok? ==> Saved(old(entries), entries, schema, doc, created, updated)
      ensures r.Ok? ==> doc.id in entries && entries[doc.id].updated == updated && r.value == RecordOf(entries, doc.id)
      ensures r.Err? ==> entries == old(entries) && unique == old(unique) && inbound == old(inbound)
      ensures r.Err? ==> Explains(entries, schema, doc, r.error)
      ensures r.Err? ==> (r.error.NotUnique? <==> LinksAccepted(entries, doc))
    {
      var links := ResolvedLinks(doc.links);
      var next := Entry(schema, doc.body, links, created, updated);
      var verified := Verify(schema, doc, next);
      if verified.Err? {
        return Err(verified.error);
      }
      CommitWrite(schema, doc, next, verified.value);
      var record := RecordFor(doc.id);
      r := Ok(record);
    }

    method Create(schema: Schema, doc: Document) returns (r: Result<Record, Error>)
      requires Valid() && WellFormed(schema, doc) && doc.id !in entries
      modifies this
      ensures Valid()
      ensures r.Ok? <==> Accepts(old(entries), schema, doc)
      ensures r.Ok? ==> Creates(old(entries), entries, schema, doc) && r.value == RecordOf(entries, doc.id)
      ensures r.Err? ==> entries == old(entries) && unique == old(unique) && inbound == old(inbound)
      ensures r.Err? ==> Explains(entries, schema, doc, r.error)
      ensures r.Ok? ==> Written(old(entries), entries, schema, doc) && Shows(entries, doc.id, r.value)
      ensures LinksFine(old(entries), doc) ==>
                (r.Err? <==> exists field :: Clashes(old(entries), schema, doc.id, doc.body, field)) &&
                (r.Err? ==> r.error.NotUnique?)
      ensures !LinksFine(old(entries), doc) ==> r.Err? && !r.error.NotUnique?
    {
      ghost var es := entries;
      AcceptsExactly(es, schema, doc);
      var at := Now();
      r := Save(schema, doc, at, at);
      if r.Ok? {
        CreateWrites(es, entries, schema, doc);
        RecordShows(entries, doc.id);
      }
    }

    method Locate(schema: Schema, id: Id, version: string) returns (found: bool)
      ensures found <==> Locates(entries, schema, id, version)
    {
      found := id in entries && entries[id].schema == schema &&
               (version == "" || Etag.Weak(entries[id].updated) == version);
    }

    method Update(schema: Schema, doc: Document, version: string) returns (r: Result<Record, Error>)
      requires Valid() && WellFormed(schema, doc)
      modifies this
      ensures Valid()
      ensures r.Ok? <==> Locates(old(entries), schema, doc.id, version) && Accepts(old(entries), schema, doc)
      ensures r.Ok? ==> Updates(old(entries), entries, schema, doc, version) && r.value == RecordOf(entries, doc.id)
      ensures r.Err? ==> entries == old(entries) && unique == old(unique) && inbound == old(inbound)
      ensures r.Err? ==>
        if Locates(entries, schema, doc.id, version) then Explains(entries, schema, doc, r.error)
        else r.error == NoMatch
      ensures r.Ok? ==> Written(old(entries), entries, schema, doc) && Shows(entries, doc.id, r.value)
      ensures r.Err? && r.error != NoMatch ==> (r.error.NotUnique? <==> LinksFine(old(entries), doc))
    {
      ghost var es := entries;
      AcceptsExactly(es, schema, doc);
      var found := Locate(schema, doc.id, version);
      if !found {
        return Err(NoMatch);
      }
      var current := entries[doc.id];
      var modified := Bumped(current.updated);
      r := Save(schema, doc, current.created, modified);
      if r.Ok? {
        UpdateWrites(es, entries, schema, doc, version);
        RecordShows(entries, doc.id);
      }
    }

    // ---- Deletes ----

    method Drop(target: Id) returns (edges: set<Edge>)
      modifies this`inbound
      ensures edges == Into(old(inbound), target)
      ensures forall t :: Into(inbound, t) == if t == target then {} else Into(old(inbound), t)
    {
      edges := Into(inbound, target);
      inbound := inbound - {target};
    }

    method Unlink(e: Edge, target: Id)
      requires e.source in entries
      modifies this`entries
      ensures entries == old(entries)[e.source := Unlinked(old(entries)[e.source], {e.attribute}, target)]
      ensures Dropped(old(entries)[e.source], entries[e.source], e.attribute, target)
    {
      var source := entries[e.source];
      for i := 0 to |source.links|
        invariant |source.links| == |entries[e.source].links|
        invariant source == entries[e.source].(links := source.links)
        invariant forall j :: 0 <= j < |source.links| ==>
          source.links[j] ==
          if j < i then UnlinkLink(entries[e.source].links[j], {e.attribute}, target) else entries[e.source].links[j]
      {
        source := source.(links := source.links[i := UnlinkLink(source.links[i], {e.attribute}, target)]);
      }
      if SoftName(source.schema.references, e.attribute) {
        source := source.(body := source.body.(pointers := source.body.pointers - {e.attribute}));
      }
      assert source.links == Unlinked(entries[e.source], {e.attribute}, target).links;
      assert source.body.pointers == Unlinked(entries[e.source], {e.attribute}, target).body.pointers;
      UnlinkedDrops(entries[e.source], e.attribute, target);
      entries := entries[e.source := source];
    }

    // Unlinks the target from every resource that names it, and returns those resources.
    method Detach(target: Id) returns (detached: seq<Id>)
      requires forall e :: e in Into(inbound, target) ==> e.source in entries
      modifies this`entries, this`inbound
      ensures entries == Detaching(old(entries), Into(old(inbound), target), target)
      ensures forall s :: s in detached <==> exists e :: e in Into(old(inbound), target) && e.source == s
      ensures forall t :: Into(inbound, t) == if t == target then {} else Into(old(inbound), t)
    {
      var edges := Drop(target);
      detached := [];
      var open := edges;
      ghost var dropped := inbound;
      DetachNothing(entries, target);
      assert edges - open == {};
      while open != {}
        invariant open <= edges && inbound == dropped
        invariant entries == Detaching(old(entries), edges - open, target)
        invariant forall s :: s in detached <==> exists e :: e in edges - open && e.source == s
        decreases open
      {
        var e :| e in open;
        DetachOne(old(entries), edges - open, e, target);
        assert edges - (open - {e}) == edges - open + {e};
        Unlink(e, target);
        detached := detached + [e.source];
        open := open - {e};
      }
      assert edges - open == edges;
    }

    method Delete(schema: Schema, id: Id, version: string) returns (r: Option<Error>)
      requires Valid()
      modifies this
      ensures Valid()
      ensures r.None? <==> Locates(old(entries), schema, id, version)
      ensures r.None? ==> Deletes(old(entries), entries, schema, id, version)
      ensures r.None? ==> Erased(old(entries), entries, id)
      ensures r.Some? ==>
                r.value == NoMatch && entries == old(entries) && unique == old(unique) && inbound == old(inbound)
    {
      var found := Locate(schema, id, version);
      if !found {
        return Some(NoMatch);
      }
      ghost var es, u, inb := entries, unique, inbound;
      var current := entries[id];
      var keys := IndexKeysOf(current);
      RemoveKeys(keys);
      Relink(id, current.links, []);
      SourcesStored(es, inb, id, inbound);
      entries := entries - {id};
      var detached := Detach(id);
      DetachIsDetached(es, inb, id, entries);
      var all := AllTargets(current.links);
      ghost var mid := entries;
      Touch(detached + all);
      DetachedAreNeighbours(es, inb, id, detached, all);
      DeleteKeepsUnique(es, u, unique, id);
      DeleteKeepsInbound(es, inb, inbound, id);
      TouchKeepsIndexes(mid, entries, (iset t | t in detached + all), unique, inbound);
      RemoveSound(es, entries, id);
      DeleteErases(es, entries, schema, id, version);
      r := None;
    }
  }

  // The attributes through which the source of these edges is linked.
  ghost function NamesOf(edges: set<Edge>, source: Id): set<string> {
    set e | e in edges && e.source == source :: e.attribute
  }

  // The entries with the target unlinked along these edges.
  ghost function Detaching(es: Entries, edges: set<Edge>, target: Id): Entries {
    map s | s in es :: Unlinked(es[s], NamesOf(edges, s), target)
  }

  lemma DetachNothing(es: Entries, target: Id)
    ensures Detaching(es, {}, target) == es
  {
    forall s | s in es ensures Unlinked(es[s], NamesOf({}, s), target) == es[s] {
      assert NamesOf({}, s) == {};
      assert Unlinked(es[s], {}, target).links == es[s].links;
      assert Unlinked(es[s], {}, target).body.pointers == es[s].body.pointers;
    }
  }

  lemma DetachOne(es: Entries, done: set<Edge>, e: Edge, target: Id)
    requires e.source in es
    ensures var part := Detaching(es, done, target);
            Detaching(es, done + {e}, target) == part[e.source := Unlinked(part[e.source], {e.attribute}, target)]
  {
    UnlinkAgain(es[e.source], NamesOf(done, e.source), e.attribute, target);
    assert NamesOf(done + {e}, e.source) == NamesOf(done, e.source) + {e.attribute};
    forall s | s in es && s != e.source ensures NamesOf(done + {e}, s) == NamesOf(done, s) {}
  }

  // Unlinking one attribute after some others is unlinking all of them at once.
  lemma UnlinkAgain(e: Entry, names: set<string>, a: string, target: Id)
    ensures Unlinked(Unlinked(e, names, target), {a}, target) == Unlinked(e, names + {a}, target)
  {
    var once := Unlinked(e, names, target);
    var twice := Unlinked(once, {a}, target);
    var both := Unlinked(e, names + {a}, target);
    forall i | 0 <= i < |e.links| ensures twice.links[i] == both.links[i] {
      WithoutIff(e.links[i].targets, target);
      WithoutIff(Without(e.links[i].targets, target), target);
    }
    assert twice.links == both.links;
    assert twice.body.pointers == both.body.pointers;
  }

  // The reverse index names only other stored resources, so detaching never reads a missing entry.
  lemma SourcesStored(es: Entries, inbound: Inbound, id: Id, relinked: Inbound)
    requires Sound(es) && id in es && InboundExact(es, inbound)
    requires forall t :: Into(relinked, t) == Into(inbound, t) - EdgesInto(id, es[id].links, t) + EdgesInto(id, [], t)
    ensures forall e :: e in Into(relinked, id) ==> e.source in es && e.source != id
    ensures Into(relinked, id) == Into(inbound, id)
    ensures forall t :: Into(relinked, t) == Into(inbound, t) - EdgesInto(id, es[id].links, t)
  {
    assert forall t :: EdgesInto(id, [], t) == {};
    forall e | e in Into(inbound, id) ensures e.source in es && e.source != id {
      assert e == Edge(e.source, e.attribute);
      TargetsStored(es, e.source, e.attribute);
    }
    EdgesIntoIff(id, es[id].links, id);
    forall e | e in EdgesInto(id, es[id].links, id) ensures false {
      TargetsStored(es, id, e.attribute);
    }
  }

  // The edges recorded at an id are the attributes through which the others name it.
  lemma EdgesAreAttributes(es: Entries, inbound: Inbound, id: Id, s: Id)
    requires AllFit(es) && s in es && InboundExact(es, inbound)
    ensures NamesOf(Into(inbound, id), s) == AttributesTo(es[s], id)
  {
    forall a ensures a in AttributesTo(es[s], id) <==> Edge(s, a) in Into(inbound, id) {
      TargetsOfIff(es[s].links, a, id);
    }
    forall a | a in AttributesTo(es[s], id)
      ensures a in NamesOf(Into(inbound, id), s)
    {
      assert Edge(s, a) in Into(inbound, id);
    }
  }

  lemma DetachIsDetached(es: Entries, inbound: Inbound, id: Id, mid: Entries)
    requires AllFit(es) && InboundExact(es, inbound)
    requires mid == Detaching(es - {id}, Into(inbound, id), id)
    ensures mid == Detached(es, id)
  {
    forall s | s in es ensures NamesOf(Into(inbound, id), s) == AttributesTo(es[s], id) {
      EdgesAreAttributes(es, inbound, id, s);
    }
  }

  lemma DetachedAreNeighbours(es: Entries, inbound: Inbound, id: Id, detached: seq<Id>, all: seq<Id>)
    requires AllFit(es) && id in es && InboundExact(es, inbound)
    requires forall e :: e in Into(inbound, id) ==> e.source in es
    requires forall s :: s in detached <==> exists e :: e in Into(inbound, id) && e.source == s
    requires forall t :: t in all <==> exists l :: l in es[id].links && t in l.targets
    ensures (iset t | t in detached + all) == iset other | Neighbour(es, id, other)
  {
    forall s | s in es ensures s in detached <==> AttributesTo(es[s], id) != {} {
      EdgesAreAttributes(es, inbound, id, s);
      var names := NamesOf(Into(inbound, id), s);
      if e :| e in Into(inbound, id) && e.source == s {
        assert e.attribute in names;
      } else {
        assert names == {};
      }
    }
  }
}
