// What each store operation does to the entries, stated without the indexes, and what a reader sees.
module StoreSpec {
  import opened StoreTypes
  import opened StoreGraph
  import Etag

  // ---- What every reachable state satisfies ----

  // A link names only stored resources of an allowed type, and never its own resource.
  ghost predicate NoDangling(es: Entries) {
    forall id, l, t :: id in es && l in es[id].links && t in l.targets ==>
      t in es && es[t].schema.name in l.types && t != id
  }

  ghost predicate KeysDisjoint(es: Entries) {
    forall a, b :: a in es && b in es && a != b ==> EntryKeys(es[a]) !! EntryKeys(es[b])
  }

  ghost predicate AllFit(es: Entries) {
    forall id :: id in es ==> Fits(es[id].schema, es[id].links)
  }

  ghost predicate Sound(es: Entries) {
    AllFit(es) && NoDangling(es) && Acyclic(es) && KeysDisjoint(es)
  }

  // ---- Writes ----

  // What the encoder guarantees of a document of this type.
  ghost predicate WellFormed(schema: Schema, doc: Document) {
    Fits(schema, doc.links) && forall l :: l in doc.links && l.soft ==> doc.id !in l.targets
  }

  function LinksAt(es: Entries, id: Id): seq<Link> {
    if id in es then es[id].links else []
  }

  // A target the resource did not have before must exist with an allowed type, unless the link is soft
  // and the target is not stored at all; a hard one must not lead back to the resource.
  ghost predicate TargetAccepted(es: Entries, id: Id, link: Link, t: Id) {
    && (if t in es then es[t].schema.name in link.types else link.soft)
    && (link.soft || !Reaches(es, link.attribute, t, id))
  }

  ghost predicate LinkAccepted(es: Entries, id: Id, before: seq<Link>, link: Link) {
    forall t :: t in link.targets && t !in TargetsOf(before, link.attribute) ==> TargetAccepted(es, id, link, t)
  }

  // Scanning every other resource finds none that holds one of the keys.
  ghost predicate KeysFree(es: Entries, id: Id, keys: set<Key>) {
    forall other :: other in es && other != id ==> EntryKeys(es[other]) !! keys
  }

  ghost predicate LinksAccepted(es: Entries, doc: Document) {
    forall l :: l in doc.links ==> LinkAccepted(es, doc.id, LinksAt(es, doc.id), l)
  }

  ghost predicate Accepts(es: Entries, schema: Schema, doc: Document) {
    LinksAccepted(es, doc) && KeysFree(es, doc.id, KeysOf(schema, doc.body))
  }

  function Held(es: Entries, ids: seq<Id>): seq<Id> {
    if ids == [] then []
    else (if ids[0] in es then [ids[0]] else []) + Held(es, ids[1..])
  }

  // A soft link keeps only the targets this server holds.
  function Resolve(es: Entries, link: Link): Link {
    if link.soft then link.(targets := Held(es, link.targets)) else link
  }

  function Resolved(es: Entries, links: seq<Link>): seq<Link> {
    seq(|links|, i requires 0 <= i < |links| => Resolve(es, links[i]))
  }

  function Next(es: Entries, schema: Schema, doc: Document, created: int, updated: int): Entry {
    Entry(schema, doc.body, Resolved(es, doc.links), created, updated)
  }

  ghost predicate TargetChanged(before: seq<Link>, links: seq<Link>, t: Id) {
    exists l :: l in links && ((t in l.targets) != (t in TargetsOf(before, l.attribute)))
  }

  // The listed resources get a strictly later time; nothing else changes.
  ghost predicate Touched(es: Entries, es': Entries, touched: iset<Id>) {
    && es'.Keys == es.Keys
    && forall id :: id in es ==>
         if id in touched then es'[id].updated > es[id].updated && es'[id] == es[id].(updated := es'[id].updated)
         else es'[id] == es[id]
  }

  ghost predicate Saved(es: Entries, es': Entries, schema: Schema, doc: Document, created: int, updated: int) {
    Touched(es[doc.id := Next(es, schema, doc, created, updated)], es',
            iset t | TargetChanged(LinksAt(es, doc.id), doc.links, t))
  }

  // ---- Deletes ----

  function Without(ids: seq<Id>, t: Id): seq<Id> {
    if ids == [] then []
    else (if ids[0] == t then [] else [ids[0]]) + Without(ids[1..], t)
  }

  function UnlinkLink(link: Link, attributes: set<string>, t: Id): Link {
    if link.attribute in attributes then link.(targets := Without(link.targets, t)) else link
  }

  predicate SoftName(references: seq<Reference>, name: string) {
    exists i :: 0 <= i < |references| && references[i].Soft() && references[i].name == name
  }

  // Dropping t from the named links; a soft reference also leaves the body.
  function Unlinked(e: Entry, attributes: set<string>, t: Id): Entry {
    e.(links := seq(|e.links|, i requires 0 <= i < |e.links| => UnlinkLink(e.links[i], attributes, t)),
       body := e.body.(pointers := map a | a in e.body.pointers &&
                                          !(a in attributes && SoftName(e.schema.references, a)) :: e.body.pointers[a]))
  }

  function AttributesTo(e: Entry, t: Id): set<string> {
    set l | l in e.links && t in l.targets :: l.attribute
  }

  function Detached(es: Entries, t: Id): Entries {
    map id | id in es && id != t :: Unlinked(es[id], AttributesTo(es[id], t), t)
  }

  ghost predicate Neighbour(es: Entries, id: Id, other: Id) {
    || (other in es && AttributesTo(es[other], id) != {})
    || (id in es && exists l :: l in es[id].links && other in l.targets)
  }

  ghost predicate Removed(es: Entries, es': Entries, id: Id) {
    Touched(Detached(es, id), es', iset other | Neighbour(es, id, other))
  }

  // ---- The steps ----

  // The resource is stored with this type, and a given version is its current one.
  predicate Locates(es: Entries, schema: Schema, id: Id, version: string) {
    id in es && es[id].schema == schema && (version == "" || Etag.Weak(es[id].updated) == version)
  }

  ghost predicate Creates(es: Entries, es': Entries, schema: Schema, doc: Document) {
    && doc.id !in es && Accepts(es, schema, doc)
    && doc.id in es' && Saved(es, es', schema, doc, es'[doc.id].updated, es'[doc.id].updated)
  }

  ghost predicate Updates(es: Entries, es': Entries, schema: Schema, doc: Document, version: string) {
    && Locates(es, schema, doc.id, version) && Accepts(es, schema, doc)
    && doc.id in es' && es'[doc.id].updated > es[doc.id].updated
    && Saved(es, es', schema, doc, es[doc.id].created, es'[doc.id].updated)
  }

  ghost predicate Deletes(es: Entries, es': Entries, schema: Schema, id: Id, version: string) {
    Locates(es, schema, id, version) && Removed(es, es', id)
  }

  // ---- What a reader sees ----

  // The members of one reference as a bag, since the store lists them sorted, with the type of each.
  datatype Listing = Listing(members: multiset<Id>, kinds: map<Id, string>)

  datatype View = View(body: Body, listings: seq<Listing>)

  datatype Record = Record(id: Id, view: View, created: int, updated: int, version: string)

  // A derived reference lists every resource of an allowed type that links here.
  ghost function InverseSources(es: Entries, id: Id, r: Reference): set<Id> {
    set s | s in es && id in TargetsOf(es[s].links, r.inverseOf) && es[s].schema.name in r.types
  }

  ghost function List(es: Entries, id: Id, r: Reference): Listing
    requires id in es
    requires forall t :: t in TargetsOf(es[id].links, r.name) ==> t in es
  {
    if r.Soft() then Listing(multiset{}, map[])
    else if r.Inverse() then
      Listing(multiset(InverseSources(es, id, r)), map s | s in InverseSources(es, id, r) :: "direct")
    else
      var targets := TargetsOf(es[id].links, r.name);
      Listing(multiset(targets), map t | t in targets :: es[t].schema.name)
  }

  lemma TargetsStored(es: Entries, id: Id, attribute: string)
    requires NoDangling(es) && id in es
    ensures forall t :: t in TargetsOf(es[id].links, attribute) ==> t in es && t != id
  {
    if TargetsOf(es[id].links, attribute) != [] {
      var i := TargetsOfSource(es[id].links, attribute);
      assert es[id].links[i] in es[id].links;
    }
  }

  // A resource is listed under the derived reference of another exactly when it lists the other itself and
  // is of an allowed type: a user's groups are the groups whose members the user is among.
  lemma InverseMirrorsForward(es: Entries, member: Id, group: Id, forward: Reference, inverse: Reference)
    requires NoDangling(es) && member in es && group in es
    requires !forward.Soft() && !forward.Inverse()
    requires !inverse.Soft() && inverse.Inverse() && inverse.inverseOf == forward.name
    ensures (TargetsStored(es, member, inverse.name); TargetsStored(es, group, forward.name);
             group in List(es, member, inverse).members <==>
             member in List(es, group, forward).members && es[group].schema.name in inverse.types)
  {
    TargetsStored(es, member, inverse.name);
    TargetsStored(es, group, forward.name);
    assert group in multiset(InverseSources(es, member, inverse)) <==> group in InverseSources(es, member, inverse);
  }

  ghost function Render(es: Entries, id: Id): View
    requires NoDangling(es) && id in es
  {
    var references := es[id].schema.references;
    View(es[id].body,
         seq(|references|, i requires 0 <= i < |references| =>
           TargetsStored(es, id, references[i].name); List(es, id, references[i])))
  }

  ghost function RecordOf(es: Entries, id: Id): Record
    requires NoDangling(es) && id in es
  {
    Record(id, Render(es, id), es[id].created, es[id].updated, Etag.Weak(es[id].updated))
  }
}
