// The data the in-memory store keeps: links, entries, and the two derived indexes.
module StoreTypes {
  import opened Text

  type Id = string

  // A value of a single attribute. Only "no value" and case folding matter to the unique index.
  datatype Value = Unassigned | Str(text: string) | Number(number: int) | Flag(flag: bool)

  // A reference attribute of a resource type, in schema order.
  datatype Reference = Reference(name: string, types: seq<string>, multiValued: bool, inverseOf: string)
  {
    predicate Inverse() { inverseOf != "" }

    predicate Soft() { !multiValued && !Inverse() }
  }

  datatype Field = Field(name: string, unique: bool, caseExact: bool)

  datatype Schema = Schema(name: string, references: seq<Reference>, fields: seq<Field>)

  datatype Link = Link(attribute: string, types: seq<string>, targets: seq<Id>, soft: bool)

  // The stored document: the values of each plain attribute, and the soft references that stay in the body.
  datatype Body = Body(values: map<string, seq<Value>>, pointers: map<string, Id>)

  datatype Document = Document(id: Id, body: Body, links: seq<Link>)

  datatype Entry = Entry(schema: Schema, body: Body, links: seq<Link>, created: int, updated: int)

  type Entries = map<Id, Entry>

  datatype Edge = Edge(source: Id, attribute: string)

  type Inbound = map<Id, set<Edge>>

  datatype Key = Key(scope: Schema, field: Field, value: Value)

  type UniqueIndex = map<Key, Id>

  datatype Error =
    | NoMatch
    | NotFound
    | InvalidTarget(target: Id)
    | Cyclic(target: Id, attribute: string)
    | NotUnique(attribute: string)

  // ---- Links ----

  // The targets of the first link with this attribute.
  function TargetsOf(links: seq<Link>, attribute: string): seq<Id> {
    if links == [] then []
    else if links[0].attribute == attribute then links[0].targets
    else TargetsOf(links[1..], attribute)
  }

  ghost predicate DistinctNames(links: seq<Link>) {
    forall i, j :: 0 <= i < j < |links| ==> links[i].attribute != links[j].attribute
  }

  // The links of a type with their targets left out: one for each forward reference, in schema order.
  function Template(references: seq<Reference>): seq<Link> {
    if references == [] then []
    else
      var rest := Template(references[1..]);
      var r := references[0];
      if r.Inverse() then rest else [Link(r.name, r.types, [], r.Soft())] + rest
  }

  function Shape(links: seq<Link>): seq<Link> {
    seq(|links|, i requires 0 <= i < |links| => links[i].(targets := []))
  }

  ghost predicate Fits(schema: Schema, links: seq<Link>) {
    Shape(links) == Template(schema.references) && DistinctNames(links)
  }

  // ---- Unique keys ----

  function Fold(field: Field, v: Value): Value {
    if v.Str? && !field.caseExact then Str(Lower(v.text)) else v
  }

  function ValuesAt(body: Body, name: string): seq<Value> {
    if name in body.values then body.values[name] else []
  }

  function KeysOfField(schema: Schema, field: Field, body: Body): set<Key> {
    if !field.unique then {}
    else set v | v in ValuesAt(body, field.name) && v != Unassigned :: Key(schema, field, Fold(field, v))
  }

  // Every unique key a document of this schema holds.
  function KeysOf(schema: Schema, body: Body): set<Key> {
    set f, k | f in schema.fields && k in KeysOfField(schema, f, body) :: k
  }

  function EntryKeys(e: Entry): set<Key> {
    KeysOf(e.schema, e.body)
  }

  // ---- Lemmas about links ----

  lemma {:induction false} TargetsOfMember(links: seq<Link>, i: nat)
    requires DistinctNames(links) && i < |links|
    ensures TargetsOf(links, links[i].attribute) == links[i].targets
  {
    if i > 0 {
      assert links[1..][i - 1] == links[i];
      TargetsOfMember(links[1..], i - 1);
    }
  }

  lemma {:induction false} TargetsOfSource(links: seq<Link>, attribute: string) returns (i: nat)
    requires TargetsOf(links, attribute) != []
    ensures i < |links| && links[i].attribute == attribute && links[i].targets == TargetsOf(links, attribute)
  {
    if links[0].attribute == attribute {
      i := 0;
    } else {
      i := TargetsOfSource(links[1..], attribute);
      i := i + 1;
    }
  }

  // With distinct names, "t is a target for a" can be read off any link that says so.
  lemma TargetsOfIff(links: seq<Link>, attribute: string, t: Id)
    requires DistinctNames(links)
    ensures t in TargetsOf(links, attribute) <==> exists l :: l in links && l.attribute == attribute && t in l.targets
  {
    if t in TargetsOf(links, attribute) {
      var i := TargetsOfSource(links, attribute);
      assert links[i] in links;
    }
    if l :| l in links && l.attribute == attribute && t in l.targets {
      var i :| 0 <= i < |links| && links[i] == l;
      TargetsOfMember(links, i);
    }
  }

  // Two link lists of one type agree, name by name, on everything except the targets.
  lemma SameShape(schema: Schema, a: seq<Link>, b: seq<Link>)
    requires Fits(schema, a) && Fits(schema, b)
    ensures |a| == |b| && forall i :: 0 <= i < |a| ==> a[i] == b[i].(targets := a[i].targets)
  {
    assert |Shape(a)| == |Shape(b)|;
    forall i | 0 <= i < |a| ensures a[i] == b[i].(targets := a[i].targets) {
      assert Shape(a)[i] == Shape(b)[i];
    }
  }
}
