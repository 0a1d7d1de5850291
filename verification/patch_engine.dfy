// PATCH operations on a resource (section 3.5.2 of RFC 7644), one attribute path at a time.
// The order in which the members of an incoming object are walked is a parameter: any order may happen.
module PatchEngine {
  import opened Wrappers
  import opened Text
  import opened PatchObject
  import opened PatchValue

  import FilterGrammar
  import FilterPrint
  import FilterPath

  datatype Op = Add | Replace

  datatype Error = InvalidSyntax | InvalidPath | InvalidValue | InvalidFilter | NoTarget | NotMutable

  type Outcome<T> = Result<T, Error>

  type Predicate = Json -> bool

  datatype Schema = Schema(id: string, attributes: seq<Attribute>)

  // The base schema, common attributes included, and the extensions.
  datatype Schemas = Schemas(base: Schema, extensions: seq<Schema>)

  // The schemas, what a value filter compiles to, and the order in which the members of an object are walked.
  datatype Patcher = Patcher(
    schemas: Schemas,
    compile: (Attribute, FilterGrammar.Node) -> Outcome<Predicate>,
    walk: Object -> seq<string>)

  function FindSchema(list: seq<Schema>, uri: string): Option<Schema> {
    if list == [] then None
    else if EqualFold(list[0].id, uri) then Some(list[0])
    else FindSchema(list[1..], uri)
  }

  // The attributes a URI names, with the member of the resource that holds them: nothing for the base schema.
  function SchemaOf(s: Schemas, uri: string): Option<Schema> {
    if uri == "" || EqualFold(s.base.id, uri) then Some(Schema("", s.base.attributes))
    else FindSchema(s.extensions, uri)
  }

  function ResolveIn(attributes: seq<Attribute>, name: string, sub: string): Option<Attribute> {
    match Lookup(attributes, name)
    case None => None
    case Some(a) => if sub == "" then Some(a) else Lookup(a.subs, sub)
  }

  function Resolve(s: Schemas, path: FilterPrint.AttrPath): Option<Attribute> {
    match SchemaOf(s, path.uri)
    case None => None
    case Some(schema) => ResolveIn(schema.attributes, path.name, path.subAttribute)
  }

  // What the schemas define under this name, in the extension of this id or in the base schema.
  predicate Defines(s: Schemas, extension: string, name: string, a: Attribute) {
    match SchemaOf(s, extension)
    case None => false
    case Some(schema) => schema.id == extension && Lookup(schema.attributes, name) == Some(a)
  }

  // What an operation addresses: the extension that holds it, or nothing; the path; what its value filter
  // compiled to; and the definitions of its attribute and of what is written.
  datatype Target = Target(
    extension: string, name: string, sub: string, filter: Option<Predicate>, parent: Attribute, attr: Attribute)

  // ---- Gates ----

  // An assigned immutable attribute rejects any write that would change it.
  predicate Writable(a: Attribute, before: Json, after: Json) {
    a.mutability != Immutable || IsUnassigned(before) || Equal(a, before, after)
  }

  // A singular immutable complex attribute that holds anything does not change through its sub-attributes either.
  predicate Gated(parent: Option<Attribute>, holder: Object) {
    parent.Some? && !parent.value.multi && parent.value.mutability == Immutable && holder != map[]
  }

  // ---- Values ----

  function ListOf(v: Json): seq<Json> {
    match v
    case Null => []
    case List(elements) => elements
    case _ => [v]
  }

  function ElementsAt(v: Json): seq<Json> {
    if v.List? then v.elements else []
  }

  function Appended(before: Json, incoming: Json, op: Op): Json {
    if op == Add && before.List? then List(before.elements + ListOf(incoming)) else incoming
  }

  ghost function Shaped(a: Attribute, incoming: Json): Json {
    if a.multi then List(Unique(a, ListOf(incoming))) else incoming
  }

  ghost function StripFields(a: Attribute, o: Object): Object {
    map k | k in o && SubAttribute(a, k).mutability != ReadOnly :: o[k]
  }

  // Provided values of readOnly sub-attributes are ignored.
  ghost function StripReadOnly(a: Attribute, incoming: Json): Json
    decreases incoming
  {
    match incoming
    case List(elements) => List(seq(|elements|, i requires 0 <= i < |elements| => StripReadOnly(a, elements[i])))
    case Obj(fields) => Obj(StripFields(a, fields))
    case _ => incoming
  }

  // ---- Merging an object into another ----

  ghost function MergeField(holder: Object, parent: Attribute, gated: bool, op: Op, name: string,
                            incoming: Json): Outcome<Object>
  {
    var sub := SubAttribute(parent, name);
    var key := Key(holder, name);
    var before := Held(holder, key);
    var shaped := Shaped(sub, incoming);
    var v := if op == Add && sub.multi && before.List? then List(Fresh(sub, before.elements, ListOf(shaped)))
        else shaped;
    var final := Appended(before, v, op);
    if !Writable(sub, before, final) || (gated && !Equal(sub, before, final)) then Err(NotMutable)
    else Ok(holder[key := final])
  }

  ghost function MergeWalk(holder: Object, parent: Attribute, gated: bool, op: Op, values: Object,
                           order: seq<string>): Outcome<Object>
    decreases |order|
  {
    if order == [] then Ok(holder)
    else if order[0] !in values then MergeWalk(holder, parent, gated, op, values, order[1..])
    else
      match MergeField(holder, parent, gated, op, order[0], values[order[0]])
      case Err(e) => Err(e)
      case Ok(next) => MergeWalk(next, parent, gated, op, values, order[1..])
  }

  // Sub-attributes that are not mentioned stay as they are.
  ghost function Merge(holder: Object, parent: Attribute, op: Op, values: Object,
                       walk: Object -> seq<string>): Outcome<Object>
  {
    MergeWalk(holder, parent, Gated(Some(parent), holder), op, values, walk(values))
  }

  // ---- Writing one holder ----

  ghost predicate IsListAdd(t: Target, op: Op) {
    op == Add && t.filter.None? && t.name != "" && t.sub == "" && t.attr.multi
  }

  // The name written inside a holder; nothing when the holder itself is the value.
  function WriteKey(t: Target): string {
    if t.filter.Some? || t.sub != "" then t.sub else t.name
  }

  function FillSubs(subs: seq<Attribute>): seq<Attribute> {
    if subs == [] then []
    else
      (if subs[0].mutability == Immutable || subs[0].mutability == ReadOnly then [subs[0]] else [])
      + FillSubs(subs[1..])
  }

  ghost function FillMember(member: Object, existing: Object, subs: seq<Attribute>): Object
    decreases |subs|
  {
    if subs == [] then member
    else
      var name := subs[0].name;
      FillMember(if !Has(member, name) && Has(existing, name) then Set(member, name, Get(existing, name)) else member,
                 existing, subs[1..])
  }

  // The first stored object with this element's identity.
  ghost function FindStored(a: Attribute, stored: seq<Json>, member: Object): Option<Object> {
    if KeyedByIdentity(a) && Contains(a, stored, Obj(member)) then
      var found := stored[FirstSame(a, stored, Obj(member))];
      if found.Obj? then Some(found.fields) else None
      else None
  }

  ghost function FillElement(a: Attribute, stored: seq<Json>, element: Json): Json {
    if !element.Obj? then element
    else
      match FindStored(a, stored, element.fields)
      case None => element
      case Some(existing) => Obj(FillMember(element.fields, existing, FillSubs(a.subs)))
  }

  // A replaced list keeps the readOnly and immutable sub-attributes its elements leave out.
  ghost function CarryForward(a: Attribute, op: Op, stored: seq<Json>, candidate: Json): Json {
    if op != Replace || !candidate.List? || FillSubs(a.subs) == [] then candidate
    else List(seq(|candidate.elements|, i requires 0 <= i < |candidate.elements| =>
                FillElement(a, stored, candidate.elements[i])))
  }

  // The parent a sub-attribute write also changes.
  function SubParent(t: Target): Option<Attribute> {
    if t.sub == "" then None else Some(t.parent)
  }

  ghost function PutValue(holder: Object, t: Target, op: Op, incoming: Json, stored: seq<Json>): Outcome<Object> {
    var key := WriteKey(t);
    var before := Get(holder, key);
    var shaped := Shaped(t.attr, incoming);
    var v := if op == Add && t.attr.multi && before.List? && !IsListAdd(t, op)
             then List(Fresh(t.attr, before.elements, ListOf(shaped))) else shaped;
    var final := Appended(before, v, op);
    if !Writable(t.attr, before, final) || (Gated(SubParent(t), holder) && !Equal(t.attr, before, final))
    then Err(NotMutable)
    else Ok(Set(holder, key, Appended(before, CarryForward(t.attr, op, stored, v), op)))
  }

  ghost function Put(holder: Object, t: Target, op: Op, incoming: Json, stored: seq<Json>,
                     walk: Object -> seq<string>): Outcome<Object>
  {
    var key := WriteKey(t);
    if key == "" then
      if incoming.Obj? then Merge(holder, t.parent, op, incoming.fields, walk) else Err(InvalidValue)
      else if incoming.Obj? && t.attr.kind == ComplexKind && !t.attr.multi then
      var nested := Get(holder, key);
      if nested != Null && !nested.Obj? then Err(InvalidPath)
      else
        match Merge(AsObject(nested), t.attr, op, incoming.fields, walk)
        case Err(e) => Err(e)
        case Ok(merged) => Ok(Set(holder, key, Obj(merged)))
    else PutValue(holder, t, op, incoming, stored)
  }

  // ---- Elements a filter selects ----

  ghost predicate Selected(t: Target, element: Json)
    requires t.filter.Some?
  {
    (element.Obj? || t.parent.kind != ComplexKind) && t.filter.value(element)
  }

  ghost function MatchedBy(t: Target, elements: seq<Json>): seq<bool>
    requires t.filter.Some?
  {
    seq(|elements|, i requires 0 <= i < |elements| => Selected(t, elements[i]))
  }

  // The objects a path writes or removes from, within a list.
  ghost predicate Holds(t: Target, element: Json) {
    element.Obj? && (t.filter.Some? ==> Selected(t, element))
  }

  ghost predicate HoldsAny(t: Target, elements: seq<Json>) {
    exists i :: 0 <= i < |elements| && Holds(t, elements[i])
  }

  ghost function PutSelected(elements: seq<Json>, t: Target, op: Op, incoming: Json, stored: seq<Json>,
                             walk: Object -> seq<string>): Outcome<seq<Json>>
    decreases |elements|
  {
    if elements == [] then Ok([])
    else
      var first := if Holds(t, elements[0]) then Put(elements[0].fields, t, op, incoming, stored, walk) else Ok(map[]);
      match first
      case Err(e) => Err(e)
      case Ok(o) =>
        match PutSelected(elements[1..], t, op, incoming, stored, walk)
        case Err(e) => Err(e)
        case Ok(rest) => Ok([if Holds(t, elements[0]) then Obj(o) else elements[0]] + rest)
  }

  // ---- Primary values ----

  // An object that is primary, or a list of values one of which is.
  ghost predicate SomePrimary(v: Json) {
    Primary(v) || (v.List? && exists i :: 0 <= i < |v.elements| && Primary(v.elements[i]))
  }

  // A key named "primary" is taken for the flag.
  ghost predicate Promotes(key: string, written: Json) {
    if EqualFold(key, "primary") then written == Bool(true) else SomePrimary(written)
  }

  ghost function Demoted(v: Json): Json {
    if Primary(v) then Obj(Set(v.fields, "primary", Bool(false))) else v
  }

  // Every element that was not written loses its primary flag.
  ghost function Demote(elements: seq<Json>, written: seq<bool>): (demoted: seq<Json>)
    requires |elements| == |written|
    ensures |demoted| == |elements|
  {
    seq(|elements|, i requires 0 <= i < |elements| => if written[i] then elements[i] else Demoted(elements[i]))
  }

  ghost function Written(t: Target, before: seq<Json>, after: seq<Json>, op: Op): (written: seq<bool>)
    ensures |written| == |after|
  {
    seq(|after|, i requires 0 <= i < |after| =>
      if t.filter.Some? then i < |before| && Selected(t, before[i])
      else if op == Add && t.sub == "" then i >= |before|
      else true)
  }

  ghost function DemoteOthers(t: Target, before: Json, after: Json, op: Op, incoming: Json): Json {
    if Promotes(WriteKey(t), incoming) && after.List?
    then List(Demote(after.elements, Written(t, ElementsAt(before), after.elements, op)))
    else after
  }

  // ---- Replacing or dropping the values a filter selects ----

  ghost predicate Keeps(a: Attribute, elements: seq<Json>, matched: seq<bool>, incoming: Json)
    requires |elements| == |matched|
  {
    exists i :: 0 <= i < |elements| && !matched[i] && Equal(a, elements[i], incoming)
  }

  // The unmatched elements in order, with the new value at the first match unless it is placed already.
  ghost function Substitute(elements: seq<Json>, matched: seq<bool>, incoming: Json, placed: bool): seq<Json>
    requires |elements| == |matched|
  {
    if elements == [] then []
    else if !matched[0] then [elements[0]] + Substitute(elements[1..], matched[1..], incoming, placed)
    else (if placed then [] else [incoming]) + Substitute(elements[1..], matched[1..], incoming, true)
  }

  ghost function Rewrite(container: Object, t: Target, matched: seq<bool>, incoming: Json): Outcome<Object>
    requires |matched| == |ElementsAt(Get(container, t.name))|
  {
    var elements := ElementsAt(Get(container, t.name));
    var placed := incoming == Null || Keeps(t.attr, elements, matched, incoming);
    var after := Substitute(elements, matched, incoming, placed);
    if !Writable(t.attr, List(elements), List(after)) then Err(NotMutable) else Ok(Set(container, t.name, List(after)))
  }

  ghost function ReplaceSelected(container: Object, t: Target, op: Op, incoming: Json): Outcome<Object>
    requires t.filter.Some?
  {
    var matched := MatchedBy(t, ElementsAt(Get(container, t.name)));
    if op != Replace then Err(InvalidPath)
    else if incoming == Null || Coerce(t.attr.kind, incoming).None? then Err(InvalidValue)
    else if true !in matched then Err(NoTarget)
    else Rewrite(container, t, matched, incoming)
  }

  // A filter on simple values, rather than on objects.
  predicate SelectsValues(t: Target) {
    t.filter.Some? && t.sub == "" && t.parent.kind != ComplexKind
  }

  // ---- Writing one attribute of a container ----

  ghost function WriteFiltered(container: Object, t: Target, op: Op, incoming: Json,
                               walk: Object -> seq<string>): Outcome<Object>
  {
    var before := Get(container, t.name);
    var elements := ElementsAt(before);
    if !HoldsAny(t, elements) then Err(NoTarget)
    else
      match PutSelected(elements, t, op, incoming, elements, walk)
      case Err(e) => Err(e)
      case Ok(after) => Ok(Set(container, t.name, DemoteOthers(t, before, List(after), op, incoming)))
  }

  ghost function WriteWhole(container: Object, t: Target, op: Op, incoming: Json,
                            walk: Object -> seq<string>): Outcome<Object>
  {
    var before := Get(container, t.name);
    var added := if IsListAdd(t, op) then List(Fresh(t.attr, ElementsAt(before), ListOf(incoming))) else incoming;
    match Put(container, t, op, added, ElementsAt(before), walk)
    case Err(e) => Err(e)
    case Ok(next) =>
      var after := Get(next, t.name);
      Ok(if Promotes(t.name, added) && after.List? then Set(next, t.name, DemoteOthers(t, before, after, op, added))
          else next)
  }

  ghost function WriteSub(container: Object, t: Target, op: Op, incoming: Json,
                          walk: Object -> seq<string>): Outcome<Object>
  {
    var before := Get(container, t.name);
    if t.parent.multi || (before != Null && !before.Obj?) then Err(InvalidPath)
    else
      match Put(AsObject(before), t, op, incoming, [], walk)
      case Err(e) => Err(e)
      case Ok(next) => Ok(Set(container, t.name, Obj(next)))
  }

  ghost function WriteIn(container: Object, t: Target, op: Op, incoming: Json,
                         walk: Object -> seq<string>): Outcome<Object>
  {
    var stripped := StripReadOnly(if WriteKey(t) == "" then t.parent else t.attr, incoming);
    if SelectsValues(t) then ReplaceSelected(container, t, op, incoming)
    else if WriteKey(t) == "" && !incoming.Obj? then Err(InvalidValue)
    else if t.filter.Some? then WriteFiltered(container, t, op, stripped, walk)
    else if t.sub == "" then WriteWhole(container, t, op, stripped, walk)
    else WriteSub(container, t, op, stripped, walk)
  }

  // ---- Removing from one attribute of a container ----

  // Removing a key is refused when it is required or immutable and holds a value.
  ghost predicate Removable(holder: Object, t: Target) {
    var held := Get(holder, WriteKey(t));
    && (!t.attr.required || IsUnassigned(held)) && Writable(t.attr, held, Null)
    && (Gated(SubParent(t), holder) ==> Equal(t.attr, held, Null))
  }

  ghost function RemoveFrom(elements: seq<Json>, t: Target): seq<Json> {
    seq(|elements|, i requires 0 <= i < |elements| =>
      if Holds(t, elements[i]) then Obj(Remove(elements[i].fields, t.sub)) else elements[i])
  }

  ghost function Drop(container: Object, t: Target): Outcome<Object>
    requires t.filter.Some?
  {
    var matched := MatchedBy(t, ElementsAt(Get(container, t.name)));
    if true !in matched then Err(NoTarget)
    else if t.attr.required && false !in matched then Err(NotMutable)
    else Rewrite(container, t, matched, Null)
  }

  ghost function RemoveSub(container: Object, t: Target): Outcome<Object> {
    var before := Get(container, t.name);
    var elements := ElementsAt(before);
    if t.filter.None? && before.Obj? then
      if Removable(before.fields, t) then Ok(Set(container, t.name, Obj(Remove(before.fields, t.sub))))
      else Err(NotMutable)
    else if t.filter.None? && !before.List? then Ok(container)
    else if !HoldsAny(t, elements) then Err(NoTarget)
    else if forall i :: 0 <= i < |elements| && Holds(t, elements[i]) ==> Removable(elements[i].fields, t) then
      Ok(Set(container, t.name, List(RemoveFrom(elements, t))))
    else Err(NotMutable)
  }

  ghost function RemoveIn(container: Object, t: Target): Outcome<Object> {
    if t.filter.Some? && t.sub == "" then Drop(container, t)
    else if t.sub == "" then
      if Removable(container, t) then Ok(Remove(container, t.name)) else Err(NotMutable)
      else RemoveSub(container, t)
  }

  // ---- The resource ----

  // The object that holds the attributes of a schema: the resource itself, or the member named by the extension's id.
  ghost function Container(root: Object, extension: string): Object {
    if extension == "" then root else AsObject(Get(root, extension))
  }

  // Puts a container back; one that holds no data any more leaves the resource, if it is pruned.
  ghost function WithContainer(root: Object, extension: string, container: Object, prune: bool): Object {
    if extension == "" then container
    else if prune && AllUnassigned(container) then Remove(root, extension)
    else if container == Container(root, extension) then root
    else Set(root, extension, Obj(container))
  }

  // A path whose attribute and sub-attribute are defined and not readOnly; only lists are filtered.
  ghost function Locate(p: Patcher, path: FilterPath.Path): Outcome<Target> {
    match SchemaOf(p.schemas, path.attribute.uri)
    case None => Err(InvalidPath)
    case Some(schema) =>
      match Lookup(schema.attributes, path.attribute.name)
      case None => Err(InvalidPath)
      case Some(parent) =>
        if parent.mutability == ReadOnly then Err(NotMutable)
        else
          match Compiled(p, parent, path.filter)
          case Err(e) => Err(e)
          case Ok(filter) => Addressed(schema.id, path.attribute, filter, parent)
  }

  function Compiled(p: Patcher, parent: Attribute, filter: Option<FilterGrammar.Node>): Outcome<Option<Predicate>> {
    match filter
    case None => Ok(None)
    case Some(node) =>
      if !parent.multi then Err(InvalidFilter)
      else
        match p.compile(parent, node)
        case Err(e) => Err(e)
        case Ok(compiled) => Ok(Some(compiled))
  }

  function Addressed(extension: string, path: FilterPrint.AttrPath, filter: Option<Predicate>,
                     parent: Attribute): Outcome<Target>
  {
    match (if path.subAttribute == "" then Some(parent) else Lookup(parent.subs, path.subAttribute))
    case None => Err(InvalidPath)
    case Some(attr) =>
      if attr.mutability == ReadOnly then Err(NotMutable)
      else Ok(Target(extension, path.name, path.subAttribute, filter, parent, attr))
  }

  ghost function WriteTo(root: Object, t: Target, op: Op, incoming: Json,
                         walk: Object -> seq<string>): Outcome<Object>
  {
    var held := Get(root, t.extension);
    if !SelectsValues(t) && (WriteKey(t) != "" || incoming.Obj?) && t.extension != "" && held != Null && !held.Obj?
    then Err(InvalidPath)
    else
      match WriteIn(Container(root, t.extension), t, op, incoming, walk)
      case Err(e) => Err(e)
      case Ok(container) => Ok(WithContainer(root, t.extension, container, !SelectsValues(t)))
  }

  // A filter that selects nothing to remove changes nothing at all.
  ghost function RemoveAt(root: Object, t: Target): Outcome<Object> {
    match RemoveIn(Container(root, t.extension), t)
    case Err(e) => if e == NoTarget && t.filter.Some? then Ok(root) else Err(e)
    case Ok(container) => Ok(WithContainer(root, t.extension, container, t.filter.None? || t.sub != ""))
  }

  ghost function WriteAt(p: Patcher, root: Object, path: FilterPath.Path, op: Op, incoming: Json): Outcome<Object> {
    match Locate(p, path)
    case Err(e) => Err(e)
    case Ok(t) => WriteTo(root, t, op, incoming, p.walk)
  }

  // ---- A value without a path: its members are written one by one ----

  // What a member's name addresses: the path it reads as, else an attribute of that very name.
  function KeyPath(key: string): FilterPrint.AttrPath {
    match FilterGrammar.AttributePath(key)
    case Some(parsed) =>
      if parsed.rest == [] then FilterPrint.SplitPath(parsed.value) else FilterPrint.AttrPath("", key, "")
    case None => FilterPrint.AttrPath("", key, "")
  }

  // Sending a readOnly value back as it is does nothing.
  ghost predicate RepeatsReadOnly(p: Patcher, root: Object, path: FilterPrint.AttrPath, incoming: Json) {
    match Resolve(p.schemas, path)
    case None => false
    case Some(attr) =>
      attr.mutability == ReadOnly && Has(root, path.name) && Equal(attr, Get(root, path.name), incoming)
  }

  // The object under a schema's URI holds attributes of that schema.
  ghost function MergeSchema(p: Patcher, root: Object, uri: string, op: Op, values: Object,
                             order: seq<string>): Outcome<Object>
    decreases |order|
  {
    if order == [] then Ok(root)
    else if order[0] !in values then MergeSchema(p, root, uri, op, values, order[1..])
    else
      match WriteAt(p, root, FilterPath.Path(FilterPrint.AttrPath(uri, order[0], ""), None), op, values[order[0]])
      case Err(e) => Err(e)
      case Ok(next) => MergeSchema(p, next, uri, op, values, order[1..])
  }

  ghost function MergeKey(p: Patcher, root: Object, key: string, op: Op, incoming: Json): Outcome<Object> {
    match SchemaOf(p.schemas, key)
    case Some(schema) =>
      if incoming.Obj? then MergeSchema(p, root, schema.id, op, incoming.fields, p.walk(incoming.fields))
      else Err(InvalidValue)
    case None =>
      if EqualFold(key, "schemas") || RepeatsReadOnly(p, root, KeyPath(key), incoming) then Ok(root)
      else WriteAt(p, root, FilterPath.Path(KeyPath(key), None), op, incoming)
  }

  ghost function MergeRoot(p: Patcher, root: Object, op: Op, values: Object, order: seq<string>): Outcome<Object>
    decreases |order|
  {
    if order == [] then Ok(root)
    else if order[0] !in values then MergeRoot(p, root, op, values, order[1..])
    else
      match MergeKey(p, root, order[0], op, values[order[0]])
      case Err(e) => Err(e)
      case Ok(next) => MergeRoot(p, next, op, values, order[1..])
  }

  // ---- Operations ----

  datatype Operation = Operation(op: string, path: string, value: Option<Json>)

  ghost function Write(p: Patcher, root: Object, op: Op, path: string, value: Option<Json>): Outcome<Object> {
    if path == "" then
      if value.Some? && value.value.Obj? then MergeRoot(p, root, op, value.value.fields, p.walk(value.value.fields))
      else Err(InvalidValue)
    else
      match FilterPath.ParsePath(path)
      case None => Err(InvalidPath)
      case Some(parsed) => if value.None? then Err(InvalidValue) else WriteAt(p, root, parsed, op, value.value)
  }

  ghost function RemovePath(p: Patcher, root: Object, path: string, value: Option<Json>): Outcome<Object> {
    if path == "" then Err(NoTarget)
    else if value.Some? && value.value != Null then Err(InvalidSyntax)
    else
      match FilterPath.ParsePath(path)
      case None => Err(InvalidPath)
      case Some(parsed) =>
        match Locate(p, parsed)
        case Err(e) => Err(e)
        case Ok(t) => RemoveAt(root, t)
  }

  ghost function Apply(p: Patcher, root: Object, operation: Operation): Outcome<Object> {
    var op := Lower(operation.op);
    if op == "add" then Write(p, root, Add, operation.path, operation.value)
    else if op == "replace" then Write(p, root, Replace, operation.path, operation.value)
    else if op == "remove" then RemovePath(p, root, operation.path, operation.value)
    else Err(InvalidSyntax)
  }

  ghost function ApplyAll(p: Patcher, root: Object, operations: seq<Operation>): Outcome<Object>
    decreases |operations|
  {
    if operations == [] then Ok(root)
    else
      match Apply(p, root, operations[0])
      case Err(e) => Err(e)
      case Ok(next) => ApplyAll(p, next, operations[1..])
  }
}
