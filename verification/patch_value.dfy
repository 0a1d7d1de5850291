// Attribute definitions, and when two values of an attribute are the same (sections 2.3, 2.4 and 7 of RFC 7643).
module PatchValue {
  import opened Wrappers
  import opened Text
  import opened PatchObject

  datatype Kind =
    | StringKind | BooleanKind | DecimalKind | IntegerKind | DateTimeKind | BinaryKind | ReferenceKind
    | ComplexKind | NoKind

  datatype Mutability = ReadWrite | ReadOnly | Immutable | WriteOnly | Unspecified

  datatype Attribute = Attribute(
    name: string, kind: Kind, multi: bool, required: bool, caseExact: bool,
    mutability: Mutability, hidden: bool, subs: seq<Attribute>)

  // The definition of whatever no schema describes.
  const PERMISSIVE := Attribute("", NoKind, false, false, false, Unspecified, false, [])

  // The first definition whose name is equal under folding.
  function Lookup(attributes: seq<Attribute>, name: string): Option<Attribute> {
    if attributes == [] then None
    else if EqualFold(attributes[0].name, name) then Some(attributes[0])
    else Lookup(attributes[1..], name)
  }

  lemma {:induction false} LookupFold(list: seq<Attribute>, n: string, m: string)
    requires EqualFold(n, m)
    ensures Lookup(list, n) == Lookup(list, m)
  {
    if list != [] {
      LookupFold(list[1..], n, m);
    }
  }

  function SubAttribute(parent: Attribute, name: string): Attribute {
    match Lookup(parent.subs, name)
    case Some(sub) => sub
    case None => PERMISSIVE
  }

  // ---- Unassigned values ----

  predicate IsUnassigned(v: Json) {
    v == Null || v == Str("") || v == List([]) || v == Obj(map[])
  }

  // A value that holds no data: unassigned, or an object of such values all the way down.
  ghost predicate Blank(v: Json)
    decreases v
  {
    IsUnassigned(v) || (v.Obj? && forall k :: k in v.fields ==> Blank(v.fields[k]))
  }

  ghost predicate AllUnassigned(o: Object) {
    forall k :: k in o ==> Blank(o[k])
  }

  function AsObject(v: Json): Object {
    if v.Obj? then v.fields else map[]
  }

  ghost predicate Primary(v: Json) {
    v.Obj? && Get(v.fields, "primary") == Bool(true)
  }

  // ---- Values of an attribute's type ----

  // A value as it is compared. A decimal knows whether it is a negative zero, an instant its offset from UTC.
  datatype Canonical =
    | Text(text: string)
    | Instant(nanoseconds: int, offset: int)
    | Whole(number: int)
    | Decimal(value: real, negative: bool)
    | Flag(flag: bool)
    | Raw(json: Json)

  type Encoder = Canonical -> string

  // ---- Reading and preparing text: any functions ----

  const READ_INSTANT: string -> Option<(int, int)>
  const READ_DECIMAL: string -> Option<(real, bool)>
  const READ_WHOLE: string -> Option<int>
  const IS_BASE64: string -> bool
  const IS_ASCII: string -> bool
  const TO_LOWER: char -> char
  // A user name, prepared with or without its case; not every name can be.
  const PREPARE: (string, bool) -> Option<string>

  function DecimalOf(read: Option<(real, bool)>): Option<Canonical> {
    match read
    case None => None
    case Some((value, negative)) => Some(Decimal(value, if value == 0.0 then negative else value < 0.0))
  }

  function WholeOf(read: Option<int>): Option<Canonical> {
    match read
    case None => None
    case Some(number) => Some(Whole(number))
  }

  function InstantOf(read: Option<(int, int)>): Option<Canonical> {
    match read
    case None => None
    case Some((nanoseconds, offset)) => Some(Instant(nanoseconds, offset))
  }

  // A value as the kind reads it, if it can.
  function Coerce(kind: Kind, v: Json): Option<Canonical> {
    match kind
    case StringKind => if v.Str? then Some(Text(v.text)) else None
    case ReferenceKind => if v.Str? then Some(Text(v.text)) else None
    case BinaryKind => if v.Str? && IS_BASE64(v.text) then Some(Text(v.text)) else None
    case BooleanKind => if v.Bool? then Some(Flag(v.flag)) else None
    case DecimalKind => if v.Num? then DecimalOf(READ_DECIMAL(v.digits)) else None
    case IntegerKind => if v.Num? then WholeOf(READ_WHOLE(v.digits)) else None
    case DateTimeKind => if v.Str? && v.text != "" then InstantOf(READ_INSTANT(v.text)) else None
    case _ => None
  }

  // A value no kind was applied to.
  function Untyped(v: Json): Canonical {
    match v
    case Str(text) => Text(text)
    case Bool(flag) => Flag(flag)
    case _ => Raw(v)
  }

  function Typed(a: Attribute, v: Json): Canonical {
    match Coerce(a.kind, v)
    case Some(c) => c
    case None => Untyped(v)
  }

  predicate IsUserName(a: Attribute) {
    a.kind == StringKind && EqualFold(a.name, "userName")
  }

  function LowerText(s: string): string {
    seq(|s|, i requires 0 <= i < |s| => TO_LOWER(s[i]))
  }

  // A user name beyond ASCII, prepared if it can be; none is prepared to nothing.
  function UserNameOf(a: Attribute, s: string): Option<string> {
    if !IsUserName(a) || IS_ASCII(s) then None
    else
      match PREPARE(s, a.caseExact)
      case None => None
      case Some(prepared) => if s == "" || prepared == "" then None else Some(prepared)
  }

  // Text prepared for comparison.
  function FoldText(a: Attribute, s: string): string {
    if a.kind == BinaryKind || a.kind == ReferenceKind then s
    else
      match UserNameOf(a, s)
      case Some(prepared) => prepared
      case None => if a.caseExact then s else LowerText(s)
  }

  function Folded(a: Attribute, c: Canonical): Canonical {
    if c.Text? then Text(FoldText(a, c.text)) else c
  }

  function CanonicalOf(a: Attribute, v: Json): Canonical {
    Folded(a, Typed(a, v))
  }

  // ---- Equality of values ----

  // Values of one comparable type compare; any others must be the same all the way down.
  predicate Equal(a: Attribute, x: Json, y: Json) {
    match (CanonicalOf(a, x), CanonicalOf(a, y))
    case (Text(s), Text(t)) => s == t
    case (Instant(m, _), Instant(n, _)) => m == n
    case (Whole(m), Whole(n)) => m == n
    case (Decimal(m, _), Decimal(n, _)) => m == n
    case (Flag(p), Flag(q)) => p == q
    case _ => x == y
  }

  lemma EqualReflexive(a: Attribute, x: Json)
    ensures Equal(a, x, x)
  {
  }

  lemma EqualTransitive(a: Attribute, x: Json, y: Json, z: Json)
    requires Equal(a, x, y) && Equal(a, y, z)
    ensures Equal(a, x, z)
  {
  }

  // Equal values hold data or not alike.
  lemma EqualBlank(a: Attribute, x: Json, y: Json)
    requires Equal(a, x, y)
    ensures Blank(x) <==> Blank(y)
    ensures IsUnassigned(x) <==> IsUnassigned(y)
  {
  }

  // Texts of a string attribute that is no user name: the same, or, unless case counts, the same in lower case.
  lemma TextsEqual(a: Attribute, s: string, t: string)
    requires a.kind == StringKind && !IsUserName(a)
    ensures Equal(a, Str(s), Str(t)) <==>
            s == t || (!a.caseExact && |s| == |t| && forall i :: 0 <= i < |s| ==> TO_LOWER(s[i]) == TO_LOWER(t[i]))
  {
    if LowerText(s) == LowerText(t) {
      assert |LowerText(s)| == |s| && |LowerText(t)| == |t|;
      forall i | 0 <= i < |s| ensures TO_LOWER(s[i]) == TO_LOWER(t[i]) {
        assert LowerText(s)[i] == LowerText(t)[i];
      }
    }
  }

  // Case always counts in binary data and in references.
  lemma ExactTextsEqual(a: Attribute, s: string, t: string)
    requires a.kind == BinaryKind || a.kind == ReferenceKind
    ensures Equal(a, Str(s), Str(t)) <==> s == t
  {
  }

  // Two user names beyond ASCII that can be prepared are one name when they are prepared to one text.
  lemma UserNamesEqual(a: Attribute, s: string, t: string)
    requires IsUserName(a) && !IS_ASCII(s) && !IS_ASCII(t) && s != "" && t != ""
    requires PREPARE(s, a.caseExact).Some? && PREPARE(s, a.caseExact) != Some("")
    requires PREPARE(t, a.caseExact).Some? && PREPARE(t, a.caseExact) != Some("")
    ensures Equal(a, Str(s), Str(t)) <==> PREPARE(s, a.caseExact) == PREPARE(t, a.caseExact)
  {
  }

  // Instants and numbers are equal when they read as one, however they are written.
  lemma InstantsEqual(a: Attribute, s: string, t: string)
    requires a.kind == DateTimeKind && s != "" && t != ""
    requires READ_INSTANT(s).Some? && READ_INSTANT(t).Some?
    ensures Equal(a, Str(s), Str(t)) <==> READ_INSTANT(s).value.0 == READ_INSTANT(t).value.0
  {
  }

  lemma WholesEqual(a: Attribute, s: string, t: string)
    requires a.kind == IntegerKind && READ_WHOLE(s).Some? && READ_WHOLE(t).Some?
    ensures Equal(a, Num(s), Num(t)) <==> READ_WHOLE(s) == READ_WHOLE(t)
  {
  }

  lemma DecimalsEqual(a: Attribute, s: string, t: string)
    requires a.kind == DecimalKind && READ_DECIMAL(s).Some? && READ_DECIMAL(t).Some?
    ensures Equal(a, Num(s), Num(t)) <==> READ_DECIMAL(s).value.0 == READ_DECIMAL(t).value.0
  {
  }

  // Objects, lists and nothing are equal when they are the same.
  lemma StructuresEqual(a: Attribute, x: Json, y: Json)
    requires x == Null || x.List? || x.Obj?
    ensures Equal(a, x, y) <==> x == y
  {
  }

  // ---- The key of a value ----

  // The value with one form for each instant and for zero.
  function Normal(c: Canonical): Canonical {
    match c
    case Instant(n, _) => Instant(n, 0)
    case Decimal(x, _) => if x == 0.0 then Decimal(0.0, false) else c
    case _ => c
  }

  // By the type the value reads as: lists and objects as they are, instants in UTC, one zero, and the rest folded.
  function ValueKey(a: Attribute, encode: Encoder, v: Json): string {
    var c := Typed(a, v);
    match c
    case Raw(raw) => encode(c)
    case Instant(_, _) => encode(Normal(c))
    case Decimal(_, _) => encode(Normal(c))
    case _ => encode(Folded(a, c))
  }

  // Whatever compares equal has one key, though the two are told apart in different ways.
  lemma EqualSharesKey(a: Attribute, encode: Encoder, x: Json, y: Json)
    requires Equal(a, x, y)
    ensures ValueKey(a, encode, x) == ValueKey(a, encode, y)
  {
  }

  // ---- Identity within a multi-valued attribute ----

  // The folded values that tell one element from another; none when the element has no identity.
  ghost function Identity(a: Attribute, o: Object): Option<seq<Canonical>> {
    match Lookup(a.subs, "value")
    case None => CompositeIdentity(a, o)
    case Some(sub) =>
      var key := Get(o, "value");
      if !key.Str? || key.text == "" then None
      else
        match Lookup(a.subs, "type")
        case None => Some([Folded(sub, Text(key.text))])
        case Some(kind) =>
          if kind.mutability != ReadWrite then Some([Folded(sub, Text(key.text))])
          else Some([Folded(sub, Text(key.text)), TypeKey(kind, Get(o, kind.name))])
  }

  // The type of an element: not read as any kind, and the same for all that is unassigned.
  function TypeKey(kind: Attribute, v: Json): Canonical {
    if IsUnassigned(v) then Raw(Null) else Folded(kind, Untyped(v))
  }

  // The sub-attributes a client may write and read back, except "primary".
  function Identifying(subs: seq<Attribute>): seq<Attribute> {
    if subs == [] then []
    else
      (if subs[0].mutability == ReadWrite && !subs[0].hidden && !EqualFold(subs[0].name, "primary")
       then [subs[0]] else [])
      + Identifying(subs[1..])
  }

  ghost function FoldedValues(subs: seq<Attribute>, o: Object): (values: seq<Canonical>)
    ensures |values| == |subs|
  {
    if subs == [] then [] else [Normal(CanonicalOf(subs[0], Get(o, subs[0].name)))] + FoldedValues(subs[1..], o)
  }

  ghost function CompositeIdentity(a: Attribute, o: Object): Option<seq<Canonical>> {
    var subs := Identifying(a.subs);
    if subs == [] then None else Some(FoldedValues(subs, o))
  }

  predicate KeyedByIdentity(a: Attribute) {
    a.subs != []
  }

  // Whether the element counts as the wanted one: by identity if the attribute has sub-attributes, else by value.
  ghost predicate SameElement(a: Attribute, element: Json, want: Json) {
    if KeyedByIdentity(a) then
      element.Obj? && Identity(a, element.fields).Some? &&
      Identity(a, element.fields) == Identity(a, AsObject(want))
    else Equal(a, element, want)
  }

  ghost predicate Contains(a: Attribute, elements: seq<Json>, want: Json) {
    exists i :: 0 <= i < |elements| && SameElement(a, elements[i], want)
  }

  // The candidates the list does not hold yet.
  ghost function Fresh(a: Attribute, elements: seq<Json>, candidates: seq<Json>): seq<Json> {
    if candidates == [] then []
    else (if Contains(a, elements, candidates[0]) then [] else [candidates[0]]) + Fresh(a, elements, candidates[1..])
  }

  // ---- Lists without repeats ----

  // A kept element takes over "primary" from a repeat that is dropped.
  ghost function Promote(v: Json, repeat: Json): Json {
    if v.Obj? && repeat.Obj? && Get(repeat.fields, "primary") == Bool(true) then Obj(v.fields["primary" := Bool(true)])
    else v
  }

  ghost function FirstSame(a: Attribute, elements: seq<Json>, want: Json): (i: nat)
    requires Contains(a, elements, want)
    ensures i < |elements| && SameElement(a, elements[i], want)
    ensures forall j :: 0 <= j < i ==> !SameElement(a, elements[j], want)
  {
    if SameElement(a, elements[0], want) then 0 else 1 + FirstSame(a, elements[1..], want)
  }

  // The kept elements after one more candidate: added when new; a repeat only passes on its primary flag.
  ghost function Admit(a: Attribute, kept: seq<Json>, element: Json): seq<Json> {
    if !Contains(a, kept, element) then kept + [element]
    else if KeyedByIdentity(a) then
      var i := FirstSame(a, kept, element);
      kept[i := Promote(kept[i], element)]
    else kept
  }

  ghost function AdmitAll(a: Attribute, kept: seq<Json>, list: seq<Json>): seq<Json>
    decreases |list|
  {
    if list == [] then kept else AdmitAll(a, Admit(a, kept, list[0]), list[1..])
  }

  ghost function Unique(a: Attribute, list: seq<Json>): seq<Json> {
    if |list| < 2 then list else AdmitAll(a, [], list)
  }

  // ---- What identity means ----

  lemma NormalMeans(a: Attribute, x: Json, y: Json)
    ensures Normal(CanonicalOf(a, x)) == Normal(CanonicalOf(a, y)) <==> Equal(a, x, y)
  {
  }

  lemma {:induction false} FoldedValuesMean(subs: seq<Attribute>, o: Object, p: Object)
    ensures FoldedValues(subs, o) == FoldedValues(subs, p) <==>
            forall i :: 0 <= i < |subs| ==> Equal(subs[i], Get(o, subs[i].name), Get(p, subs[i].name))
  {
    hide Get, Equal, CanonicalOf, Normal;
    if subs != [] {
      var s, rest := subs[0], subs[1..];
      FoldedValuesMean(rest, o, p);
      NormalMeans(s, Get(o, s.name), Get(p, s.name));
      assert FoldedValues(subs, o) == [Normal(CanonicalOf(s, Get(o, s.name)))] + FoldedValues(rest, o);
      assert FoldedValues(subs, p) == [Normal(CanonicalOf(s, Get(p, s.name)))] + FoldedValues(rest, p);
      if FoldedValues(subs, o) == FoldedValues(subs, p) {
        assert FoldedValues(subs, o)[1..] == FoldedValues(rest, o);
        assert FoldedValues(subs, p)[1..] == FoldedValues(rest, p);
        assert FoldedValues(subs, o)[0] == FoldedValues(subs, p)[0];
      }
      assert forall i :: 0 < i < |subs| ==> subs[i] == rest[i - 1];
    }
  }

  // A sub-attribute that tells elements apart when there is no "value".
  predicate Distinguishes(sub: Attribute) {
    sub.mutability == ReadWrite && !sub.hidden && !EqualFold(sub.name, "primary")
  }

  lemma {:induction false} IdentifyingIff(subs: seq<Attribute>)
    ensures forall s :: s in Identifying(subs) <==> s in subs && Distinguishes(s)
  {
    if subs != [] {
      IdentifyingIff(subs[1..]);
      assert subs == [subs[0]] + subs[1..];
    }
  }

  // Without a sub-attribute "value", two objects are one element when all that tells elements apart is equal.
  lemma CompositeMeans(a: Attribute, o: Object, p: Object)
    requires KeyedByIdentity(a) && Lookup(a.subs, "value").None?
    ensures SameElement(a, Obj(o), Obj(p)) <==>
              && (exists s :: s in a.subs && Distinguishes(s))
              && forall s :: s in a.subs && Distinguishes(s) ==> Equal(s, Get(o, s.name), Get(p, s.name))
  {
    hide Get, Equal, FoldedValues, Distinguishes;
    var subs := Identifying(a.subs);
    IdentifyingIff(a.subs);
    FoldedValuesMean(subs, o, p);
    if subs != [] {
      assert subs[0] in subs;
    }
    assert (forall s :: s in subs ==> Equal(s, Get(o, s.name), Get(p, s.name))) <==>
           forall i :: 0 <= i < |subs| ==> Equal(subs[i], Get(o, subs[i].name), Get(p, subs[i].name));
  }

  // With one, they are one element when both have a value, the values are equal, and so are the types if clients set
  // them; types left out are equal.
  lemma ValueMeans(a: Attribute, o: Object, p: Object)
    requires Lookup(a.subs, "value").Some? && Lookup(a.subs, "value").value.kind == StringKind
    requires Lookup(a.subs, "type").Some? ==> Lookup(a.subs, "type").value.kind == StringKind
    ensures var sub, kind := Lookup(a.subs, "value").value, Lookup(a.subs, "type");
            var x, y := Get(o, "value"), Get(p, "value");
            SameElement(a, Obj(o), Obj(p)) <==>
              && x.Str? && y.Str? && x.text != "" && y.text != "" && Equal(sub, x, y)
              && (kind.Some? && kind.value.mutability == ReadWrite ==>
                    SameType(kind.value, Get(o, kind.value.name), Get(p, kind.value.name)))
  {
    hide Get, EqualFold;
    var kind := Lookup(a.subs, "type");
    if kind.Some? {
      TypesMean(kind.value, Get(o, kind.value.name), Get(p, kind.value.name));
    }
  }

  predicate SameType(kind: Attribute, x: Json, y: Json) {
    if IsUnassigned(x) || IsUnassigned(y) then IsUnassigned(x) && IsUnassigned(y) else Equal(kind, x, y)
  }

  lemma TypesMean(kind: Attribute, x: Json, y: Json)
    requires kind.kind == StringKind
    ensures TypeKey(kind, x) == TypeKey(kind, y) <==> SameType(kind, x, y)
  {
  }

  // ---- "primary" is no part of an element's identity ----

  lemma {:induction false} IdentifyingNotPrimary(subs: seq<Attribute>)
    ensures forall i :: 0 <= i < |Identifying(subs)| ==> !EqualFold(Identifying(subs)[i].name, "primary")
  {
    if subs != [] {
      IdentifyingNotPrimary(subs[1..]);
    }
  }

  lemma {:induction false} FoldedValuesSame(subs: seq<Attribute>, o: Object, key: string, v: Json)
    requires forall i :: 0 <= i < |subs| ==> !EqualFold(key, subs[i].name)
    ensures FoldedValues(subs, o[key := v]) == FoldedValues(subs, o)
  {
    if subs != [] {
      GetOther(o, key, v, subs[0].name);
      FoldedValuesSame(subs[1..], o, key, v);
    }
  }

  lemma {:induction false} LookupName(attributes: seq<Attribute>, name: string)
    ensures Lookup(attributes, name).Some? ==> EqualFold(Lookup(attributes, name).value.name, name)
  {
    if attributes != [] {
      LookupName(attributes[1..], name);
    }
  }

  lemma PrimaryKeepsIdentity(a: Attribute, o: Object, key: string, v: Json)
    requires EqualFold(key, "primary")
    ensures Identity(a, o[key := v]) == Identity(a, o)
  {
    assert Fold("primary") != Fold("value") && Fold("primary") != Fold("type") by {
      assert |Fold("primary")| == 7 && |Fold("value")| == 5 && |Fold("type")| == 4;
    }
    GetOther(o, key, v, "value");
    LookupName(a.subs, "type");
    if Lookup(a.subs, "type").Some? {
      GetOther(o, key, v, Lookup(a.subs, "type").value.name);
    }
    IdentifyingNotPrimary(a.subs);
    FoldedValuesSame(Identifying(a.subs), o, key, v);
  }

  // ---- Computed with loops ----

  method PrimaryOf(v: Json) returns (primary: bool)
    ensures primary == Primary(v)
  {
    var flag := GetOf(AsObject(v), "primary");
    primary := v.Obj? && flag == Bool(true);
  }

  method CompositeIdentityOf(a: Attribute, o: Object) returns (id: Option<seq<Canonical>>)
    ensures id == CompositeIdentity(a, o)
  {
    hide Get, EqualFold;
    var folded: seq<Canonical> := [];
    var rest := a.subs;
    while rest != []
      invariant FoldedValues(Identifying(a.subs), o) == folded + FoldedValues(Identifying(rest), o)
      decreases |rest|
    {
      var sub := rest[0];
      if sub.mutability == ReadWrite && !sub.hidden && !EqualFold(sub.name, "primary") {
        var v := GetOf(o, sub.name);
        assert Identifying(rest) == [sub] + Identifying(rest[1..]);
        FoldedMore(folded, sub, Identifying(rest[1..]), o);
        folded := folded + [Normal(CanonicalOf(sub, v))];
      } else {
        assert Identifying(rest) == Identifying(rest[1..]);
      }
      rest := rest[1..];
    }
    assert folded + [] == folded;
    id := if folded == [] then None else Some(folded);
  }

  lemma FoldedMore(folded: seq<Canonical>, sub: Attribute, later: seq<Attribute>, o: Object)
    ensures folded + FoldedValues([sub] + later, o) ==
            folded + [Normal(CanonicalOf(sub, Get(o, sub.name)))] + FoldedValues(later, o)
  {
    assert ([sub] + later)[1..] == later;
  }

  method IdentityOf(a: Attribute, o: Object) returns (id: Option<seq<Canonical>>)
    ensures id == Identity(a, o)
  {
    match Lookup(a.subs, "value") {
      case None =>
        id := CompositeIdentityOf(a, o);
      case Some(sub) =>
        var key := GetOf(o, "value");
        if !key.Str? || key.text == "" {
          return None;
        }
        match Lookup(a.subs, "type") {
          case None =>
            id := Some([Folded(sub, Text(key.text))]);
          case Some(kind) =>
            if kind.mutability != ReadWrite {
              id := Some([Folded(sub, Text(key.text))]);
            } else {
              var held := GetOf(o, kind.name);
              id := Some([Folded(sub, Text(key.text)), TypeKey(kind, held)]);
            }
        }
    }
  }
}
