/**
 JSON documents, schema trees, and the two readings of a schema tree: the JSON Schema
 reading of a validator that knows every keyword, and the Kubernetes reading of an authored CRD schema,
 which also knows `nullable` and `x-kubernetes-int-or-string`.
 */
module JsonSchema {
  import opened Wrappers

  datatype Value =
    | Null
    | Bool(b: bool)
    | Number(r: real)
    | String(s: string)
    | Array(items: seq<Value>)
    | Object(fields: map<string, Value>)

  datatype TypeKeyword = NoType | OneType(name: string) | AnyType(names: seq<string>)

  /**
   A keyword the compiler never touches, such as `$ref`, `format` or `minimum`, an explicitly
   false flag, or a combinator with an empty list.
   */
  type Facet = nat

  /** The keywords of one schema node that do not hold schemas. */
  datatype Keywords = Keywords(
    ty: TypeKeyword,
    enum: Option<seq<Value>>,
    nullable: Option<bool>,
    intOrString: bool,
    preserveUnknown: bool,
    hasProperties: bool,
    required: seq<string>,
    facets: seq<Facet>
  )

  const EMPTY := Keywords(NoType, None, None, false, false, false, [], [])

  /** Where a child schema sits in its parent. */
  datatype Slot =
    | Property(name: string)
    | PatternProperty(pattern: string)
    | Definition(name: string)
    | DependentSchema(name: string)
    | Items
    | TupleItem(index: nat)
    | PrefixItem(index: nat)
    | Additional
    | AllOf | AnyOf | OneOf
    | Not | If | Then | Else | Contains | PropertyNames

  datatype Schema = Flag(accepts: bool) | Node(kw: Keywords, kids: seq<Kid>)
  datatype Kid = Kid(slot: Slot, schema: Schema)

  /** What the readings take as given: regular expressions and the untouched keywords. */
  datatype Semantics = Semantics(pattern: (string, string) -> bool, facet: (Facet, Value) -> bool)

  function Slots(kids: seq<Kid>): (r: seq<Slot>)
    ensures |r| == |kids|
  {
    seq(|kids|, i requires 0 <= i < |kids| => kids[i].slot)
  }

  /** The slots whose schema describes a part of the document rather than adding a constraint. */
  predicate Structural(slot: Slot) {
    slot.Property? || slot.PatternProperty? || slot.Definition? || slot.Items?
    || slot.TupleItem? || slot.PrefixItem? || slot.Additional?
  }

  ghost predicate Declared(sem: Semantics, slots: seq<Slot>, name: string) {
    exists i :: 0 <= i < |slots| && Declares(sem, slots[i], name)
  }

  predicate Declares(sem: Semantics, slot: Slot, name: string) {
    match slot
    case Property(n) => n == name
    case PatternProperty(p) => sem.pattern(p, name)
    case _ => false
  }

  /** The structural slot `slot` of a node applies to the part `w` of the document `v`. */
  ghost predicate Applies(sem: Semantics, slots: seq<Slot>, slot: Slot, v: Value, w: Value) {
    match slot
    case Property(n) => v.Object? && n in v.fields && w == v.fields[n]
    case PatternProperty(p) =>
      v.Object? && exists name :: name in v.fields && sem.pattern(p, name) && w == v.fields[name]
    case Items => v.Array? && w in v.items
    case TupleItem(k) => v.Array? && k < |v.items| && w == v.items[k]
    case PrefixItem(k) => v.Array? && k < |v.items| && w == v.items[k]
    case Additional =>
      v.Object? && exists name :: name in v.fields && !Declared(sem, slots, name) && w == v.fields[name]
    case _ => false
  }

  /** The values a child schema stands for, under one of the readings below. */
  datatype Extent = Extent(slot: Slot, values: iset<Value>)

  /** Every part of the document that a structural child applies to belongs to that child. */
  ghost predicate StructureHolds(sem: Semantics, slots: seq<Slot>, kids: seq<Extent>, v: Value)
    requires |slots| == |kids|
  {
    forall i, w :: 0 <= i < |kids| && Structural(slots[i]) && Applies(sem, slots, slots[i], v, w) ==>
      w in kids[i].values
  }

  /** The children that add constraints to the whole node, in order. */
  ghost function Constraints(kids: seq<Extent>): seq<Extent> {
    if kids == [] then [] else
      var last := kids[|kids| - 1];
      Constraints(kids[..|kids| - 1]) + if Structural(last.slot) then [] else [last]
  }

  ghost predicate Has(kids: seq<Extent>, slot: Slot) {
    exists k :: k in kids && k.slot == slot
  }

  ghost predicate AllAt(kids: seq<Extent>, slot: Slot, v: Value) {
    forall k :: k in kids && k.slot == slot ==> v in k.values
  }

  ghost predicate HoldsAt(kids: seq<Extent>, slot: Slot, v: Value, i: int) {
    0 <= i < |kids| && kids[i].slot == slot && v in kids[i].values
  }

  ghost predicate SomeAt(kids: seq<Extent>, slot: Slot, v: Value) {
    exists i :: HoldsAt(kids, slot, v, i)
  }

  ghost predicate OneAt(kids: seq<Extent>, slot: Slot, v: Value) {
    exists i :: HoldsAt(kids, slot, v, i) && forall j :: HoldsAt(kids, slot, v, j) ==> j == i
  }

  /** One constraint other than the `anyOf`, `oneOf` and `if` groups. */
  ghost predicate ConstraintHolds(kid: Extent, v: Value) {
    match kid.slot
    case AllOf => v in kid.values
    case Not => v !in kid.values
    case DependentSchema(name) => v.Object? && name in v.fields ==> v in kid.values
    case Contains => v.Array? ==> exists w :: w in v.items && w in kid.values
    case PropertyNames => v.Object? ==> forall name :: name in v.fields ==> String(name) in kid.values
    case _ => true
  }

  ghost predicate ConstraintsHold(kids: seq<Extent>, v: Value) {
    && (forall k :: k in kids ==> ConstraintHolds(k, v))
    && (Has(kids, AnyOf) ==> SomeAt(kids, AnyOf, v))
    && (Has(kids, OneOf) ==> OneAt(kids, OneOf, v))
    && (Has(kids, If) ==> if AllAt(kids, If, v) then AllAt(kids, Then, v) else AllAt(kids, Else, v))
  }

  ghost predicate KidsHold(sem: Semantics, slots: seq<Slot>, kids: seq<Extent>, v: Value)
    requires |slots| == |kids|
  {
    StructureHolds(sem, slots, kids, v) && ConstraintsHold(Constraints(kids), v)
  }

  predicate HasType(name: string, v: Value) {
    match v
    case Null => name == "null"
    case Bool(_) => name == "boolean"
    case Number(r) => name == "number" || (name == "integer" && r.Floor as real == r)
    case String(_) => name == "string"
    case Array(_) => name == "array"
    case Object(_) => name == "object"
  }

  predicate TypeOk(ty: TypeKeyword, v: Value) {
    match ty
    case NoType => true
    case OneType(name) => HasType(name, v)
    case AnyType(names) => exists i :: 0 <= i < |names| && HasType(names[i], v)
  }

  predicate EnumOk(enum: Option<seq<Value>>, v: Value) {
    enum.Some? ==> v in enum.value
  }

  predicate RestOk(sem: Semantics, kw: Keywords, v: Value) {
    && (v.Object? ==> forall i :: 0 <= i < |kw.required| ==> kw.required[i] in v.fields)
    && (forall i :: 0 <= i < |kw.facets| ==> sem.facet(kw.facets[i], v))
  }

  predicate IsJson(v: Value) { true }

  ghost function Everything(): iset<Value> { iset v: Value | IsJson(v) }

  /**
   The JSON Schema reading, each keyword as the newest draft that has it defines it. The
   OpenAPI keywords `nullable` and `x-kubernetes-*` mean nothing here.
   */
  ghost function Accepted(sem: Semantics, s: Schema): iset<Value>
    decreases s
  {
    match s
    case Flag(b) => if b then Everything() else iset{}
    case Node(kw, kids) =>
      var extents := seq(|kids|, i requires 0 <= i < |kids| => Extent(kids[i].slot, Accepted(sem, kids[i].schema)));
      iset v: Value |
        && TypeOk(kw.ty, v)
        && EnumOk(kw.enum, v)
        && RestOk(sem, kw, v)
        && KidsHold(sem, Slots(kids), extents, v)
  }

  /**
   The Kubernetes reading of an authored schema: `nullable` admits null past every keyword
   except `enum`, and int-or-string replaces the declared type.
   */
  ghost function Admitted(sem: Semantics, s: Schema): iset<Value>
    decreases s
  {
    match s
    case Flag(b) => if b then Everything() else iset{}
    case Node(kw, kids) =>
      var extents := seq(|kids|, i requires 0 <= i < |kids| => Extent(kids[i].slot, Admitted(sem, kids[i].schema)));
      iset v: Value |
        && EnumOk(kw.enum, v)
        && (|| (kw.nullable == Some(true) && v.Null?)
            || (&& (if kw.intOrString then HasType("integer", v) || HasType("string", v) else TypeOk(kw.ty, v))
                && RestOk(sem, kw, v)
                && KidsHold(sem, Slots(kids), extents, v)))
  }

  /**
   An authored node that lists the fields of an object and leaves nothing open: it has
   properties or type object, says nothing about additional properties, and does not
   preserve unknown fields.
   */
  predicate ClosedShape(kw: Keywords, kids: seq<Kid>) {
    && ((!kw.intOrString && kw.ty == OneType("object")) || kw.hasProperties)
    && !kw.preserveUnknown
    && Additional !in Slots(kids)
  }

  ghost predicate AllDeclared(sem: Semantics, slots: seq<Slot>, v: Value) {
    v.Object? ==> forall name :: name in v.fields ==> Declared(sem, slots, name)
  }

  /** The documents in which no closed object, outside combinator fragments, has an undeclared field. */
  ghost function Undeclaring(sem: Semantics, s: Schema): iset<Value>
    decreases s
  {
    match s
    case Flag(_) => Everything()
    case Node(kw, kids) =>
      var extents := seq(|kids|, i requires 0 <= i < |kids| => Extent(kids[i].slot, Undeclaring(sem, kids[i].schema)));
      iset v: Value |
        || (kw.nullable == Some(true) && v.Null?)
        || (&& (ClosedShape(kw, kids) ==> AllDeclared(sem, Slots(kids), v))
            && StructureHolds(sem, Slots(kids), extents, v))
  }
}
