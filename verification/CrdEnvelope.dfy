/**
 The resource envelope that a CRD's schema is completed with before compilation: what the
 completed schema means, and what opening the authored `metadata` keeps of it.
 */
module CrdEnvelope {
  import opened Wrappers
  import opened Ordering
  import opened JsonSchema
  import opened StrictSchema
  import opened CanonicalSchema

  const API_VERSION := Property("apiVersion")
  const KIND := Property("kind")
  const METADATA := Property("metadata")
  const ENVELOPE := [API_VERSION, KIND, METADATA]

  const OPEN_OBJECT := Node(EMPTY.(ty := OneType("object")), [Kid(Additional, Flag(true))])

  function OneString(text: string): Schema {
    Node(EMPTY.(ty := OneType("string"), enum := Some([String(text)])), [])
  }

  function SetDefault(kids: seq<Kid>, slot: Slot, schema: Schema): seq<Kid> {
    if slot in Slots(kids) then kids else kids + [Kid(slot, schema)]
  }

  function Freed(k: Kid): Kid { if k.slot == Additional then Kid(Additional, Flag(true)) else k }

  function WithAnyAdditional(kids: seq<Kid>): seq<Kid> {
    if Additional in Slots(kids) then MapKids(Freed, kids) else kids + [Kid(Additional, Flag(true))]
  }

  function ObjectByDefault(kw: Keywords): Keywords {
    if kw.ty.NoType? then kw.(ty := OneType("object")) else kw
  }

  /** An authored metadata schema becomes an object by default and admits any other field. */
  function Opened(metadata: Schema): Schema {
    if metadata.Flag? then metadata else Node(ObjectByDefault(metadata.kw), WithAnyAdditional(metadata.kids))
  }

  function OpenKid(k: Kid): Kid { if k.slot == METADATA then Kid(METADATA, Opened(k.schema)) else k }

  function WithMetadata(kids: seq<Kid>): seq<Kid> {
    if METADATA in Slots(kids) then MapKids(OpenKid, kids) else kids + [Kid(METADATA, OPEN_OBJECT)]
  }

  function EnvelopeKeywords(kw: Keywords): Keywords {
    kw.(hasProperties := true, required := SortedDistinct(kw.required + ["apiVersion", "kind", "metadata"]))
  }

  function ApiKid(group: string, version: string): Kid { Kid(API_VERSION, OneString(group + "/" + version)) }

  function KindKid(kind: string): Kid { Kid(KIND, OneString(kind)) }

  function EnvelopeKids(kids: seq<Kid>, group: string, version: string, kind: string): seq<Kid> {
    var api, named := ApiKid(group, version), KindKid(kind);
    WithMetadata(SetDefault(SetDefault(kids, API_VERSION, api.schema), KIND, named.schema))
  }

  /** The CRD's own schema plus the resource envelope that kubeconform also sees. */
  function Envelope(s: Schema, group: string, version: string, kind: string): Schema
    requires s.Node?
  {
    Node(EnvelopeKeywords(s.kw), EnvelopeKids(s.kids, group, version, kind))
  }

  function Generated(s: Schema, group: string, version: string, kind: string): Schema
    requires s.Node?
  {
    Strict(Envelope(s, group, version, kind), false)
  }

  // ---- a node's children, one at a time ---------------------------------------------------

  /** The Kubernetes reading of one child, among siblings at these slots. */
  ghost predicate KidHolds(sem: Semantics, slots: seq<Slot>, k: Kid, v: Value) {
    PartHolds(sem, slots, Extent(k.slot, Admitted(sem, k.schema)), v)
  }

  /** The combinators, conditions and other constraints on the whole node. */
  ghost predicate Constrained(sem: Semantics, kids: seq<Kid>, v: Value) {
    ConstraintsHold(Constraints(AdmittedKids(sem, kids)), v)
  }

  lemma AdmittedByMember(sem: Semantics, kids: seq<Kid>, v: Value)
    ensures KidsHold(sem, Slots(kids), AdmittedKids(sem, kids), v) <==>
      (forall k :: k in kids ==> KidHolds(sem, Slots(kids), k, v)) && Constrained(sem, kids, v)
  {
    var extents := AdmittedKids(sem, kids);
    StructureByMember(sem, Slots(kids), extents, v);
    if forall e :: e in extents ==> PartHolds(sem, Slots(kids), e, v) {
      forall k | k in kids ensures KidHolds(sem, Slots(kids), k, v) {
        var i :| 0 <= i < |kids| && kids[i] == k;
        assert extents[i] in extents;
      }
    }
    if forall k :: k in kids ==> KidHolds(sem, Slots(kids), k, v) {
      forall e | e in extents ensures PartHolds(sem, Slots(kids), e, v) {
        var i :| 0 <= i < |extents| && extents[i] == e;
        assert kids[i] in kids;
      }
    }
  }

  lemma KidByDeclared(sem: Semantics, a: seq<Slot>, b: seq<Slot>, k: Kid, v: Value)
    requires forall slot: Slot :: slot.Property? || slot.PatternProperty? ==> (slot in a <==> slot in b)
    ensures KidHolds(sem, a, k, v) <==> KidHolds(sem, b, k, v)
  {
    forall name ensures Declared(sem, a, name) <==> Declared(sem, b, name) {
      DeclaredAmong(sem, a, b, name);
      DeclaredAmong(sem, b, a, name);
    }
    PartByDeclared(sem, a, b, Extent(k.slot, Admitted(sem, k.schema)), v);
  }

  lemma DeclaredAmong(sem: Semantics, a: seq<Slot>, b: seq<Slot>, name: string)
    requires forall slot: Slot :: slot.Property? || slot.PatternProperty? ==> (slot in a <==> slot in b)
    ensures Declared(sem, a, name) ==> Declared(sem, b, name)
  {
    if Declared(sem, a, name) {
      var i :| 0 <= i < |a| && Declares(sem, a[i], name);
      assert a[i] in b;
      var j :| 0 <= j < |b| && b[j] == a[i];
    }
  }

  lemma PropertyHolds(sem: Semantics, slots: seq<Slot>, name: string, schema: Schema, v: Value)
    ensures KidHolds(sem, slots, Kid(Property(name), schema), v)
      <==> (v.Object? && name in v.fields ==> v.fields[name] in Admitted(sem, schema))
  {
    if v.Object? && name in v.fields {
      assert Applies(sem, slots, Property(name), v, v.fields[name]);
    }
  }

  lemma ConstrainedAppend(sem: Semantics, kids: seq<Kid>, k: Kid, v: Value)
    requires Structural(k.slot)
    ensures Constrained(sem, kids + [k], v) <==> Constrained(sem, kids, v)
  {
    var more := AdmittedKids(sem, kids + [k]);
    assert more == AdmittedKids(sem, kids) + [Extent(k.slot, Admitted(sem, k.schema))];
    assert more[..|more| - 1] == AdmittedKids(sem, kids);
    assert Constraints(more) == Constraints(AdmittedKids(sem, kids));
  }

  lemma ConstrainedMapped(sem: Semantics, f: Kid -> Kid, kids: seq<Kid>, v: Value)
    requires forall k :: f(k).slot == k.slot && (!Structural(k.slot) ==> f(k) == k)
    ensures Constrained(sem, MapKids(f, kids), v) <==> Constrained(sem, kids, v)
  {
    ConstraintsSame(AdmittedKids(sem, MapKids(f, kids)), AdmittedKids(sem, kids));
  }

  lemma SlotsMapped(f: Kid -> Kid, kids: seq<Kid>)
    requires forall k :: f(k).slot == k.slot
    ensures Slots(MapKids(f, kids)) == Slots(kids)
  {
  }

  lemma MappedMember(f: Kid -> Kid, kids: seq<Kid>, k: Kid)
    ensures k in MapKids(f, kids) <==> exists a :: a in kids && k == f(a)
  {
    if k in MapKids(f, kids) {
      var i :| 0 <= i < |kids| && MapKids(f, kids)[i] == k;
      assert kids[i] in kids;
    }
    if a :| a in kids && k == f(a) {
      var i :| 0 <= i < |kids| && kids[i] == a;
      assert MapKids(f, kids)[i] == k;
    }
  }

  lemma SlotOfMember(kids: seq<Kid>, k: Kid)
    requires k in kids
    ensures k.slot in Slots(kids)
  {
    var i :| 0 <= i < |kids| && kids[i] == k;
    assert Slots(kids)[i] == k.slot;
  }

  lemma SlotsAppended(kids: seq<Kid>, k: Kid)
    ensures Slots(kids + [k]) == Slots(kids) + [k.slot]
  {
  }

  // ---- opening the authored metadata --------------------------------------------------------

  /** Null where the schema is nullable. */
  predicate Nulled(kw: Keywords, v: Value) { kw.nullable == Some(true) && v.Null? }

  /** Everything a node's children ask, except of the fields that it does not declare. */
  ghost predicate DeclaredHold(sem: Semantics, kids: seq<Kid>, v: Value) {
    && (forall k :: k in kids && k.slot != Additional ==> KidHolds(sem, Slots(kids), k, v))
    && Constrained(sem, kids, v)
  }

  /** Every undeclared field is one that the authored `additionalProperties` admits. */
  ghost predicate UndeclaredHold(sem: Semantics, kids: seq<Kid>, v: Value) {
    forall k :: k in kids && k.slot == Additional ==> KidHolds(sem, Slots(kids), k, v)
  }

  lemma AnyAdditional(sem: Semantics, kids: seq<Kid>, v: Value)
    ensures var more := WithAnyAdditional(kids);
      KidsHold(sem, Slots(more), AdmittedKids(sem, more), v) <==> DeclaredHold(sem, kids, v)
  {
    var more := WithAnyAdditional(kids);
    AdmittedByMember(sem, more, v);
    forall k ensures KidHolds(sem, Slots(more), k, v) <==> KidHolds(sem, Slots(kids), k, v) {
      AnyAdditionalSlots(kids);
      KidByDeclared(sem, Slots(more), Slots(kids), k, v);
    }
    assert KidHolds(sem, Slots(kids), Kid(Additional, Flag(true)), v);
    if Additional in Slots(kids) {
      ConstrainedMapped(sem, Freed, kids, v);
      forall k ensures k in more <==> exists a :: a in kids && k == Freed(a) {
        MappedMember(Freed, kids, k);
      }
      forall k | k in kids ensures Freed(k) in more {}
    } else {
      ConstrainedAppend(sem, kids, Kid(Additional, Flag(true)), v);
      forall k | k in kids ensures k.slot != Additional {
        SlotOfMember(kids, k);
      }
    }
  }

  lemma AnyAdditionalSlots(kids: seq<Kid>)
    ensures forall slot :: slot != Additional ==> (slot in Slots(WithAnyAdditional(kids)) <==> slot in Slots(kids))
  {
    if Additional in Slots(kids) {
      SlotsMapped(Freed, kids);
    } else {
      SlotsAppended(kids, Kid(Additional, Flag(true)));
    }
  }

  /** Opened metadata keeps every keyword and every declared field, and lets any other field in. */
  lemma OpenedMeaning(sem: Semantics, m: Schema, v: Value)
    requires m.Node?
    ensures v in Admitted(sem, Opened(m)) <==>
      && EnumOk(m.kw.enum, v)
      && (|| Nulled(m.kw, v)
          || (TypeOk(Normalised(ObjectByDefault(m.kw)).ty, v) && RestOk(sem, m.kw, v) && DeclaredHold(sem, m.kids, v)))
  {
    AdmittedNode(sem, ObjectByDefault(m.kw), WithAnyAdditional(m.kids), v);
    AnyAdditional(sem, m.kids, v);
  }

  /** The type that opening gives to a schema without one refuses every other document. */
  predicate ObjectIfUntyped(kw: Keywords, v: Value) {
    kw.ty.NoType? && !kw.intOrString && !Nulled(kw, v) ==> v.Object?
  }

  /**
   What opening keeps and what it adds: the documents of the authored metadata schema that have the
   type it is given by default are exactly those of the opened one whose undeclared fields are all
   fields that the authored schema lets in.
   */
  lemma OpenedKeeps(sem: Semantics, m: Schema, v: Value)
    requires m.Node?
    ensures v in Admitted(sem, m) && ObjectIfUntyped(m.kw, v) <==>
      v in Admitted(sem, Opened(m)) && (Nulled(m.kw, v) || UndeclaredHold(sem, m.kids, v))
  {
    OpenedMeaning(sem, m, v);
    AdmittedNode(sem, m.kw, m.kids, v);
    AdmittedByMember(sem, m.kids, v);
  }

  /** Where other fields are not spoken of, or are all admitted, opening only gives the default type. */
  lemma OpenedKeepsOpen(sem: Semantics, m: Schema, v: Value)
    requires m.Node?
    requires forall k :: k in m.kids && k.slot == Additional ==> k.schema == Flag(true)
    ensures v in Admitted(sem, Opened(m)) <==> v in Admitted(sem, m) && ObjectIfUntyped(m.kw, v)
  {
    OpenedKeeps(sem, m, v);
    forall k | k in m.kids && k.slot == Additional ensures KidHolds(sem, Slots(m.kids), k, v) {}
  }

  const NO_FIELDS := [Kid(Additional, Flag(false))]

  lemma NoFieldsConstrain(sem: Semantics, v: Value)
    ensures Constrained(sem, NO_FIELDS, v)
  {
    assert AdmittedKids(sem, NO_FIELDS)[..0] == [];
    assert Constraints(AdmittedKids(sem, NO_FIELDS)) == [];
  }

  lemma NoFieldsRefuse(sem: Semantics, name: string, v: Value)
    requires v.Object? && name in v.fields
    ensures DeclaredHold(sem, NO_FIELDS, v) && !UndeclaredHold(sem, NO_FIELDS, v)
  {
    NoFieldsConstrain(sem, v);
    assert Slots(NO_FIELDS) == [Additional];
    assert !Declared(sem, Slots(NO_FIELDS), name);
    assert Applies(sem, Slots(NO_FIELDS), Additional, v, v.fields[name]);
    assert NO_FIELDS[0] in NO_FIELDS && !KidHolds(sem, Slots(NO_FIELDS), NO_FIELDS[0], v);
  }

  /**
   The one authored constraint that opening drops, although every constraint is documented to be
   kept: metadata authored as an object without any field lets every field in.
   */
  lemma OpenedForgets(sem: Semantics, name: string, v: Value)
    requires v.Object? && name in v.fields
    ensures var m := Node(EMPTY.(ty := OneType("object")), NO_FIELDS);
      v !in Admitted(sem, m) && v in Admitted(sem, Opened(m))
  {
    var m := Node(EMPTY.(ty := OneType("object")), NO_FIELDS);
    NoFieldsRefuse(sem, name, v);
    OpenedKeeps(sem, m, v);
    OpenedMeaning(sem, m, v);
  }

  // ---- what the completed schema means ------------------------------------------------------

  lemma OneStringMeaning(sem: Semantics, text: string, v: Value)
    ensures v in Admitted(sem, OneString(text)) <==> v == String(text)
  {
  }

  lemma OpenObjectMeaning(sem: Semantics, v: Value)
    ensures v in Admitted(sem, OPEN_OBJECT) <==> v.Object?
  {
    var plain := Node(EMPTY.(ty := OneType("object")), []);
    assert OPEN_OBJECT == Opened(plain);
    OpenedMeaning(sem, plain, v);
  }

  /** The authored children other than `metadata`, with the envelope's fields counted as declared. */
  ghost predicate CustomHold(sem: Semantics, kids: seq<Kid>, v: Value) {
    && (forall k :: k in kids && k.slot != METADATA ==> KidHolds(sem, Slots(kids) + ENVELOPE, k, v))
    && Constrained(sem, kids, v)
  }

  /** The document meets the authored schema's own words about everything but its metadata. */
  ghost predicate AdmitsCustom(sem: Semantics, s: Schema, v: Value)
    requires s.Node?
  {
    && EnumOk(s.kw.enum, v)
    && (|| Nulled(s.kw, v)
        || (TypeOk(Normalised(s.kw).ty, v) && RestOk(sem, s.kw, v) && CustomHold(sem, s.kids, v)))
  }

  predicate EnvelopePresent(v: Value) {
    v.Object? ==> "apiVersion" in v.fields && "kind" in v.fields && "metadata" in v.fields
  }

  /** The supplied parts of the envelope: only those that the CRD does not author itself. */
  predicate SuppliedHold(kids: seq<Kid>, group: string, version: string, kind: string, v: Value)
    requires EnvelopePresent(v)
  {
    v.Object? ==>
      && (API_VERSION !in Slots(kids) ==> v.fields["apiVersion"] == String(group + "/" + version))
      && (KIND !in Slots(kids) ==> v.fields["kind"] == String(kind))
      && (METADATA !in Slots(kids) ==> v.fields["metadata"].Object?)
  }

  ghost predicate AuthoredMetadataHolds(sem: Semantics, kids: seq<Kid>, v: Value)
    requires EnvelopePresent(v)
  {
    v.Object? ==> forall k :: k in kids && k.slot == METADATA ==>
      v.fields["metadata"] in Admitted(sem, Opened(k.schema))
  }

  /** An object is a complete resource: each envelope field as the CRD authors it, or as supplied. */
  ghost predicate Enveloped(sem: Semantics, kids: seq<Kid>, group: string, version: string, kind: string, v: Value) {
    && EnvelopePresent(v)
    && SuppliedHold(kids, group, version, kind, v)
    && AuthoredMetadataHolds(sem, kids, v)
  }

  predicate AllIn(names: seq<string>, keys: set<string>) { forall name :: name in names ==> name in keys }

  lemma NamesAllIn(a: seq<string>, b: seq<string>, keys: set<string>)
    requires forall name :: name in a <==> name in b
    ensures AllIn(a, keys) <==> AllIn(b, keys)
  {
  }

  lemma NamesAppended(names: seq<string>, keys: set<string>)
    ensures AllIn(names + ["apiVersion", "kind", "metadata"], keys)
      <==> AllIn(names, keys) && "apiVersion" in keys && "kind" in keys && "metadata" in keys
  {
  }

  lemma NamesIndexed(names: seq<string>, fields: map<string, Value>)
    ensures AllIn(names, fields.Keys) <==> forall i :: 0 <= i < |names| ==> names[i] in fields
  {
  }

  lemma RequiredEnvelope(sem: Semantics, kw: Keywords, v: Value)
    ensures RestOk(sem, EnvelopeKeywords(kw), v) <==> RestOk(sem, kw, v) && EnvelopePresent(v)
  {
    var all := kw.required + ["apiVersion", "kind", "metadata"];
    if v.Object? {
      NamesAllIn(SortedDistinct(all), all, v.fields.Keys);
      NamesAppended(kw.required, v.fields.Keys);
      NamesIndexed(SortedDistinct(all), v.fields);
      NamesIndexed(kw.required, v.fields);
    }
  }

  lemma DefaultMember(kids: seq<Kid>, k: Kid, x: Kid)
    ensures x in SetDefault(kids, k.slot, k.schema) <==> x in kids || (x == k && k.slot !in Slots(kids))
    ensures forall slot :: slot in Slots(SetDefault(kids, k.slot, k.schema)) <==> slot in Slots(kids) || slot == k.slot
  {
    SlotsAppended(kids, k);
  }

  /** The children of the completed schema: the authored ones, metadata opened, and what was missing. */
  lemma EnvelopeMember(kids: seq<Kid>, group: string, version: string, kind: string, x: Kid)
    ensures x in EnvelopeKids(kids, group, version, kind) <==>
      || (exists a :: a in kids && x == OpenKid(a))
      || (x == ApiKid(group, version) && API_VERSION !in Slots(kids))
      || (x == KindKid(kind) && KIND !in Slots(kids))
      || (x == Kid(METADATA, OPEN_OBJECT) && METADATA !in Slots(kids))
  {
    var api, named := ApiKid(group, version), KindKid(kind);
    var kids1 := SetDefault(kids, API_VERSION, api.schema);
    var kids2 := SetDefault(kids1, KIND, named.schema);
    forall y
      ensures y in kids2 <==>
        y in kids || (y == api && API_VERSION !in Slots(kids)) || (y == named && KIND !in Slots(kids))
    {
      DefaultMember(kids, api, y);
      DefaultMember(kids1, named, y);
    }
    DefaultMember(kids, api, api);
    DefaultMember(kids1, named, named);
    assert OpenKid(api) == api && OpenKid(named) == named;
    if METADATA in Slots(kids) {
      MappedMember(OpenKid, kids2, x);
    } else {
      forall a | a in kids ensures OpenKid(a) == a {
        SlotOfMember(kids, a);
      }
      assert x in kids ==> x == OpenKid(x);
    }
  }

  lemma EnvelopeSlots(kids: seq<Kid>, group: string, version: string, kind: string)
    ensures forall slot :: slot in Slots(EnvelopeKids(kids, group, version, kind)) <==> slot in Slots(kids) + ENVELOPE
  {
    var api, named := ApiKid(group, version), KindKid(kind);
    var kids1 := SetDefault(kids, API_VERSION, api.schema);
    var kids2 := SetDefault(kids1, KIND, named.schema);
    DefaultMember(kids, api, api);
    DefaultMember(kids1, named, named);
    if METADATA in Slots(kids2) {
      SlotsMapped(OpenKid, kids2);
    } else {
      SlotsAppended(kids2, Kid(METADATA, OPEN_OBJECT));
    }
  }

  lemma ConstrainedEnvelope(sem: Semantics, kids: seq<Kid>, group: string, version: string, kind: string, v: Value)
    ensures Constrained(sem, EnvelopeKids(kids, group, version, kind), v) <==> Constrained(sem, kids, v)
  {
    var api, named := ApiKid(group, version), KindKid(kind);
    var kids1 := SetDefault(kids, API_VERSION, api.schema);
    var kids2 := SetDefault(kids1, KIND, named.schema);
    ConstrainedAppend(sem, kids, api, v);
    ConstrainedAppend(sem, kids1, named, v);
    if METADATA in Slots(kids2) {
      ConstrainedMapped(sem, OpenKid, kids2, v);
    } else {
      ConstrainedAppend(sem, kids2, Kid(METADATA, OPEN_OBJECT), v);
    }
  }

  /** What one authored child contributes once the schema is completed. */
  ghost predicate OpenKidHolds(sem: Semantics, kids: seq<Kid>, k: Kid, v: Value) {
    KidHolds(sem, Slots(kids) + ENVELOPE, OpenKid(k), v)
  }

  lemma EnvelopeKidsByMember(
    sem: Semantics, kids: seq<Kid>, group: string, version: string, kind: string, v: Value)
    ensures var all := EnvelopeKids(kids, group, version, kind); var slots := Slots(kids) + ENVELOPE;
      KidsHold(sem, Slots(all), AdmittedKids(sem, all), v) <==>
      && (forall k :: k in kids ==> OpenKidHolds(sem, kids, k, v))
      && (API_VERSION !in Slots(kids) ==> KidHolds(sem, slots, ApiKid(group, version), v))
      && (KIND !in Slots(kids) ==> KidHolds(sem, slots, KindKid(kind), v))
      && (METADATA !in Slots(kids) ==> KidHolds(sem, slots, Kid(METADATA, OPEN_OBJECT), v))
      && Constrained(sem, kids, v)
  {
    var all := EnvelopeKids(kids, group, version, kind);
    var slots := Slots(kids) + ENVELOPE;
    AdmittedByMember(sem, all, v);
    ConstrainedEnvelope(sem, kids, group, version, kind, v);
    EnvelopeSlots(kids, group, version, kind);
    forall k ensures KidHolds(sem, Slots(all), k, v) <==> KidHolds(sem, slots, k, v) {
      KidByDeclared(sem, Slots(all), slots, k, v);
    }
    forall k ensures k in all <==>
      || (exists a :: a in kids && k == OpenKid(a))
      || (k == ApiKid(group, version) && API_VERSION !in Slots(kids))
      || (k == KindKid(kind) && KIND !in Slots(kids))
      || (k == Kid(METADATA, OPEN_OBJECT) && METADATA !in Slots(kids))
    {
      EnvelopeMember(kids, group, version, kind, k);
    }
    if forall k :: k in all ==> KidHolds(sem, slots, k, v) {
      forall k | k in kids ensures OpenKidHolds(sem, kids, k, v) {
        assert OpenKid(k) in all;
      }
    }
  }

  lemma SuppliedByMember(sem: Semantics, kids: seq<Kid>, group: string, version: string, kind: string, v: Value)
    requires EnvelopePresent(v)
    ensures var slots := Slots(kids) + ENVELOPE;
      SuppliedHold(kids, group, version, kind, v) <==>
      && (API_VERSION !in Slots(kids) ==> KidHolds(sem, slots, ApiKid(group, version), v))
      && (KIND !in Slots(kids) ==> KidHolds(sem, slots, KindKid(kind), v))
      && (METADATA !in Slots(kids) ==> KidHolds(sem, slots, Kid(METADATA, OPEN_OBJECT), v))
  {
    var slots := Slots(kids) + ENVELOPE;
    PropertyHolds(sem, slots, "apiVersion", OneString(group + "/" + version), v);
    PropertyHolds(sem, slots, "kind", OneString(kind), v);
    PropertyHolds(sem, slots, "metadata", OPEN_OBJECT, v);
    if v.Object? {
      OneStringMeaning(sem, group + "/" + version, v.fields["apiVersion"]);
      OneStringMeaning(sem, kind, v.fields["kind"]);
      OpenObjectMeaning(sem, v.fields["metadata"]);
    }
  }

  lemma AuthoredByMember(sem: Semantics, kids: seq<Kid>, v: Value)
    requires EnvelopePresent(v)
    ensures (forall k :: k in kids ==> OpenKidHolds(sem, kids, k, v)) && Constrained(sem, kids, v)
      <==> CustomHold(sem, kids, v) && AuthoredMetadataHolds(sem, kids, v)
  {
    forall k | k in kids && k.slot == METADATA
      ensures OpenKidHolds(sem, kids, k, v) <==> (v.Object? ==> v.fields["metadata"] in Admitted(sem, Opened(k.schema)))
    {
      PropertyHolds(sem, Slots(kids) + ENVELOPE, "metadata", Opened(k.schema), v);
    }
    forall k | k in kids && k.slot != METADATA
      ensures OpenKidHolds(sem, kids, k, v) <==> KidHolds(sem, Slots(kids) + ENVELOPE, k, v)
    {
    }
  }

  lemma EnvelopeMeaning(sem: Semantics, s: Schema, group: string, version: string, kind: string, v: Value)
    requires s.Node?
    ensures v in Admitted(sem, Envelope(s, group, version, kind))
      <==> AdmitsCustom(sem, s, v) && Enveloped(sem, s.kids, group, version, kind, v)
  {
    AdmittedNode(sem, EnvelopeKeywords(s.kw), EnvelopeKids(s.kids, group, version, kind), v);
    RequiredEnvelope(sem, s.kw, v);
    if EnvelopePresent(v) {
      EnvelopeKidsByMember(sem, s.kids, group, version, kind, v);
      SuppliedByMember(sem, s.kids, group, version, kind, v);
      AuthoredByMember(sem, s.kids, v);
    }
  }

  /**
   The generated schema accepts exactly the documents that meet the CRD's own words, that are
   resources of its group, version and kind wherever the CRD does not itself author the envelope,
   and that have no undeclared field at a closed object.
   */
  lemma GeneratedMeaning(sem: Semantics, s: Schema, group: string, version: string, kind: string, v: Value)
    requires s.Node?
    ensures v in Accepted(sem, Generated(s, group, version, kind)) <==>
      && AdmitsCustom(sem, s, v)
      && Enveloped(sem, s.kids, group, version, kind, v)
      && v in Undeclaring(sem, Envelope(s, group, version, kind))
  {
    StrictMeaning(sem, Envelope(s, group, version, kind));
    EnvelopeMeaning(sem, s, group, version, kind, v);
  }

  /** This additional-properties schema, asked of the envelope's fields that the CRD leaves undeclared. */
  ghost predicate EnvelopeAdditionalAt(sem: Semantics, kids: seq<Kid>, k: Kid, v: Value) {
    forall name :: v.Object? && name in v.fields && Property(name) in ENVELOPE && !Declared(sem, Slots(kids), name) ==>
      v.fields[name] in Admitted(sem, k.schema)
  }

  ghost predicate EnvelopeAdditional(sem: Semantics, kids: seq<Kid>, v: Value) {
    forall k :: k in kids && k.slot == Additional ==> EnvelopeAdditionalAt(sem, kids, k, v)
  }

  ghost predicate AuthoredMetadata(sem: Semantics, kids: seq<Kid>, v: Value) {
    v.Object? && "metadata" in v.fields ==>
      forall k :: k in kids && k.slot == METADATA ==> v.fields["metadata"] in Admitted(sem, k.schema)
  }

  /**
   How far completing the schema departs from the authored one: the authored schema also asks for
   its metadata unopened, and for an envelope field that it does not declare to be an additional one.
   */
  lemma AuthoredMeaning(sem: Semantics, s: Schema, v: Value)
    requires s.Node?
    ensures v in Admitted(sem, s) <==>
      && AdmitsCustom(sem, s, v)
      && (Nulled(s.kw, v) || (AuthoredMetadata(sem, s.kids, v) && EnvelopeAdditional(sem, s.kids, v)))
  {
    AdmittedNode(sem, s.kw, s.kids, v);
    AdmittedByMember(sem, s.kids, v);
    forall k | k in s.kids && k.slot == METADATA
      ensures KidHolds(sem, Slots(s.kids), k, v)
        <==> (v.Object? && "metadata" in v.fields ==> v.fields["metadata"] in Admitted(sem, k.schema))
    {
      PropertyHolds(sem, Slots(s.kids), "metadata", k.schema, v);
    }
    forall k | k in s.kids && k.slot == Additional
      ensures KidHolds(sem, Slots(s.kids), k, v) <==>
        KidHolds(sem, Slots(s.kids) + ENVELOPE, k, v) && EnvelopeAdditionalAt(sem, s.kids, k, v)
    {
      AdditionalSplits(sem, s.kids, k, v);
    }
    forall k | k in s.kids && k.slot != Additional
      ensures KidHolds(sem, Slots(s.kids), k, v) <==> KidHolds(sem, Slots(s.kids) + ENVELOPE, k, v)
    {
      OnlyAdditionalDepends(sem, Slots(s.kids), Slots(s.kids) + ENVELOPE, k, v);
    }
  }

  lemma OnlyAdditionalDepends(sem: Semantics, a: seq<Slot>, b: seq<Slot>, k: Kid, v: Value)
    requires k.slot != Additional
    ensures KidHolds(sem, a, k, v) <==> KidHolds(sem, b, k, v)
  {
    forall w ensures Applies(sem, a, k.slot, v, w) <==> Applies(sem, b, k.slot, v, w) {}
  }

  lemma DeclaredWithEnvelope(sem: Semantics, slots: seq<Slot>, name: string)
    ensures Declared(sem, slots + ENVELOPE, name) <==> Declared(sem, slots, name) || Property(name) in ENVELOPE
  {
    var all := slots + ENVELOPE;
    if Declared(sem, slots, name) {
      var i :| 0 <= i < |slots| && Declares(sem, slots[i], name);
      assert Declares(sem, all[i], name);
    }
    if Property(name) in ENVELOPE {
      var i :| 0 <= i < |ENVELOPE| && ENVELOPE[i] == Property(name);
      assert Declares(sem, all[|slots| + i], name);
    }
    if Declared(sem, all, name) {
      var i :| 0 <= i < |all| && Declares(sem, all[i], name);
      if i < |slots| {
        assert Declares(sem, slots[i], name);
      } else {
        assert ENVELOPE[i - |slots|] == Property(name);
      }
    }
  }

  lemma AdditionalSplits(sem: Semantics, kids: seq<Kid>, k: Kid, v: Value)
    requires k.slot == Additional
    ensures KidHolds(sem, Slots(kids), k, v)
      <==> KidHolds(sem, Slots(kids) + ENVELOPE, k, v) && EnvelopeAdditionalAt(sem, kids, k, v)
  {
    var slots := Slots(kids);
    forall name
      ensures Declared(sem, slots + ENVELOPE, name) <==> Declared(sem, slots, name) || Property(name) in ENVELOPE
    {
      DeclaredWithEnvelope(sem, slots, name);
    }
    if v.Object? {
      AdditionalByName(sem, slots, k, v);
      AdditionalByName(sem, slots + ENVELOPE, k, v);
    }
  }

  lemma AdditionalByName(sem: Semantics, slots: seq<Slot>, k: Kid, v: Value)
    requires k.slot == Additional && v.Object?
    ensures KidHolds(sem, slots, k, v)
      <==> forall name :: name in v.fields && !Declared(sem, slots, name) ==> v.fields[name] in Admitted(sem, k.schema)
  {
    if KidHolds(sem, slots, k, v) {
      forall name | name in v.fields && !Declared(sem, slots, name) ensures v.fields[name] in Admitted(sem, k.schema) {
        assert Applies(sem, slots, Additional, v, v.fields[name]);
      }
    }
  }

  /** With nothing said about metadata or additional properties, completing only adds the envelope. */
  lemma GeneratedPlain(sem: Semantics, s: Schema, group: string, version: string, kind: string, v: Value)
    requires s.Node? && Additional !in Slots(s.kids) && METADATA !in Slots(s.kids)
    ensures v in Accepted(sem, Generated(s, group, version, kind)) <==>
      && v in Admitted(sem, s)
      && EnvelopePresent(v) && SuppliedHold(s.kids, group, version, kind, v)
      && v in Undeclaring(sem, Envelope(s, group, version, kind))
  {
    GeneratedMeaning(sem, s, group, version, kind, v);
    AuthoredMeaning(sem, s, v);
    forall k | k in s.kids ensures k.slot != Additional && k.slot != METADATA {
      SlotOfMember(s.kids, k);
    }
  }

  // ---- the order of mappings does not matter -------------------------------------------------

  /** The rewrite gives reordered children from reordered children. */
  ghost predicate Respects(f: Kid -> Kid) {
    forall x: Kid, y: Kid :: x.slot == y.slot && Reordered(x.schema, y.schema) ==> Reordered(f(x).schema, f(y).schema)
  }

  lemma MappedReordered(f: Kid -> Kid, a: seq<Kid>, b: seq<Kid>)
    requires ReorderedKids(a, b) && Respects(f) && forall k :: f(k).slot == k.slot
    ensures ReorderedKids(MapKids(f, a), MapKids(f, b))
  {
    forall slot ensures ReorderedAt(MapKids(f, a), MapKids(f, b), slot) {
      assert ReorderedAt(a, b, slot);
      AtMapped(f, a, slot);
      AtMapped(f, b, slot);
      var x, y := At(a, slot), At(b, slot);
      forall i | 0 <= i < |x| ensures Reordered(MapKids(f, x)[i].schema, MapKids(f, y)[i].schema) {
        AtMember(a, slot, i);
        AtMember(b, slot, i);
      }
    }
  }

  lemma DefaultReordered(a: seq<Kid>, b: seq<Kid>, k: Kid)
    requires ReorderedKids(a, b)
    ensures k.slot in Slots(a) <==> k.slot in Slots(b)
    ensures ReorderedKids(a + [k], b + [k])
    ensures ReorderedKids(SetDefault(a, k.slot, k.schema), SetDefault(b, k.slot, k.schema))
  {
    assert ReorderedAt(a, b, k.slot);
    ReorderedSlots(a, b, k.slot);
    forall slot ensures ReorderedAt(a + [k], b + [k], slot) {
      assert ReorderedAt(a, b, slot);
      ReorderedAppend(a, b, k, slot);
    }
  }

  lemma OpenedReordered(m: Schema, n: Schema)
    requires Reordered(m, n)
    ensures Reordered(Opened(m), Opened(n))
  {
    if m.Node? {
      ReorderedNodes(m.kw, m.kids, n.kw, n.kids);
      DefaultReordered(m.kids, n.kids, Kid(Additional, Flag(true)));
      MappedReordered(Freed, m.kids, n.kids);
      ReorderedNodes(ObjectByDefault(m.kw), WithAnyAdditional(m.kids),
                     ObjectByDefault(n.kw), WithAnyAdditional(n.kids));
    }
  }

  lemma EnvelopeKidsReordered(a: seq<Kid>, b: seq<Kid>, group: string, version: string, kind: string)
    requires ReorderedKids(a, b)
    ensures ReorderedKids(EnvelopeKids(a, group, version, kind), EnvelopeKids(b, group, version, kind))
  {
    var api, named := ApiKid(group, version), KindKid(kind);
    var a1, b1 := SetDefault(a, API_VERSION, api.schema), SetDefault(b, API_VERSION, api.schema);
    var a2, b2 := SetDefault(a1, KIND, named.schema), SetDefault(b1, KIND, named.schema);
    DefaultReordered(a, b, api);
    DefaultReordered(a1, b1, named);
    DefaultReordered(a2, b2, Kid(METADATA, OPEN_OBJECT));
    forall x: Kid, y: Kid | x.slot == y.slot && Reordered(x.schema, y.schema)
      ensures Reordered(OpenKid(x).schema, OpenKid(y).schema)
    {
      OpenedReordered(x.schema, y.schema);
    }
    MappedReordered(OpenKid, a2, b2);
  }

  /**
   Two authored schemas that differ only in the order of mappings, and at the root in how they list
   the required names or in leaving out an empty `properties`.
   */
  ghost predicate AuthoredAlike(s: Schema, t: Schema)
    requires s.Node? && t.Node?
  {
    && SameKeywords(s.kw.(hasProperties := true, required := []), t.kw.(hasProperties := true, required := []))
    && (forall name :: name in s.kw.required <==> name in t.kw.required)
    && ReorderedKids(s.kids, t.kids)
  }

  lemma RequiredAlike(a: seq<string>, b: seq<string>)
    requires forall name :: name in a <==> name in b
    ensures SortedDistinct(a) == SortedDistinct(b)
  {
    StringLessStrictTotal();
    SortedDistinctSorted(a);
    SortedDistinctSorted(b);
    StrictlySortedUnique(StringLess, SortedDistinct(a), SortedDistinct(b));
  }

  lemma GeneratedReordered(s: Schema, t: Schema, group: string, version: string, kind: string)
    requires s.Node? && t.Node? && AuthoredAlike(s, t)
    ensures Reordered(Generated(s, group, version, kind), Generated(t, group, version, kind))
  {
    var extra := ["apiVersion", "kind", "metadata"];
    RequiredAlike(s.kw.required + extra, t.kw.required + extra);
    KeywordsAlike(s.kw, t.kw);
    EnvelopeKidsReordered(s.kids, t.kids, group, version, kind);
    ReorderedNodes(EnvelopeKeywords(s.kw), EnvelopeKids(s.kids, group, version, kind),
                   EnvelopeKeywords(t.kw), EnvelopeKids(t.kids, group, version, kind));
    StrictReordered(Envelope(s, group, version, kind), Envelope(t, group, version, kind), false);
  }

  lemma KeywordsAlike(a: Keywords, b: Keywords)
    requires SameKeywords(a.(hasProperties := true, required := []), b.(hasProperties := true, required := []))
    requires EnvelopeKeywords(a).required == EnvelopeKeywords(b).required
    ensures SameKeywords(EnvelopeKeywords(a), EnvelopeKeywords(b))
  {
  }

  /** The JSON text of two such schemas is the same. */
  lemma MappingOrderIrrelevant(s: Schema, t: Schema, group: string, version: string, kind: string)
    requires s.Node? && t.Node? && AuthoredAlike(s, t)
    ensures Canonical(Generated(s, group, version, kind)) == Canonical(Generated(t, group, version, kind))
  {
    GeneratedReordered(s, t, group, version, kind);
    CanonicalExactly(Generated(s, group, version, kind), Generated(t, group, version, kind));
  }
}
