/**
 A schema tree as the compiler writes it: JSON text with sorted keys, in which the order of a
 mapping's entries is lost and the order of a list's is kept.
 */
module CanonicalSchema {
  import opened Wrappers
  import opened Ordering
  import opened JsonSchema
  import opened StrictSchema

  // ---- a total order on slots -----------------------------------------------------------

  predicate IntLess(a: int, b: int) { a < b }

  predicate NatLe(a: nat, b: nat) { a <= b }

  function Codes(s: string): (r: seq<int>)
    ensures |r| == |s|
  {
    seq(|s|, i requires 0 <= i < |s| => s[i] as int)
  }

  /** The keyword, and the name or index of the entry in it. */
  function SlotKey(slot: Slot): seq<int> {
    match slot
    case Property(name) => [0] + Codes(name)
    case PatternProperty(pattern) => [1] + Codes(pattern)
    case Definition(name) => [2] + Codes(name)
    case DependentSchema(name) => [3] + Codes(name)
    case Items => [4]
    case TupleItem(index) => [5, index]
    case PrefixItem(index) => [6, index]
    case Additional => [7]
    case AllOf => [8]
    case AnyOf => [9]
    case OneOf => [10]
    case Not => [11]
    case If => [12]
    case Then => [13]
    case Else => [14]
    case Contains => [15]
    case PropertyNames => [16]
  }

  lemma CodesFaithful(a: string, b: string)
    ensures Codes(a) == Codes(b) ==> a == b
  {
    if Codes(a) == Codes(b) {
      forall i | 0 <= i < |a| ensures a[i] == b[i] {
        assert Codes(a)[i] == Codes(b)[i];
      }
    }
  }

  function Name(slot: Slot): string {
    match slot
    case Property(name) => name
    case PatternProperty(pattern) => pattern
    case Definition(name) => name
    case DependentSchema(name) => name
    case _ => ""
  }

  lemma SlotKeyFaithful(a: Slot, b: Slot)
    ensures SlotKey(a) == SlotKey(b) ==> a == b
  {
    if SlotKey(a) == SlotKey(b) {
      assert SlotKey(a)[0] == SlotKey(b)[0];
      assert SlotKey(a)[1..] == SlotKey(b)[1..];
      assert Name(a) != "" ==> SlotKey(a)[1..] == Codes(Name(a));
      assert Name(b) != "" ==> SlotKey(b)[1..] == Codes(Name(b));
      CodesFaithful(Name(a), Name(b));
    }
  }

  predicate SlotLess(a: Slot, b: Slot) { LexLess(IntLess, SlotKey(a), SlotKey(b)) }

  predicate KidLe(a: Kid, b: Kid) { !SlotLess(b.slot, a.slot) }

  lemma KidLeTotal()
    ensures TotalPreorder(KidLe)
    ensures forall a, b :: Equivalent(KidLe, a, b) <==> a.slot == b.slot
  {
    assert StrictTotal(IntLess);
    LexStrictTotal(IntLess);
    var lex := (a: seq<int>, b: seq<int>) => LexLess(IntLess, a, b);
    assert StrictTotal(lex);
    forall a: Slot, b: Slot ensures SlotLess(a, b) == lex(SlotKey(a), SlotKey(b)) {}
    forall a: Kid, b: Kid, c: Kid | KidLe(a, b) && KidLe(b, c) ensures KidLe(a, c) {
      var x, y, z := SlotKey(a.slot), SlotKey(b.slot), SlotKey(c.slot);
      assert x == y || lex(x, y);
      assert y == z || lex(y, z);
    }
    forall a: Kid, b: Kid ensures Equivalent(KidLe, a, b) <==> a.slot == b.slot {
      SlotKeyFaithful(a.slot, b.slot);
      assert SlotKey(a.slot) == SlotKey(b.slot) || lex(SlotKey(a.slot), SlotKey(b.slot))
        || lex(SlotKey(b.slot), SlotKey(a.slot));
    }
  }

  // ---- the canonical tree -----------------------------------------------------------------

  function CanonicalKeywords(kw: Keywords): Keywords { kw.(facets := Sort(NatLe, kw.facets)) }

  /** Every node's children sorted by where they sit; children in one list stay in order. */
  function Canonical(s: Schema): Schema
    decreases s
  {
    match s
    case Flag(_) => s
    case Node(kw, kids) =>
      Node(CanonicalKeywords(kw),
           Sort(KidLe, seq(|kids|, i requires 0 <= i < |kids| => Kid(kids[i].slot, Canonical(kids[i].schema)))))
  }

  function CanonicalKids(kids: seq<Kid>): (r: seq<Kid>)
    ensures |r| == |kids|
  {
    seq(|kids|, i requires 0 <= i < |kids| => Kid(kids[i].slot, Canonical(kids[i].schema)))
  }

  // ---- it accepts the same documents ----------------------------------------------------------

  /** The parts of a document that one child applies to belong to that child. */
  ghost predicate PartHolds(sem: Semantics, slots: seq<Slot>, e: Extent, v: Value) {
    Structural(e.slot) ==> forall w :: Applies(sem, slots, e.slot, v, w) ==> w in e.values
  }

  lemma StructureByMember(sem: Semantics, slots: seq<Slot>, kids: seq<Extent>, v: Value)
    requires |slots| == |kids| && forall i :: 0 <= i < |kids| ==> slots[i] == kids[i].slot
    ensures StructureHolds(sem, slots, kids, v) <==> forall e :: e in kids ==> PartHolds(sem, slots, e, v)
  {
    if StructureHolds(sem, slots, kids, v) {
      forall e | e in kids ensures PartHolds(sem, slots, e, v) {
        var i :| 0 <= i < |kids| && kids[i] == e;
        assert slots[i] == e.slot;
      }
    }
    if forall e :: e in kids ==> PartHolds(sem, slots, e, v) {
      forall i, w | 0 <= i < |kids| && Structural(slots[i]) && Applies(sem, slots, slots[i], v, w)
        ensures w in kids[i].values
      {
        assert PartHolds(sem, slots, kids[i], v);
      }
    }
  }

  lemma DeclaredByMember(sem: Semantics, a: seq<Slot>, b: seq<Slot>, name: string)
    requires forall slot :: slot in a ==> slot in b
    ensures Declared(sem, a, name) ==> Declared(sem, b, name)
  {
    if Declared(sem, a, name) {
      var i :| 0 <= i < |a| && Declares(sem, a[i], name);
      assert a[i] in b;
      var j :| 0 <= j < |b| && b[j] == a[i];
      assert Declares(sem, b[j], name);
    }
  }

  lemma PartByDeclared(sem: Semantics, a: seq<Slot>, b: seq<Slot>, e: Extent, v: Value)
    requires forall name :: Declared(sem, a, name) <==> Declared(sem, b, name)
    ensures PartHolds(sem, a, e, v) <==> PartHolds(sem, b, e, v)
  {
    forall w ensures Applies(sem, a, e.slot, v, w) <==> Applies(sem, b, e.slot, v, w) {}
  }

  lemma {:induction false} ConstraintsCounted(kids: seq<Extent>, e: Extent)
    ensures multiset(Constraints(kids))[e] == if Structural(e.slot) then 0 else multiset(kids)[e]
  {
    if kids != [] {
      var front, last := kids[..|kids| - 1], kids[|kids| - 1];
      ConstraintsCounted(front, e);
      assert kids == front + [last];
    }
  }

  lemma ConstraintsPermuted(a: seq<Extent>, b: seq<Extent>)
    requires multiset(a) == multiset(b)
    ensures multiset(Constraints(a)) == multiset(Constraints(b))
  {
    forall e: Extent ensures multiset(Constraints(a))[e] == multiset(Constraints(b))[e] {
      ConstraintsCounted(a, e);
      ConstraintsCounted(b, e);
    }
  }

  ghost predicate Fits(e: Extent, slot: Slot, v: Value) { e.slot == slot && v in e.values }

  /** One element fits, and it is there once. */
  ghost predicate OneFits(kids: multiset<Extent>, slot: Slot, v: Value) {
    exists e :: kids[e] == 1 && Fits(e, slot, v) && forall f :: f in kids && Fits(f, slot, v) ==> f == e
  }

  lemma Occurrences(kids: seq<Extent>, i: nat)
    requires i < |kids|
    ensures multiset(kids)[kids[i]] == 1 <==> forall j :: 0 <= j < |kids| && kids[j] == kids[i] ==> j == i
  {
    var e, before, after := kids[i], kids[..i], kids[i + 1..];
    assert kids == before + [e] + after;
    assert multiset(kids)[e] == multiset(before)[e] + 1 + multiset(after)[e];
    if e in before {
      var j :| 0 <= j < |before| && before[j] == e;
      assert kids[j] == e;
    }
    if e in after {
      var j :| 0 <= j < |after| && after[j] == e;
      assert kids[i + 1 + j] == e;
    }
    if exists j :: 0 <= j < |kids| && kids[j] == e && j != i {
      var j :| 0 <= j < |kids| && kids[j] == e && j != i;
      assert j < i ==> before[j] == e;
      assert j > i ==> after[j - i - 1] == e;
    }
  }

  lemma OneAtCounted(kids: seq<Extent>, slot: Slot, v: Value)
    ensures OneAt(kids, slot, v) <==> OneFits(multiset(kids), slot, v)
  {
    if OneAt(kids, slot, v) {
      var i :| HoldsAt(kids, slot, v, i) && forall j :: HoldsAt(kids, slot, v, j) ==> j == i;
      forall j | 0 <= j < |kids| && Fits(kids[j], slot, v) ensures j == i {
        assert HoldsAt(kids, slot, v, j);
      }
      Occurrences(kids, i);
      assert Fits(kids[i], slot, v) && multiset(kids)[kids[i]] == 1;
      forall f | f in multiset(kids) && Fits(f, slot, v) ensures f == kids[i] {
        var j :| 0 <= j < |kids| && kids[j] == f;
      }
    }
    if OneFits(multiset(kids), slot, v) {
      var e :| multiset(kids)[e] == 1 && Fits(e, slot, v)
        && forall f :: f in multiset(kids) && Fits(f, slot, v) ==> f == e;
      assert e in multiset(kids);
      var i :| 0 <= i < |kids| && kids[i] == e;
      Occurrences(kids, i);
      forall j | HoldsAt(kids, slot, v, j) ensures j == i {
        assert kids[j] in multiset(kids);
      }
      assert HoldsAt(kids, slot, v, i);
    }
  }

  lemma SomeAtByMember(kids: seq<Extent>, slot: Slot, v: Value)
    ensures SomeAt(kids, slot, v) <==> exists e :: e in multiset(kids) && Fits(e, slot, v)
  {
    if SomeAt(kids, slot, v) {
      var i :| HoldsAt(kids, slot, v, i);
      assert kids[i] in multiset(kids) && Fits(kids[i], slot, v);
    }
    if e :| e in multiset(kids) && Fits(e, slot, v) {
      var i :| 0 <= i < |kids| && kids[i] == e;
      assert HoldsAt(kids, slot, v, i);
    }
  }

  lemma ConstraintsHoldPermuted(a: seq<Extent>, b: seq<Extent>, v: Value)
    requires multiset(a) == multiset(b)
    ensures ConstraintsHold(a, v) <==> ConstraintsHold(b, v)
  {
    forall e: Extent ensures e in a <==> e in b {
      assert e in a <==> e in multiset(a);
      assert e in b <==> e in multiset(b);
    }
    SomeAtByMember(a, AnyOf, v);
    SomeAtByMember(b, AnyOf, v);
    OneAtCounted(a, OneOf, v);
    OneAtCounted(b, OneOf, v);
    forall slot ensures Has(a, slot) <==> Has(b, slot) {}
    forall slot ensures AllAt(a, slot, v) <==> AllAt(b, slot, v) {}
  }

  /** What a node's children ask of a document does not depend on the order in which they are listed. */
  lemma KidsPermuted(sem: Semantics, a: seq<Kid>, b: seq<Kid>, x: seq<Extent>, y: seq<Extent>, v: Value)
    requires |a| == |x| && forall i :: 0 <= i < |a| ==> a[i].slot == x[i].slot
    requires |b| == |y| && forall i :: 0 <= i < |b| ==> b[i].slot == y[i].slot
    requires multiset(a) == multiset(b) && multiset(x) == multiset(y)
    ensures KidsHold(sem, Slots(a), x, v) <==> KidsHold(sem, Slots(b), y, v)
  {
    ConstraintsPermuted(x, y);
    ConstraintsHoldPermuted(Constraints(x), Constraints(y), v);
    StructureByMember(sem, Slots(a), x, v);
    StructureByMember(sem, Slots(b), y, v);
    SlotsPermuted(a, b);
    SlotsPermuted(b, a);
    forall name ensures Declared(sem, Slots(a), name) <==> Declared(sem, Slots(b), name) {
      DeclaredByMember(sem, Slots(a), Slots(b), name);
      DeclaredByMember(sem, Slots(b), Slots(a), name);
    }
    forall e: Extent ensures e in x <==> e in y {
      assert e in x <==> e in multiset(x);
      assert e in y <==> e in multiset(y);
    }
    forall e: Extent ensures PartHolds(sem, Slots(a), e, v) <==> PartHolds(sem, Slots(b), e, v) {
      PartByDeclared(sem, Slots(a), Slots(b), e, v);
    }
  }

  lemma SlotsPermuted(a: seq<Kid>, b: seq<Kid>)
    requires multiset(a) == multiset(b)
    ensures forall slot :: slot in Slots(a) ==> slot in Slots(b)
  {
    forall slot | slot in Slots(a) ensures slot in Slots(b) {
      var i :| 0 <= i < |a| && Slots(a)[i] == slot;
      assert a[i] in multiset(b);
      var j :| 0 <= j < |b| && b[j] == a[i];
      assert Slots(b)[j] == slot;
    }
  }

  lemma {:induction false} AcceptedKidsPermuted(sem: Semantics, a: seq<Kid>, b: seq<Kid>)
    requires multiset(a) == multiset(b)
    ensures multiset(AcceptedKids(sem, a)) == multiset(AcceptedKids(sem, b))
    decreases |a|
  {
    assert |a| == |multiset(a)| == |multiset(b)| == |b|;
    if a != [] {
      assert a[0] in multiset(b);
      var j :| 0 <= j < |b| && b[j] == a[0];
      var a', b' := a[..0] + a[1..], b[..j] + b[j + 1..];
      RemoveSame(a, b, 0, j);
      AcceptedKidsPermuted(sem, a', b');
      KidRemoved(sem, a, 0);
      KidRemoved(sem, b, j);
      assert AcceptedKids(sem, a)[0] == AcceptedKids(sem, b)[j];
    }
  }

  lemma KidRemoved(sem: Semantics, kids: seq<Kid>, j: nat)
    requires j < |kids|
    ensures multiset(AcceptedKids(sem, kids))
         == multiset(AcceptedKids(sem, kids[..j] + kids[j + 1..])) + multiset{AcceptedKids(sem, kids)[j]}
  {
    var all := AcceptedKids(sem, kids);
    Remove(all, j);
    assert AcceptedKids(sem, kids[..j] + kids[j + 1..]) == all[..j] + all[j + 1..];
  }

  lemma RestPermuted(sem: Semantics, kw: Keywords, v: Value)
    ensures RestOk(sem, CanonicalKeywords(kw), v) <==> RestOk(sem, kw, v)
  {
    forall f: nat ensures f in Sort(NatLe, kw.facets) <==> f in kw.facets {
      SortMembers(NatLe, kw.facets, f);
    }
    FacetsByMember(sem, kw.facets, v);
    FacetsByMember(sem, Sort(NatLe, kw.facets), v);
  }

  lemma FacetsByMember(sem: Semantics, facets: seq<Facet>, v: Value)
    ensures (forall i :: 0 <= i < |facets| ==> sem.facet(facets[i], v)) <==> forall f :: f in facets ==> sem.facet(f, v)
  {
    forall i | 0 <= i < |facets| ensures facets[i] in facets {}
  }

  /** Writing a schema with sorted keys changes nothing about the documents it accepts. */
  lemma {:induction false} CanonicalAccepts(sem: Semantics, s: Schema)
    ensures Accepted(sem, Canonical(s)) == Accepted(sem, s)
    decreases s
  {
    match s
    case Flag(_) =>
    case Node(kw, kids) =>
      var named := CanonicalKids(kids);
      var sorted := Sort(KidLe, named);
      forall i | 0 <= i < |kids| ensures Accepted(sem, named[i].schema) == Accepted(sem, kids[i].schema) {
        CanonicalAccepts(sem, kids[i].schema);
      }
      assert AcceptedKids(sem, named) == AcceptedKids(sem, kids);
      assert Slots(named) == Slots(kids);
      AcceptedKidsPermuted(sem, sorted, named);
      forall v: Value ensures v in Accepted(sem, Canonical(s)) <==> v in Accepted(sem, s) {
        AcceptedNode(sem, CanonicalKeywords(kw), sorted, v);
        AcceptedNode(sem, kw, kids, v);
        RestPermuted(sem, kw, v);
        KidsPermuted(sem, sorted, named, AcceptedKids(sem, sorted), AcceptedKids(sem, named), v);
      }
  }

  // ---- and says exactly what the tree says up to the order of mappings -------------------------

  /** The children at one place, in order: one child for a mapping's entry, several for a list. */
  function At(kids: seq<Kid>, slot: Slot): seq<Kid> {
    if kids == [] then []
    else if kids[0].slot == slot then [kids[0]] + At(kids[1..], slot)
    else At(kids[1..], slot)
  }

  lemma {:induction false} AtMember(kids: seq<Kid>, slot: Slot, i: nat)
    requires i < |At(kids, slot)|
    ensures At(kids, slot)[i] in kids && At(kids, slot)[i].slot == slot
  {
    if kids[0].slot != slot {
      AtMember(kids[1..], slot, i);
    } else if i > 0 {
      AtMember(kids[1..], slot, i - 1);
    }
  }

  lemma {:induction false} AtEmpty(kids: seq<Kid>, slot: Slot)
    ensures At(kids, slot) == [] <==> slot !in Slots(kids)
  {
    if kids != [] {
      AtEmpty(kids[1..], slot);
      assert Slots(kids) == [kids[0].slot] + Slots(kids[1..]);
    }
  }

  ghost predicate SameKeywords(a: Keywords, b: Keywords) {
    a.(facets := []) == b.(facets := []) && multiset(a.facets) == multiset(b.facets)
  }

  /** The same keywords, and the same children at every place, whatever the order of the places. */
  ghost predicate Reordered(s: Schema, t: Schema)
    decreases s
  {
    match (s, t)
    case (Flag(a), Flag(b)) => a == b
    case (Node(kw, kids), Node(kw', kids')) =>
      && SameKeywords(kw, kw')
      && forall slot :: |At(kids, slot)| == |At(kids', slot)|
           && forall i :: 0 <= i < |At(kids, slot)| ==>
             (AtMember(kids, slot, i); Reordered(At(kids, slot)[i].schema, At(kids', slot)[i].schema))
    case _ => false
  }

  ghost predicate AllReordered(a: seq<Kid>, b: seq<Kid>) {
    |a| == |b| && forall i :: 0 <= i < |a| ==> Reordered(a[i].schema, b[i].schema)
  }

  ghost predicate ReorderedAt(a: seq<Kid>, b: seq<Kid>, slot: Slot) { AllReordered(At(a, slot), At(b, slot)) }

  ghost predicate ReorderedKids(a: seq<Kid>, b: seq<Kid>) { forall slot :: ReorderedAt(a, b, slot) }

  lemma ReorderedNodes(kw: Keywords, kids: seq<Kid>, kw': Keywords, kids': seq<Kid>)
    ensures Reordered(Node(kw, kids), Node(kw', kids')) <==> SameKeywords(kw, kw') && ReorderedKids(kids, kids')
  {
    if Reordered(Node(kw, kids), Node(kw', kids')) {
      forall slot ensures ReorderedAt(kids, kids', slot) {}
    }
    if SameKeywords(kw, kw') && ReorderedKids(kids, kids') {
      forall slot ensures |At(kids, slot)| == |At(kids', slot)| {
        assert ReorderedAt(kids, kids', slot);
      }
      forall slot, i | 0 <= i < |At(kids, slot)|
        ensures Reordered(At(kids, slot)[i].schema, At(kids', slot)[i].schema)
      {
        assert ReorderedAt(kids, kids', slot);
      }
    }
  }

  lemma {:induction false} AtConcat(a: seq<Kid>, b: seq<Kid>, slot: Slot)
    ensures At(a + b, slot) == At(a, slot) + At(b, slot)
  {
    if a == [] {
      assert a + b == b;
    } else {
      AtConcat(a[1..], b, slot);
      assert (a + b)[1..] == a[1..] + b;
    }
  }

  lemma AtOne(k: Kid, slot: Slot)
    ensures At([k], slot) == if k.slot == slot then [k] else []
  {
    assert [k][1..] == [];
  }

  lemma {:induction false} AtClass(kids: seq<Kid>, k: Kid)
    ensures Class(KidLe, k, kids) == At(kids, k.slot)
  {
    KidLeTotal();
    if kids != [] {
      AtClass(kids[1..], k);
    }
  }

  function MapKids(f: Kid -> Kid, kids: seq<Kid>): (r: seq<Kid>)
    ensures |r| == |kids|
  {
    seq(|kids|, i requires 0 <= i < |kids| => f(kids[i]))
  }

  /** Rewriting every child where it stands rewrites the children at every place. */
  lemma {:induction false} AtMapped(f: Kid -> Kid, kids: seq<Kid>, slot: Slot)
    requires forall k :: f(k).slot == k.slot
    ensures At(MapKids(f, kids), slot) == MapKids(f, At(kids, slot))
  {
    if kids != [] {
      var k, rest := kids[0], kids[1..];
      AtMapped(f, rest, slot);
      assert MapKids(f, kids) == [f(k)] + MapKids(f, rest);
      AtConcat([f(k)], MapKids(f, rest), slot);
      AtOne(f(k), slot);
      assert MapKids(f, [k] + At(rest, slot)) == [f(k)] + MapKids(f, At(rest, slot));
    }
  }

  lemma AtCanonical(kids: seq<Kid>, slot: Slot)
    ensures At(CanonicalKids(kids), slot) == CanonicalKids(At(kids, slot))
  {
    var f := (k: Kid) => Kid(k.slot, Canonical(k.schema));
    AtMapped(f, kids, slot);
    assert MapKids(f, kids) == CanonicalKids(kids);
    assert MapKids(f, At(kids, slot)) == CanonicalKids(At(kids, slot));
  }

  lemma AtSorted(kids: seq<Kid>, slot: Slot)
    ensures At(Sort(KidLe, kids), slot) == At(kids, slot)
  {
    var k := Kid(slot, Flag(true));
    KidLeTotal();
    SortStable(KidLe, k, kids);
    AtClass(kids, k);
    AtClass(Sort(KidLe, kids), k);
  }

  ghost predicate SameAt(a: seq<Kid>, b: seq<Kid>, slot: Slot) { At(a, slot) == At(b, slot) }

  /** Sorted children are the same exactly when the children at every place are the same. */
  lemma SortedKidsSame(a: seq<Kid>, b: seq<Kid>)
    ensures Sort(KidLe, a) == Sort(KidLe, b) <==> forall slot :: SameAt(a, b, slot)
  {
    var x, y := Sort(KidLe, a), Sort(KidLe, b);
    forall slot ensures SameAt(x, y, slot) <==> SameAt(a, b, slot) {
      AtSorted(a, slot);
      AtSorted(b, slot);
    }
    if forall slot :: SameAt(a, b, slot) {
      SortedKidsDetermined(x, y, a, b);
    }
  }

  lemma SortedKidsDetermined(x: seq<Kid>, y: seq<Kid>, a: seq<Kid>, b: seq<Kid>)
    requires x == Sort(KidLe, a) && y == Sort(KidLe, b)
    requires forall slot :: SameAt(x, y, slot)
    ensures x == y
  {
    KidLeTotal();
    forall k: Kid ensures Class(KidLe, k, x) == Class(KidLe, k, y) {
      AtClass(x, k);
      AtClass(y, k);
      assert SameAt(x, y, k.slot);
    }
    SortSorted(KidLe, a);
    SortSorted(KidLe, b);
    SortedDetermined(KidLe, x, y);
  }

  lemma {:induction false} NatClass(xs: seq<nat>, x: nat)
    ensures |Class(NatLe, x, xs)| == multiset(xs)[x]
    ensures forall i :: 0 <= i < |Class(NatLe, x, xs)| ==> Class(NatLe, x, xs)[i] == x
  {
    if xs != [] {
      NatClass(xs[1..], x);
      assert xs == [xs[0]] + xs[1..];
    }
  }

  lemma SortedFacetsSame(a: seq<nat>, b: seq<nat>)
    ensures Sort(NatLe, a) == Sort(NatLe, b) <==> multiset(a) == multiset(b)
  {
    if multiset(a) == multiset(b) {
      SortSorted(NatLe, a);
      SortSorted(NatLe, b);
      forall x: nat ensures Class(NatLe, x, Sort(NatLe, a)) == Class(NatLe, x, Sort(NatLe, b)) {
        NatClass(Sort(NatLe, a), x);
        NatClass(Sort(NatLe, b), x);
      }
      SortedDetermined(NatLe, Sort(NatLe, a), Sort(NatLe, b));
    }
  }

  lemma SameCanonicalKeywords(a: Keywords, b: Keywords)
    ensures CanonicalKeywords(a) == CanonicalKeywords(b) <==> SameKeywords(a, b)
  {
    SortedFacetsSame(a.facets, b.facets);
    assert CanonicalKeywords(a).(facets := []) == a.(facets := []);
    assert CanonicalKeywords(b).(facets := []) == b.(facets := []);
    assert CanonicalKeywords(a) == a.(facets := []).(facets := Sort(NatLe, a.facets));
    assert CanonicalKeywords(b) == b.(facets := []).(facets := Sort(NatLe, b.facets));
  }

  ghost predicate SameText(s: Schema, t: Schema) { Canonical(s) == Canonical(t) <==> Reordered(s, t) }

  ghost predicate SameTextAt(a: seq<Kid>, b: seq<Kid>, slot: Slot) {
    SameAt(CanonicalKids(a), CanonicalKids(b), slot) <==> ReorderedAt(a, b, slot)
  }

  /** Two schemas are written alike exactly when they differ at most in the order of mappings. */
  lemma {:induction false} CanonicalExactly(s: Schema, t: Schema)
    ensures Canonical(s) == Canonical(t) <==> Reordered(s, t)
    decreases s
  {
    if s.Node? && t.Node? {
      forall slot ensures SameTextAt(s.kids, t.kids, slot) {
        var a, b := At(s.kids, slot), At(t.kids, slot);
        forall i | 0 <= i < |a| && i < |b| ensures SameText(a[i].schema, b[i].schema) {
          AtMember(s.kids, slot, i);
          CanonicalExactly(a[i].schema, b[i].schema);
        }
        SamePlace(s.kids, t.kids, slot);
      }
      SameNode(s.kw, s.kids, t.kw, t.kids);
    }
  }

  lemma SamePlace(kids: seq<Kid>, kids': seq<Kid>, slot: Slot)
    requires forall i :: 0 <= i < |At(kids, slot)| && i < |At(kids', slot)| ==>
      SameText(At(kids, slot)[i].schema, At(kids', slot)[i].schema)
    ensures SameTextAt(kids, kids', slot)
  {
    var a, b := At(kids, slot), At(kids', slot);
    AtCanonical(kids, slot);
    AtCanonical(kids', slot);
    if CanonicalKids(a) == CanonicalKids(b) {
      forall i | 0 <= i < |a| ensures Reordered(a[i].schema, b[i].schema) {
        assert CanonicalKids(a)[i] == CanonicalKids(b)[i];
        assert SameText(a[i].schema, b[i].schema);
      }
    }
    if AllReordered(a, b) {
      forall i | 0 <= i < |a| ensures CanonicalKids(a)[i] == CanonicalKids(b)[i] {
        AtMember(kids, slot, i);
        AtMember(kids', slot, i);
        assert SameText(a[i].schema, b[i].schema);
      }
    }
  }

  lemma SamePlaces(a: seq<Kid>, b: seq<Kid>)
    requires forall slot :: SameTextAt(a, b, slot)
    ensures Sort(KidLe, CanonicalKids(a)) == Sort(KidLe, CanonicalKids(b)) <==> ReorderedKids(a, b)
  {
    SortedKidsSame(CanonicalKids(a), CanonicalKids(b));
    if forall slot :: SameAt(CanonicalKids(a), CanonicalKids(b), slot) {
      forall slot ensures ReorderedAt(a, b, slot) {
        assert SameTextAt(a, b, slot);
      }
    }
    if ReorderedKids(a, b) {
      forall slot ensures SameAt(CanonicalKids(a), CanonicalKids(b), slot) {
        assert SameTextAt(a, b, slot);
      }
    }
  }

  lemma CanonicalNode(kw: Keywords, kids: seq<Kid>)
    ensures Canonical(Node(kw, kids)) == Node(CanonicalKeywords(kw), Sort(KidLe, CanonicalKids(kids)))
  {
  }

  lemma SameNode(kw: Keywords, kids: seq<Kid>, kw': Keywords, kids': seq<Kid>)
    requires forall slot :: SameTextAt(kids, kids', slot)
    ensures SameText(Node(kw, kids), Node(kw', kids'))
  {
    SameCanonicalKeywords(kw, kw');
    SamePlaces(kids, kids');
    ReorderedNodes(kw, kids, kw', kids');
    CanonicalNode(kw, kids);
    CanonicalNode(kw', kids');
  }

  // ---- compiling respects it --------------------------------------------------------------------

  lemma AtWalked(kids: seq<Kid>, slot: Slot, inFragment: bool)
    ensures At(Walked(kids, inFragment), slot) == Walked(At(kids, slot), inFragment)
  {
    var f := (k: Kid) => Kid(k.slot, Strict(k.schema, InFragment(k.slot, inFragment)));
    AtMapped(f, kids, slot);
    assert MapKids(f, kids) == Walked(kids, inFragment);
    assert MapKids(f, At(kids, slot)) == Walked(At(kids, slot), inFragment);
  }

  lemma ReorderedSelf(s: Schema)
    ensures Reordered(s, s)
  {
    CanonicalExactly(s, s);
  }

  lemma ReorderedSlots(a: seq<Kid>, b: seq<Kid>, slot: Slot)
    requires ReorderedAt(a, b, slot)
    ensures slot in Slots(a) <==> slot in Slots(b)
  {
    AtEmpty(a, slot);
    AtEmpty(b, slot);
  }

  lemma ReorderedAppend(a: seq<Kid>, b: seq<Kid>, k: Kid, slot: Slot)
    requires ReorderedAt(a, b, slot)
    ensures ReorderedAt(a + [k], b + [k], slot)
  {
    AtConcat(a, [k], slot);
    AtConcat(b, [k], slot);
    AtOne(k, slot);
    ReorderedSelf(k.schema);
  }

  ghost predicate StrictAlike(a: Kid, b: Kid, inFragment: bool) {
    a.slot == b.slot
    && Reordered(Strict(a.schema, InFragment(a.slot, inFragment)), Strict(b.schema, InFragment(b.slot, inFragment)))
  }

  lemma WalkedReordered(a: seq<Kid>, b: seq<Kid>, inFragment: bool, slot: Slot)
    requires |At(a, slot)| == |At(b, slot)|
    requires forall i :: 0 <= i < |At(a, slot)| ==> StrictAlike(At(a, slot)[i], At(b, slot)[i], inFragment)
    ensures ReorderedAt(Walked(a, inFragment), Walked(b, inFragment), slot)
  {
    AtWalked(a, slot, inFragment);
    AtWalked(b, slot, inFragment);
    var x, y := At(a, slot), At(b, slot);
    forall i | 0 <= i < |x| ensures Reordered(Walked(x, inFragment)[i].schema, Walked(y, inFragment)[i].schema) {
      assert StrictAlike(x[i], y[i], inFragment);
    }
  }

  lemma ClosedReordered(kw: Keywords, kw': Keywords, a: seq<Kid>, b: seq<Kid>, inFragment: bool, slot: Slot)
    requires SameKeywords(kw, kw') && ReorderedAt(a, b, slot) && ReorderedAt(a, b, Additional)
    ensures ReorderedAt(Closed(kw, a, inFragment), Closed(kw', b, inFragment), slot)
  {
    ReorderedSlots(a, b, Additional);
    assert ClosedShape(kw, a) == ClosedShape(kw', b);
    ReorderedAppend(a, b, Kid(Additional, Flag(false)), slot);
  }

  lemma PairReordered(a: Kid, b: Kid, a': Kid, b': Kid)
    requires a.slot == a'.slot && Reordered(a.schema, a'.schema)
    requires b.slot == b'.slot && Reordered(b.schema, b'.schema)
    ensures ReorderedKids([a, b], [a', b'])
  {
    assert [a, b] == [a] + [b] && [a', b'] == [a'] + [b'];
    forall slot ensures ReorderedAt([a, b], [a', b'], slot) {
      AtConcat([a], [b], slot);
      AtConcat([a'], [b'], slot);
      AtOne(a, slot);
      AtOne(b, slot);
      AtOne(a', slot);
      AtOne(b', slot);
    }
  }

  lemma WrappedReordered(kw: Keywords, kw': Keywords, a: seq<Kid>, b: seq<Kid>)
    requires SameKeywords(kw, kw') && ReorderedKids(a, b)
    ensures Reordered(Wrapped(kw, a), Wrapped(kw', b))
  {
    var plain, plain' := kw.(nullable := None), kw'.(nullable := None);
    if kw.nullable == Some(true) {
      var rest, rest' := Node(plain.(enum := None), a), Node(plain'.(enum := None), b);
      ReorderedNodes(plain.(enum := None), a, plain'.(enum := None), b);
      ReorderedSelf(NULL_ONLY);
      PairReordered(Kid(AnyOf, NULL_ONLY), Kid(AnyOf, rest), Kid(AnyOf, NULL_ONLY), Kid(AnyOf, rest'));
      ReorderedNodes(EMPTY.(enum := kw.enum), [Kid(AnyOf, NULL_ONLY), Kid(AnyOf, rest)],
                     EMPTY.(enum := kw'.enum), [Kid(AnyOf, NULL_ONLY), Kid(AnyOf, rest')]);
    } else {
      ReorderedNodes(plain, a, plain', b);
    }
  }

  /** Schemas that differ only in the order of mappings are compiled to schemas that do. */
  lemma {:induction false} StrictReordered(s: Schema, t: Schema, inFragment: bool)
    requires Reordered(s, t)
    ensures Reordered(Strict(s, inFragment), Strict(t, inFragment))
    decreases s
  {
    if s.Node? {
      ReorderedNodes(s.kw, s.kids, t.kw, t.kids);
      var a, b := Walked(s.kids, inFragment), Walked(t.kids, inFragment);
      forall slot ensures ReorderedAt(a, b, slot) {
        assert ReorderedAt(s.kids, t.kids, slot);
        forall i | 0 <= i < |At(s.kids, slot)|
          ensures StrictAlike(At(s.kids, slot)[i], At(t.kids, slot)[i], inFragment)
        {
          AtMember(s.kids, slot, i);
          AtMember(t.kids, slot, i);
          StrictReordered(At(s.kids, slot)[i].schema, At(t.kids, slot)[i].schema, InFragment(slot, inFragment));
        }
        WalkedReordered(s.kids, t.kids, inFragment, slot);
      }
      var kw, kw' := Normalised(s.kw), Normalised(t.kw);
      forall slot ensures ReorderedAt(Closed(kw, a, inFragment), Closed(kw', b, inFragment), slot) {
        ClosedReordered(kw, kw', a, b, inFragment, slot);
      }
      WrappedReordered(kw, kw', Closed(kw, a, inFragment), Closed(kw', b, inFragment));
      StrictNode(s.kw, s.kids, inFragment);
      StrictNode(t.kw, t.kids, inFragment);
    }
  }
}
