/**
 The strict compilation of an authored schema tree: what it computes, what the compiled
 tree means, and that compiling twice changes nothing.
 */
module StrictSchema {
  import opened Wrappers
  import opened JsonSchema

  const NULL_ONLY := Node(EMPTY.(ty := OneType("null")), [])

  /** Whether the child is walked in fragment mode: below a combinator, everything is. */
  predicate InFragment(slot: Slot, inFragment: bool) {
    inFragment || !Structural(slot)
  }

  function Normalised(kw: Keywords): Keywords {
    if kw.intOrString then kw.(ty := AnyType(["integer", "string"])) else kw
  }

  /** Close an object shape that says nothing about its other fields. */
  function Closed(kw: Keywords, kids: seq<Kid>, inFragment: bool): seq<Kid> {
    if !inFragment && ClosedShape(kw, kids) then kids + [Kid(Additional, Flag(false))] else kids
  }

  /** Replace `nullable` by an explicit null alternative that `enum` still constrains. */
  function Wrapped(kw: Keywords, kids: seq<Kid>): Schema {
    var plain := kw.(nullable := None);
    if kw.nullable == Some(true) then
      Node(EMPTY.(enum := kw.enum), [Kid(AnyOf, NULL_ONLY), Kid(AnyOf, Node(plain.(enum := None), kids))])
    else
      Node(plain, kids)
  }

  function Strict(s: Schema, inFragment: bool): Schema
    decreases s
  {
    match s
    case Flag(_) => s
    case Node(kw, kids) =>
      var walked := seq(|kids|, i requires 0 <= i < |kids| =>
        Kid(kids[i].slot, Strict(kids[i].schema, InFragment(kids[i].slot, inFragment))));
      Wrapped(Normalised(kw), Closed(Normalised(kw), walked, inFragment))
  }

  function Walked(kids: seq<Kid>, inFragment: bool): (r: seq<Kid>)
    ensures |r| == |kids|
    ensures Slots(r) == Slots(kids)
  {
    seq(|kids|, i requires 0 <= i < |kids| =>
      Kid(kids[i].slot, Strict(kids[i].schema, InFragment(kids[i].slot, inFragment))))
  }

  lemma StrictNode(kw: Keywords, kids: seq<Kid>, inFragment: bool)
    ensures Strict(Node(kw, kids), inFragment)
         == Wrapped(Normalised(kw), Closed(Normalised(kw), Walked(kids, inFragment), inFragment))
  {
  }

  // ---- meaning ------------------------------------------------------------------------

  ghost function AcceptedKids(sem: Semantics, kids: seq<Kid>): (r: seq<Extent>)
    ensures |r| == |kids|
  {
    seq(|kids|, i requires 0 <= i < |kids| => Extent(kids[i].slot, Accepted(sem, kids[i].schema)))
  }

  ghost function AdmittedKids(sem: Semantics, kids: seq<Kid>): (r: seq<Extent>)
    ensures |r| == |kids|
  {
    seq(|kids|, i requires 0 <= i < |kids| => Extent(kids[i].slot, Admitted(sem, kids[i].schema)))
  }

  ghost function UndeclaringKids(sem: Semantics, kids: seq<Kid>): (r: seq<Extent>)
    ensures |r| == |kids|
  {
    seq(|kids|, i requires 0 <= i < |kids| => Extent(kids[i].slot, Undeclaring(sem, kids[i].schema)))
  }

  lemma AcceptedNode(sem: Semantics, kw: Keywords, kids: seq<Kid>, v: Value)
    ensures v in Accepted(sem, Node(kw, kids)) <==>
      && TypeOk(kw.ty, v) && EnumOk(kw.enum, v) && RestOk(sem, kw, v)
      && KidsHold(sem, Slots(kids), AcceptedKids(sem, kids), v)
  {
  }

  lemma AdmittedNode(sem: Semantics, kw: Keywords, kids: seq<Kid>, v: Value)
    ensures v in Admitted(sem, Node(kw, kids)) <==>
      && EnumOk(kw.enum, v)
      && (|| (kw.nullable == Some(true) && v.Null?)
          || (&& TypeOk(Normalised(kw).ty, v) && RestOk(sem, kw, v)
              && KidsHold(sem, Slots(kids), AdmittedKids(sem, kids), v)))
  {
    if kw.intOrString {
      IntOrString(v);
    }
  }

  lemma IntOrString(v: Value)
    ensures TypeOk(AnyType(["integer", "string"]), v) <==> HasType("integer", v) || HasType("string", v)
  {
    var names := ["integer", "string"];
    assert names[0] == "integer" && names[1] == "string";
  }

  lemma UndeclaringNode(sem: Semantics, kw: Keywords, kids: seq<Kid>, v: Value)
    ensures v in Undeclaring(sem, Node(kw, kids)) <==>
      || (kw.nullable == Some(true) && v.Null?)
      || (&& (ClosedShape(kw, kids) ==> AllDeclared(sem, Slots(kids), v))
          && StructureHolds(sem, Slots(kids), UndeclaringKids(sem, kids), v))
  {
  }

  lemma SomeOfTwo(a: Extent, b: Extent, v: Value)
    requires a.slot == AnyOf && b.slot == AnyOf
    ensures ConstraintsHold(Constraints([a, b]), v) <==> v in a.values || v in b.values
  {
    assert [a, b][..1] == [a] && [a][..0] == [];
    assert Constraints([a]) == [a];
    assert Constraints([a, b]) == [a, b];
    var kids := [a, b];
    assert HoldsAt(kids, AnyOf, v, 0) <==> v in a.values;
    assert HoldsAt(kids, AnyOf, v, 1) <==> v in b.values;
    assert kids[0] in kids && Has(kids, AnyOf);
  }

  /** Wrapping reads as: enum always, and null or everything else. */
  lemma WrappedMeaning(sem: Semantics, kw: Keywords, kids: seq<Kid>, v: Value)
    ensures v in Accepted(sem, Wrapped(kw, kids)) <==>
      && EnumOk(kw.enum, v)
      && (|| (kw.nullable == Some(true) && v.Null?)
          || (TypeOk(kw.ty, v) && RestOk(sem, kw, v) && KidsHold(sem, Slots(kids), AcceptedKids(sem, kids), v)))
  {
    var plain := kw.(nullable := None);
    if kw.nullable == Some(true) {
      var rest := Node(plain.(enum := None), kids);
      var alternatives := [Kid(AnyOf, NULL_ONLY), Kid(AnyOf, rest)];
      AcceptedNode(sem, EMPTY.(enum := kw.enum), alternatives, v);
      AcceptedNode(sem, plain.(enum := None), kids, v);
      NullOnly(sem, v);
      var extents := AcceptedKids(sem, alternatives);
      assert extents == [Extent(AnyOf, Accepted(sem, NULL_ONLY)), Extent(AnyOf, Accepted(sem, rest))];
      SomeOfTwo(extents[0], extents[1], v);
      assert Slots(alternatives) == [AnyOf, AnyOf];
      assert StructureHolds(sem, Slots(alternatives), extents, v);
    } else {
      AcceptedNode(sem, plain, kids, v);
    }
  }

  lemma NullOnly(sem: Semantics, v: Value)
    ensures v in Accepted(sem, NULL_ONLY) <==> v.Null?
  {
  }

  lemma {:induction false} ConstraintsSame(a: seq<Extent>, b: seq<Extent>)
    requires |a| == |b|
    requires forall i :: 0 <= i < |a| ==> a[i].slot == b[i].slot && (!Structural(a[i].slot) ==> a[i] == b[i])
    ensures Constraints(a) == Constraints(b)
  {
    if a != [] {
      ConstraintsSame(a[..|a| - 1], b[..|b| - 1]);
    }
  }

  /**
   In fragment mode, compilation is an equivalence: it changes how the schema is written,
   never which documents it lets through.
   */
  lemma {:induction false} FragmentMeaning(sem: Semantics, s: Schema)
    ensures Accepted(sem, Strict(s, true)) == Admitted(sem, s)
    decreases s
  {
    match s
    case Flag(_) =>
    case Node(kw, kids) =>
      var walked := Walked(kids, true);
      forall i | 0 <= i < |kids| ensures Accepted(sem, walked[i].schema) == Admitted(sem, kids[i].schema) {
        FragmentMeaning(sem, kids[i].schema);
      }
      assert AcceptedKids(sem, walked) == AdmittedKids(sem, kids);
      forall v: Value ensures v in Accepted(sem, Strict(s, true)) <==> v in Admitted(sem, s) {
        StrictNode(kw, kids, true);
        WrappedMeaning(sem, Normalised(kw), walked, v);
        AdmittedNode(sem, kw, kids, v);
      }
  }

  /** Structure distributes over "admitted and declares everything". */
  lemma StructureSplits(sem: Semantics, slots: seq<Slot>, both: seq<Extent>, a: seq<Extent>, b: seq<Extent>, v: Value)
    requires |slots| == |both| == |a| == |b|
    requires forall i :: 0 <= i < |slots| && Structural(slots[i]) ==> both[i].values == a[i].values * b[i].values
    ensures StructureHolds(sem, slots, both, v)
      <==> StructureHolds(sem, slots, a, v) && StructureHolds(sem, slots, b, v)
  {
  }

  lemma DeclaredExtended(sem: Semantics, slots: seq<Slot>, name: string)
    ensures Declared(sem, slots + [Additional], name) <==> Declared(sem, slots, name)
  {
    var longer := slots + [Additional];
    if Declared(sem, slots, name) {
      var i :| 0 <= i < |slots| && Declares(sem, slots[i], name);
      assert Declares(sem, longer[i], name);
    }
    if Declared(sem, longer, name) {
      var i :| 0 <= i < |longer| && Declares(sem, longer[i], name);
      assert Declares(sem, slots[i], name);
    }
  }

  lemma AppliesExtended(sem: Semantics, slots: seq<Slot>, slot: Slot, v: Value, w: Value)
    ensures Applies(sem, slots + [Additional], slot, v, w) <==> Applies(sem, slots, slot, v, w)
  {
    forall name ensures Declared(sem, slots + [Additional], name) <==> Declared(sem, slots, name) {
      DeclaredExtended(sem, slots, name);
    }
  }

  /** A closing child adds exactly the requirement that every field is declared. */
  lemma ClosingMeaning(sem: Semantics, kids: seq<Kid>, v: Value)
    ensures var closed := kids + [Kid(Additional, Flag(false))];
      KidsHold(sem, Slots(closed), AcceptedKids(sem, closed), v) <==>
      KidsHold(sem, Slots(kids), AcceptedKids(sem, kids), v) && AllDeclared(sem, Slots(kids), v)
  {
    var closed := kids + [Kid(Additional, Flag(false))];
    var slots, extents := Slots(kids), AcceptedKids(sem, kids);
    var closedSlots, closedExtents := Slots(closed), AcceptedKids(sem, closed);
    assert closedSlots == slots + [Additional];
    assert closedExtents == extents + [Extent(Additional, iset{})];
    assert closedExtents[..|closedExtents| - 1] == extents;
    assert Constraints(closedExtents) == Constraints(extents);
    forall slot, w ensures Applies(sem, closedSlots, slot, v, w) <==> Applies(sem, slots, slot, v, w) {
      AppliesExtended(sem, slots, slot, v, w);
    }
    if StructureHolds(sem, closedSlots, closedExtents, v) {
      forall i, w | 0 <= i < |slots| && Structural(slots[i]) && Applies(sem, slots, slots[i], v, w)
        ensures w in extents[i].values
      {
        assert closedSlots[i] == slots[i] && closedExtents[i] == extents[i];
        assert Applies(sem, closedSlots, closedSlots[i], v, w);
      }
      if v.Object? {
        forall name | name in v.fields ensures Declared(sem, slots, name) {
          assert !Applies(sem, closedSlots, closedSlots[|slots|], v, v.fields[name]);
          DeclaredExtended(sem, slots, name);
        }
      }
    }
    if StructureHolds(sem, slots, extents, v) && AllDeclared(sem, slots, v) {
      forall i, w | 0 <= i < |closedSlots| && Structural(closedSlots[i])
        && Applies(sem, closedSlots, closedSlots[i], v, w)
        ensures w in closedExtents[i].values
      {
        assert Applies(sem, slots, closedSlots[i], v, w);
        assert i < |slots|;
      }
    }
  }

  /**
   Outside a fragment, the compiled schema accepts exactly the documents that the authored
   schema admits and that have no undeclared field at any closed object outside combinators.
   */
  lemma {:induction false} StrictMeaning(sem: Semantics, s: Schema)
    ensures Accepted(sem, Strict(s, false)) == Admitted(sem, s) * Undeclaring(sem, s)
    decreases s
  {
    match s
    case Flag(_) =>
    case Node(kw, kids) =>
      var walked := Walked(kids, false);
      var accepted, admitted, undeclaring :=
        AcceptedKids(sem, walked), AdmittedKids(sem, kids), UndeclaringKids(sem, kids);
      forall i | 0 <= i < |kids|
        ensures Structural(kids[i].slot) ==> accepted[i].values == admitted[i].values * undeclaring[i].values
        ensures !Structural(kids[i].slot) ==> accepted[i] == admitted[i]
      {
        if Structural(kids[i].slot) {
          StrictMeaning(sem, kids[i].schema);
        } else {
          FragmentMeaning(sem, kids[i].schema);
        }
      }
      ConstraintsSame(accepted, admitted);
      forall v: Value ensures v in Accepted(sem, Strict(s, false)) <==> v in Admitted(sem, s) * Undeclaring(sem, s) {
        StructureSplits(sem, Slots(kids), accepted, admitted, undeclaring, v);
        StrictNodeMeaning(sem, kw, kids, v);
        AdmittedNode(sem, kw, kids, v);
        UndeclaringNode(sem, kw, kids, v);
      }
  }

  lemma StrictNodeMeaning(sem: Semantics, kw: Keywords, kids: seq<Kid>, v: Value)
    ensures v in Accepted(sem, Strict(Node(kw, kids), false)) <==>
      && EnumOk(kw.enum, v)
      && (|| (kw.nullable == Some(true) && v.Null?)
          || (&& TypeOk(Normalised(kw).ty, v) && RestOk(sem, kw, v)
              && (ClosedShape(kw, kids) ==> AllDeclared(sem, Slots(kids), v))
              && KidsHold(sem, Slots(kids), AcceptedKids(sem, Walked(kids, false)), v)))
  {
    var walked := Walked(kids, false);
    StrictNode(kw, kids, false);
    WrappedMeaning(sem, Normalised(kw), Closed(Normalised(kw), walked, false), v);
    ClosingMeaning(sem, walked, v);
    assert ClosedShape(Normalised(kw), walked) == ClosedShape(kw, kids);
  }

  /** Strict compilation never accepts a document the authored schema rejects. */
  lemma StrictOnlyStrengthens(sem: Semantics, s: Schema, v: Value)
    requires v in Accepted(sem, Strict(s, false))
    ensures v in Accepted(sem, Strict(s, true))
  {
    StrictMeaning(sem, s);
    FragmentMeaning(sem, s);
  }

  // ---- idempotence --------------------------------------------------------------------

  /** No node is nullable, and every int-or-string node already carries its final type. */
  ghost predicate Settled(s: Schema)
    decreases s
  {
    match s
    case Flag(_) => true
    case Node(kw, kids) =>
      && kw.nullable == None
      && (kw.intOrString ==> kw.ty == AnyType(["integer", "string"]))
      && forall i :: 0 <= i < |kids| ==> Settled(kids[i].schema)
  }

  /** Every object outside combinators is closed, open, or preserving by its own words. */
  ghost predicate Shut(s: Schema)
    decreases s
  {
    match s
    case Flag(_) => true
    case Node(kw, kids) =>
      && !ClosedShape(kw, kids)
      && forall i :: 0 <= i < |kids| && Structural(kids[i].slot) ==> Shut(kids[i].schema)
  }

  lemma {:induction false} StrictSettles(s: Schema, inFragment: bool)
    ensures Settled(Strict(s, inFragment))
    decreases s
  {
    match s
    case Flag(_) =>
    case Node(kw, kids) =>
      var walked := Walked(kids, inFragment);
      forall i | 0 <= i < |kids| ensures Settled(walked[i].schema) {
        StrictSettles(kids[i].schema, InFragment(kids[i].slot, inFragment));
      }
      var final := Closed(Normalised(kw), walked, inFragment);
      StrictNode(kw, kids, inFragment);
      WrappedSettled(Normalised(kw), final);
  }

  lemma WrappedSettled(kw: Keywords, kids: seq<Kid>)
    requires kw.intOrString ==> kw.ty == AnyType(["integer", "string"])
    requires forall i :: 0 <= i < |kids| ==> Settled(kids[i].schema)
    ensures Settled(Wrapped(kw, kids))
  {
  }

  lemma {:induction false} StrictShuts(s: Schema)
    ensures Shut(Strict(s, false))
    decreases s
  {
    match s
    case Flag(_) =>
    case Node(kw, kids) =>
      var walked := Walked(kids, false);
      forall i | 0 <= i < |kids| && Structural(kids[i].slot) ensures Shut(walked[i].schema) {
        StrictShuts(kids[i].schema);
      }
      var final := Closed(Normalised(kw), walked, false);
      StrictNode(kw, kids, false);
      if ClosedShape(Normalised(kw), walked) {
        assert Slots(final)[|walked|] == Additional;
      }
      assert !ClosedShape(Normalised(kw), final);
      assert forall i :: 0 <= i < |final| && Structural(final[i].slot) ==> Shut(final[i].schema);
  }

  /** A settled tree is left alone in fragment mode, and outside it when it is shut as well. */
  lemma {:induction false} SettledFixed(s: Schema, inFragment: bool)
    requires Settled(s)
    requires !inFragment ==> Shut(s)
    ensures Strict(s, inFragment) == s
    decreases s
  {
    match s
    case Flag(_) =>
    case Node(kw, kids) =>
      forall i | 0 <= i < |kids| ensures Walked(kids, inFragment)[i] == kids[i] {
        SettledFixed(kids[i].schema, InFragment(kids[i].slot, inFragment));
      }
      assert Walked(kids, inFragment) == kids;
      StrictNode(kw, kids, inFragment);
      assert Normalised(kw) == kw;
  }

  /**
   Compiling a compiled tree, at any depth and in either mode, changes nothing, although
   wrapping a nullable node moved its whole subtree into fragment position.
   */
  lemma StrictIdempotent(s: Schema, inFragment: bool)
    ensures Strict(Strict(s, inFragment), inFragment) == Strict(s, inFragment)
    ensures Strict(Strict(s, inFragment), true) == Strict(s, inFragment)
  {
    StrictSettles(s, inFragment);
    SettledFixed(Strict(s, inFragment), true);
    if !inFragment {
      StrictShuts(s);
      SettledFixed(Strict(s, false), false);
    }
  }
}
