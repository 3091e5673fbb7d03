/** The compiler's own form: a tree of mutable nodes, rewritten in place. */
module SchemaNodes {
  import opened Wrappers
  import opened JsonSchema
  import opened StrictSchema

  /** A child value: a JSON boolean, or a mapping that the walk rewrites. */
  datatype Child = FlagChild(accepts: bool) | NodeChild(node: SchemaNode)

  datatype Attached = Attached(slot: Slot, child: Child)

  /** The nodes below and including a child. */
  ghost function Footprint(c: Child): set<SchemaNode>
    reads if c.NodeChild? then {c.node} else {}
  {
    if c.NodeChild? then c.node.repr else {}
  }

  ghost predicate ChildOk(c: Child)
    reads if c.NodeChild? then {c.node} + c.node.repr else {}
    decreases Footprint(c), 1
  {
    c.NodeChild? ==> c.node in c.node.repr && c.node.Valid()
  }

  /** The schema tree below a child. */
  ghost function ChildTree(c: Child): Schema
    requires ChildOk(c)
    reads if c.NodeChild? then {c.node} + c.node.repr else {}
    decreases Footprint(c), 1
  {
    match c
    case FlagChild(b) => Flag(b)
    case NodeChild(n) => n.Tree()
  }

  method WalkChild(c: Child, inFragment: bool)
    requires ChildOk(c)
    modifies Footprint(c)
    ensures ChildOk(c) && fresh(Footprint(c) - old(Footprint(c)))
    ensures ChildTree(c) == Strict(old(ChildTree(c)), inFragment)
    decreases Footprint(c), 3
  {
    if c.NodeChild? {
      c.node.Walk(inFragment);
    }
  }

  class SchemaNode {
    var kw: Keywords
    var entries: seq<Attached>
    ghost var repr: set<SchemaNode>

    /** The node is the root of a tree: no node is shared and none reaches itself. */
    ghost predicate Valid()
      reads this, repr
      decreases repr, 0
    {
      && this in repr
      && (forall i :: 0 <= i < |entries| && entries[i].child.NodeChild? ==> entries[i].child.node in repr)
      && (forall i :: 0 <= i < |entries| ==> Footprint(entries[i].child) <= repr - {this} && ChildOk(entries[i].child))
      && (forall i, j :: 0 <= i < j < |entries| ==> Footprint(entries[i].child) !! Footprint(entries[j].child))
    }

    /** The schema tree this node is the root of. */
    ghost function Tree(): Schema
      requires Valid()
      reads this, repr
      decreases repr, 0
    {
      Node(kw, seq(|entries|, i requires 0 <= i < |entries| && Valid() reads this, repr =>
        Kid(entries[i].slot, ChildTree(entries[i].child))))
    }

    constructor (kw: Keywords)
      ensures Valid() && repr == {this} && this.kw == kw && entries == []
      ensures Tree() == Node(kw, [])
    {
      this.kw := kw;
      entries := [];
      repr := {this};
    }

    /**
     The in-place rewrite. Children are walked first; then the node is closed if it lists an
     object's fields; last, a nullable node moves everything but its enum into a new node.
     */
    method Walk(inFragment: bool)
      requires Valid()
      modifies repr
      ensures Valid() && fresh(repr - old(repr))
      ensures Tree() == Strict(old(Tree()), inFragment)
      decreases repr, 2
    {
      ghost var before := Tree();
      if kw.intOrString {
        kw := kw.(ty := AnyType(["integer", "string"]));
      }
      WalkEntries(inFragment, before.kids);
      var slots := seq(|entries|, i requires 0 <= i < |entries| reads this => entries[i].slot);
      assert slots == Slots(before.kids);
      if !inFragment && ((!kw.intOrString && kw.ty == OneType("object")) || kw.hasProperties)
         && !kw.preserveUnknown && Additional !in slots
      {
        Close();
      }
      StrictNode(before.kw, before.kids, inFragment);
      Unwrap();
    }

    /** Walk every child in place; the node's own keywords and slots stay as they are. */
    method WalkEntries(inFragment: bool, ghost before: seq<Kid>)
      requires Valid() && before == Tree().kids
      modifies repr
      ensures Valid() && fresh(repr - old(repr))
      ensures kw == old(kw) && entries == old(entries)
      ensures Tree() == Node(kw, Walked(before, inFragment))
      decreases repr, 1
    {
      var i := 0;
      while i < |entries|
        invariant 0 <= i <= |entries|
        invariant kw == old(kw) && entries == old(entries)
        invariant Valid() && fresh(repr - old(repr))
        invariant forall j :: i <= j < |entries| ==>
          Footprint(entries[j].child) < old(repr) && ChildTree(entries[j].child) == before[j].schema
        invariant forall j :: 0 <= j < i ==>
          ChildTree(entries[j].child) == Strict(before[j].schema, InFragment(entries[j].slot, inFragment))
      {
        WalkEntry(i, inFragment);
        i := i + 1;
      }
      assert Tree().kids == Walked(before, inFragment);
    }

    /** Walk one child; its siblings are untouched because their nodes are their own. */
    method WalkEntry(i: nat, inFragment: bool)
      requires Valid() && i < |entries|
      modifies Footprint(entries[i].child), this`repr
      ensures Valid() && fresh(repr - old(repr))
      ensures ChildTree(entries[i].child)
        == Strict(old(ChildTree(entries[i].child)), InFragment(entries[i].slot, inFragment))
      ensures forall j :: 0 <= j < |entries| && j != i ==>
        && Footprint(entries[j].child) == old(Footprint(entries[j].child))
        && ChildTree(entries[j].child) == old(ChildTree(entries[j].child))
      decreases Footprint(entries[i].child), 4
    {
      var child := entries[i].child;
      assert forall j :: 0 <= j < |entries| && j != i ==> Footprint(entries[j].child) !! Footprint(child);
      WalkChild(child, InFragment(entries[i].slot, inFragment));
      repr := repr + Footprint(child);
    }

    method Close()
      requires Valid()
      modifies this`entries
      ensures Valid()
      ensures Tree() == Node(kw, old(Tree()).kids + [Kid(Additional, Flag(false))])
    {
      ghost var before := Tree().kids;
      entries := entries + [Attached(Additional, FlagChild(false))];
      assert forall i :: 0 <= i < |before| ==> Tree().kids[i] == before[i];
      assert ChildTree(entries[|before|].child) == Flag(false);
      assert Tree().kids == before + [Kid(Additional, Flag(false))];
    }

    /** Drop `nullable`; if it was true, make null an explicit alternative. */
    method Unwrap()
      requires Valid()
      modifies this
      ensures Valid() && fresh(repr - old(repr))
      ensures Tree() == Wrapped(old(kw), old(Tree()).kids)
    {
      var nullable := kw.nullable;
      Replace(kw.(nullable := None));
      if nullable == Some(true) {
        OfferNull();
      }
    }

    method Replace(kw: Keywords)
      requires Valid()
      modifies this`kw
      ensures Valid() && Tree() == Node(kw, old(Tree()).kids)
    {
      ghost var kids := Tree().kids;
      this.kw := kw;
      assert Tree().kids == kids;
    }

    /** Move everything but the enum into a new node, beside one that accepts only null. */
    method OfferNull()
      requires Valid()
      modifies this
      ensures Valid() && fresh(repr - old(repr))
      ensures Tree() == Node(EMPTY.(enum := old(kw.enum)),
        [Kid(AnyOf, NULL_ONLY), Kid(AnyOf, Node(old(kw).(enum := None), old(Tree()).kids))])
    {
      var nonNull := new SchemaNode.Taking(kw.(enum := None), this);
      var nullOnly := new SchemaNode(EMPTY.(ty := OneType("null")));
      assert nullOnly.Tree() == NULL_ONLY;
      Become(EMPTY.(enum := kw.enum), nullOnly, nonNull);
    }

    /** The node gives up its content for a choice between two other nodes. */
    method Become(kw: Keywords, left: SchemaNode, right: SchemaNode)
      requires left.Valid() && right.Valid()
      requires left.repr !! right.repr && this !in left.repr + right.repr
      modifies this
      ensures Valid() && repr == left.repr + right.repr + {this}
      ensures Tree() == Node(kw, [Kid(AnyOf, old(left.Tree())), Kid(AnyOf, old(right.Tree()))])
    {
      this.kw := kw;
      entries := [Attached(AnyOf, NodeChild(left)), Attached(AnyOf, NodeChild(right))];
      repr := left.repr + right.repr + {this};
      assert ChildTree(entries[0].child) == left.Tree() && ChildTree(entries[1].child) == right.Tree();
      assert Tree().kids == [Kid(AnyOf, left.Tree()), Kid(AnyOf, right.Tree())];
    }

    /** A new node holding the children of `from`. */
    constructor Taking(kw: Keywords, from: SchemaNode)
      requires from.Valid()
      ensures Valid() && from.Valid() && repr == from.repr - {from} + {this}
      ensures Tree() == Node(kw, from.Tree().kids)
    {
      this.kw := kw;
      entries := from.entries;
      repr := from.repr - {from} + {this};
      new;
      assert Tree().kids == from.Tree().kids;
    }
  }
}
