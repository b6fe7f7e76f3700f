/**
 * The inputs the tree formatter works on: attribute descriptors, entry lists,
 * the snapshot tree's nodes and the node `add_snapshot` hands back.
 *
 * The snapshot tree's merge step itself is not part of this model; the
 * formatter receives it as a function from (tree, entry list, path predicate)
 * to the new tree and the node reached.
 */
module SnapshotTrees {
  import opened Wrappers

  /** The value types an attribute can carry. */
  datatype AttrType = TypeInv | TypeUsr | TypeInt | TypeUint | TypeString
                    | TypeAddr | TypeDouble | TypeBool | TypeType

  /**
   * A resolved attribute descriptor. Attributes are identified by `id`: two
   * descriptors with the same id denote the same attribute.
   */
  datatype Attribute = Attribute(id: nat, name: string, typ: AttrType, hidden: bool, nested: bool)

  /** An attribute with the string form of its value. */
  datatype Entry = Entry(attr: Attribute, value: string)

  /** One flat snapshot record. */
  type EntryList = seq<Entry>

  /** Name lookup in the metadata database; None is the invalid attribute. */
  type Db = string -> Option<Attribute>

  /**
   * A snapshot tree node: its label key (None for the root), the label's
   * string form, its data attributes in attribute order and its children in
   * insertion order.
   */
  datatype Node = Node(labelKey: Option<Attribute>, labelValue: string, attrs: seq<Entry>, children: seq<Node>)

  const EmptyTree: Node := Node(None, "", [], [])

  /**
   * The node `add_snapshot` returns, with the label keys of its parent chain:
   * `ancestorKeys[0]` is the parent's, the last one the root's.
   */
  datatype Hit = Hit(node: Node, ancestorKeys: seq<Option<Attribute>>)

  /** The path predicate handed to `add_snapshot`: the nested flag, or membership in resolved path keys. */
  datatype PathPredicate = Nested | KeyMembership(keys: seq<Option<Attribute>>)

  /** Does the predicate put `a` on the path? (Values do not matter to either form.) */
  predicate IsPath(p: PathPredicate, a: Attribute) {
    match p
    case Nested => a.nested
    case KeyMembership(keys) => exists i | 0 <= i < |keys| :: keys[i].Some? && keys[i].value.id == a.id
  }

  /** What one `add_snapshot` call yields: the new tree and the node reached, if any. */
  datatype SnapshotResult = SnapshotResult(tree: Node, hit: Option<Hit>)

  type SnapshotStep = (Node, EntryList, PathPredicate) -> SnapshotResult

  /** The value recorded on `n` for attribute `a`, if any. */
  function AttrValue(n: Node, a: Attribute): (r: Option<string>)
    ensures r.Some? <==> exists i | 0 <= i < |n.attrs| :: n.attrs[i].attr.id == a.id
  {
    FindEntry(n.attrs, a)
  }

  function FindEntry(es: seq<Entry>, a: Attribute): (r: Option<string>)
    ensures r.Some? <==> exists i | 0 <= i < |es| :: es[i].attr.id == a.id
    ensures r.Some? ==> exists i | 0 <= i < |es| :: es[i].attr.id == a.id && es[i].value == r.value
  {
    if es == [] then None
    else if es[0].attr.id == a.id then Some(es[0].value)
    else
      var r := FindEntry(es[1..], a);
      assert forall i | 1 <= i < |es| :: es[i] == es[1..][i - 1];
      r
  }

  /** The depth-first order in which nodes are printed, each with its indentation level. */
  datatype Visit = Visit(node: Node, level: nat)

  function PreorderNode(n: Node, level: nat): seq<Visit>
    decreases n, 1
  {
    [Visit(n, level)] + PreorderSeq(n.children, level + 1)
  }

  function PreorderSeq(ns: seq<Node>, level: nat): seq<Visit>
    decreases ns, 0
  {
    if ns == [] then []
    else PreorderNode(ns[0], level) + PreorderSeq(ns[1..], level)
  }

  /** The number of nodes in a forest. */
  function Size(ns: seq<Node>): nat
    decreases ns
  {
    if ns == [] then 0 else 1 + Size(ns[0].children) + Size(ns[1..])
  }

  /** Walking one more sibling appends that sibling's subtree. */
  lemma PreorderPrefixStep(ns: seq<Node>, j: nat, level: nat)
    requires j < |ns|
    ensures PreorderSeq(ns[..j + 1], level) == PreorderSeq(ns[..j], level) + PreorderNode(ns[j], level)
  {
    assert ns[..j + 1] == ns[..j] + [ns[j]];
    assert [ns[j]][1..] == [];
    assert PreorderSeq([ns[j]], level) == PreorderNode(ns[j], level);
    PreorderSeqConcat(ns[..j], [ns[j]], level);
  }

  lemma {:induction false} PreorderSeqConcat(a: seq<Node>, b: seq<Node>, level: nat)
    ensures PreorderSeq(a + b, level) == PreorderSeq(a, level) + PreorderSeq(b, level)
    decreases |a|
  {
    if a != [] {
      assert (a + b)[1..] == a[1..] + b;
      PreorderSeqConcat(a[1..], b, level);
    } else {
      assert a + b == b;
    }
  }

  /** One visit per node: the walk of a forest is as long as the forest has nodes. */
  lemma {:induction false} PreorderSize(ns: seq<Node>, level: nat)
    ensures |PreorderSeq(ns, level)| == Size(ns)
    decreases ns
  {
    if ns != [] {
      PreorderSize(ns[0].children, level + 1);
      PreorderSize(ns[1..], level);
    }
  }

  /** Nothing in the walk of a forest at `level` is shallower than `level`. */
  lemma {:induction false} PreorderLevels(ns: seq<Node>, level: nat)
    ensures forall v | v in PreorderSeq(ns, level) :: v.level >= level
    decreases ns
  {
    if ns != [] {
      PreorderLevels(ns[0].children, level + 1);
      PreorderLevels(ns[1..], level);
    }
  }

  /** The visits at exactly level `level`, in walk order. */
  function AtLevel(vs: seq<Visit>, level: nat): seq<Node> {
    if vs == [] then []
    else (if vs[0].level == level then [vs[0].node] else []) + AtLevel(vs[1..], level)
  }

  lemma {:induction false} AtLevelConcat(a: seq<Visit>, b: seq<Visit>, level: nat)
    ensures AtLevel(a + b, level) == AtLevel(a, level) + AtLevel(b, level)
    decreases |a|
  {
    if a != [] {
      assert (a + b)[1..] == a[1..] + b;
      AtLevelConcat(a[1..], b, level);
    } else {
      assert a + b == b;
    }
  }

  lemma {:induction false} AtLevelDeeper(vs: seq<Visit>, level: nat)
    requires forall v | v in vs :: v.level > level
    ensures AtLevel(vs, level) == []
    decreases |vs|
  {
    if vs != [] {
      assert forall v | v in vs[1..] :: v in vs;
      AtLevelDeeper(vs[1..], level);
    }
  }

  /**
   * Siblings are printed in insertion order: the rows at the starting level
   * are exactly the forest's roots, in order, with their subtrees in between.
   */
  lemma {:induction false} PreorderSiblingOrder(ns: seq<Node>, level: nat)
    ensures AtLevel(PreorderSeq(ns, level), level) == ns
    decreases ns
  {
    if ns != [] {
      var sub := PreorderSeq(ns[0].children, level + 1);
      PreorderLevels(ns[0].children, level + 1);
      AtLevelDeeper(sub, level);
      AtLevelConcat([Visit(ns[0], level)], sub, level);
      AtLevelConcat(PreorderNode(ns[0], level), PreorderSeq(ns[1..], level), level);
      PreorderSiblingOrder(ns[1..], level);
      assert [ns[0]] + ns[1..] == ns;
    }
  }
}
