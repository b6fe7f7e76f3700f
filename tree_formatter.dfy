/**
 * The tree formatter: it collects snapshot records into a snapshot tree,
 * keeps the width of every column as records arrive, and at flush time
 * prints the tree as an indented, column-aligned text report.
 */
module TreeFormatting {
  import opened Wrappers
  import opened MachineInts
  import opened SnapshotTrees
  import opened ColumnWidths
  import opened ColumnSelection
  import opened PathKeys
  import opened Padding
  import opened Rendering

  /** The parts of a query the formatter reads: the format arguments and the attribute selection. */
  datatype QuerySpec = QuerySpec(formatArgs: seq<string>, selection: AttributeSelection)

  class TreeFormatter {
    var tree: Node
    var selection: AttributeSelection
    var widths: WidthTable
    var pathWidth: nat
    var pathKeyNames: seq<string>
    var pathKeys: seq<Option<Attribute>>

    /** One cached key per path-key name, and the width table in key order. */
    ghost predicate Valid()
      reads this
    {
      |pathKeys| == |pathKeyNames| && Ordered(widths)
    }

    /** A formatter with an empty tree, no widths, configured from the query. */
    constructor (spec: QuerySpec)
      ensures Valid()
      ensures tree == EmptyTree && widths == [] && pathWidth == 0
      ensures pathKeyNames == ConfiguredNames(spec.formatArgs)
      ensures pathKeys == Unresolved(|pathKeyNames|)
      ensures selection == spec.selection
    {
      tree := EmptyTree;
      selection := AttributeSelection(DefaultColumns, []);
      widths := [];
      pathWidth := 0;
      pathKeyNames := [];
      pathKeys := [];
      new;
      Configure(spec);
    }

    /**
     * Append the names of the first format argument to the path-key names,
     * reset every cached key to invalid, and take the query's selection.
     */
    method Configure(spec: QuerySpec)
      requires Valid()
      modifies this`pathKeyNames, this`pathKeys, this`selection
      ensures Valid()
      ensures pathKeyNames == old(pathKeyNames) + ConfiguredNames(spec.formatArgs)
      ensures pathKeys == Unresolved(|pathKeyNames|)
      ensures selection == spec.selection
    {
      if |spec.formatArgs| > 0 {
        pathKeyNames := pathKeyNames + Split(spec.formatArgs[0]);
      }
      pathKeys := Unresolved(|pathKeyNames|);
      selection := spec.selection;
    }

    /**
     * Resolve the invalid cached keys against the database; every key found is
     * cached, and the returned keys are the updated cache.
     */
    method GetPathKeys(db: Db) returns (keys: seq<Option<Attribute>>)
      requires Valid()
      modifies this`pathKeys
      ensures Valid()
      ensures keys == pathKeys == Resolve(old(pathKeys), pathKeyNames, db)
    {
      keys := pathKeys;
      var i := 0;
      while i < |keys|
        invariant 0 <= i <= |keys| == |pathKeyNames|
        invariant keys == pathKeys
        invariant keys[..i] == Resolve(old(pathKeys), pathKeyNames, db)[..i]
        invariant keys[i..] == old(pathKeys)[i..]
      {
        if keys[i].None? {
          var attr := db(pathKeyNames[i]);
          if attr.Some? {
            keys := keys[i := attr];
            pathKeys := pathKeys[i := attr];
          }
        }
        assert keys[i] == Resolve(old(pathKeys), pathKeyNames, db)[i] by {
          assert old(pathKeys)[i] == old(pathKeys)[i..][0];
        }
        i := i + 1;
      }
    }

    /**
     * Record one snapshot: build the path predicate, add the record to the
     * tree, and widen the path column and the attribute columns for the node
     * the record reached.
     */
    method Add(db: Db, list: EntryList, addSnapshot: SnapshotStep)
      requires Valid()
      modifies this`tree, this`pathKeys, this`pathWidth, this`widths
      ensures Valid()
      ensures pathKeys == if pathKeyNames == [] then old(pathKeys) else Resolve(old(pathKeys), pathKeyNames, db)
      ensures var res := addSnapshot(old(tree), list, ChoosePredicate(pathKeyNames, pathKeys));
        && tree == res.tree
        && (res.hit.None? ==> pathWidth == old(pathWidth) && widths == old(widths))
        && (res.hit.Some? ==>
              pathWidth == Max(old(pathWidth), PathLen(res.hit.value))
              && widths == ObserveAll(old(widths), res.hit.value.node.attrs))
    {
      var pred: PathPredicate;
      if |pathKeyNames| == 0 {
        pred := Nested;
      } else {
        var keys := GetPathKeys(db);
        pred := KeyMembership(keys);
      }
      var res := addSnapshot(tree, list, pred);
      tree := res.tree;
      if res.hit.None? {
        return;
      }
      var hit := res.hit.value;
      var len := PathColumnLen(hit);
      pathWidth := Max(pathWidth, len);
      ghost var before := widths;
      ObserveAttributes(hit.node.attrs);
      ObserveAllOrdered(before, hit.node.attrs);
    }

    /**
     * The width update for the attributes of one node, in the node's order.
     * That it keeps the table in key order is `ObserveAllOrdered`, used by `Add`.
     */
    method ObserveAttributes(es: seq<Entry>)
      modifies this`widths
      ensures widths == ObserveAll(old(widths), es)
    {
      var i := 0;
      while i < |es|
        invariant 0 <= i <= |es|
        invariant widths == ObserveAll(old(widths), es[..i])
      {
        var e := es[i];
        var len := |e.value|;
        ObserveAllNext(old(widths), es, i, widths);
        var found := Lookup(widths, e.attr);
        if found.None? {
          var inserted := Insert(widths, e.attr, Max(len, |e.attr.name|));
          assert inserted == ObserveAll(old(widths), es[..i + 1]);
          widths := inserted;
        } else {
          widths := Assign(widths, e.attr, Max(found.value, len));
        }
        i := i + 1;
      }
      assert es[..|es|] == es;
    }

    /** `operator[]` on the width table: the stored width, inserting 0 for an unseen attribute. */
    method Subscript(a: Attribute) returns (w: nat)
      requires Ordered(widths)
      modifies this`widths
      ensures Ordered(widths) && Has(widths, a)
      ensures widths == Subscripted(old(widths), a)
      ensures w == WidthOf(old(widths), a)
    {
      var found := Lookup(widths, a);
      SubscriptedKeepsWidths(widths, a);
      if found.None? {
        widths := Insert(widths, a, 0);
        w := 0;
      } else {
        w := found.value;
      }
    }

    /** The lines of one node and its subtree, the node at `level`, its children one level deeper. */
    method PrintNodes(node: Node, level: nat, cols: seq<Attribute>) returns (lines: seq<string>)
      ensures lines == Rows(PreorderNode(node, level), cols, widths, pathWidth)
      decreases node, 1
    {
      var first := RowLine(Visit(node, level), cols, widths, pathWidth);
      var rest := PrintSiblings(node.children, level + 1, cols);
      RowsOfNode(node, level, cols, widths, pathWidth);
      lines := [first] + rest;
    }

    /**
     * Print the report: widen the path column to fit its header, choose the
     * columns, print the header, then every node below the root.
     */
    method Flush(db: Db) returns (lines: seq<string>, warnings: seq<string>)
      requires Valid()
      modifies this`pathWidth, this`widths
      ensures Valid()
      ensures pathWidth == Max(old(pathWidth), MinPathWidth)
      ensures var cols := SelectColumns(selection, old(widths), db);
        && widths == SubscriptedAll(old(widths), cols)
        && lines == Report(tree, cols, old(widths), pathWidth)
      ensures warnings == SelectionWarnings(selection, db)
    {
      pathWidth := Max(pathWidth, MinPathWidth);
      var cols := SelectColumns(selection, widths, db);
      warnings := SelectionWarnings(selection, db);
      ghost var w0 := widths;
      var header := PrintHeader(cols);
      var rows := PrintSiblings(tree.children, 0, cols);
      SubscriptedAllKeepsWidths(w0, cols);
      RowsSameWidths(PreorderSeq(tree.children, 0), cols, widths, w0, pathWidth);
      lines := [header] + rows;
    }

    /** The header line, subscripting the width table once per column. */
    method PrintHeader(cols: seq<Attribute>) returns (header: string)
      requires Ordered(widths)
      modifies this`widths
      ensures Ordered(widths)
      ensures widths == SubscriptedAll(old(widths), cols)
      ensures header == HeaderLine(cols, old(widths), pathWidth)
    {
      header := PadRight(PathHeader, pathWidth);
      var i := 0;
      while i < |cols|
        invariant 0 <= i <= |cols|
        invariant Ordered(widths)
        invariant widths == SubscriptedAll(old(widths), cols[..i])
        invariant header == PadRight(PathHeader, pathWidth) + HeaderCells(cols[..i], old(widths))
      {
        ghost var w0 := old(widths);
        var c := cols[i];
        SubscriptedAllKeepsWidths(w0, cols[..i]);
        assert WidthOf(widths, c) == WidthOf(w0, c);
        var w := Subscript(c);
        SubscriptedAllStep(w0, cols, i);
        HeaderStep(cols, i, w0, pathWidth, header);
        header := header + PadRight(c.name, w);
        i := i + 1;
      }
      assert cols[..|cols|] == cols;
    }

    /** The lines of a list of siblings at `level`: each sibling in order, with its subtree. */
    method PrintSiblings(ns: seq<Node>, level: nat, cols: seq<Attribute>) returns (rows: seq<string>)
      ensures rows == Rows(PreorderSeq(ns, level), cols, widths, pathWidth)
      decreases ns, 0
    {
      rows := [];
      var j := 0;
      while j < |ns|
        invariant 0 <= j <= |ns|
        invariant rows == Rows(PreorderSeq(ns[..j], level), cols, widths, pathWidth)
      {
        assert ns[j] in ns;
        var sub := PrintNodes(ns[j], level, cols);
        RowsForestStep(ns, j, level, cols, widths, pathWidth);
        rows := rows + sub;
        j := j + 1;
      }
      assert ns[..j] == ns;
    }
  }
  /**
   * The example tree a, a/b, a/c with `region` as every node's label key.
   * `add` counts the node itself and stops at the root's invalid key, so a
   * asks for 1 + 2 columns and b and c for 1 + 4; `flush` keeps the widest
   * of these and the header's 4. The report lists a, then b and c indented
   * beneath it, in insertion order, each line 6 characters wide.
   */
  lemma NestedRegionsExample(region: Attribute)
    ensures var b := Node(Some(region), "b", [], []);
      var c := Node(Some(region), "c", [], []);
      var a := Node(Some(region), "a", [], [b, c]);
      var tree := Node(None, "", [], [a]);
      var gathered := Max(Max(Max(0, PathLen(Hit(a, [None]))), PathLen(Hit(b, [Some(region), None]))),
                          PathLen(Hit(c, [Some(region), None])));
      var pw := Max(gathered, MinPathWidth);
      pw == 5 && Report(tree, [], [], pw) == ["Path  ", "a     ", "  b   ", "  c   "]
  {
    var b := Node(Some(region), "b", [], []);
    var c := Node(Some(region), "c", [], []);
    var a := Node(Some(region), "a", [], [b, c]);
    assert LabelledDepth(KeyChain(Hit(a, [None]))) == 1;
    assert LabelledDepth(KeyChain(Hit(b, [Some(region), None]))) == 2;
    assert LabelledDepth(KeyChain(Hit(c, [Some(region), None]))) == 2;
    assert PreorderNode(b, 1) == [Visit(b, 1)];
    assert PreorderNode(c, 1) == [Visit(c, 1)];
    assert PreorderSeq([c], 1) == [Visit(c, 1)] by {
      assert [c][1..] == [];
    }
    assert PreorderSeq([b, c], 1) == [Visit(b, 1), Visit(c, 1)] by {
      assert [b, c][1..] == [c];
    }
    assert PreorderSeq([a], 0) == [Visit(a, 0), Visit(b, 1), Visit(c, 1)] by {
      assert [a][1..] == [];
    }
    assert PathText(Visit(a, 0)) == "a";
    assert PathText(Visit(b, 1)) == "  b";
    assert PathText(Visit(c, 1)) == "  c";
    assert HeaderLine([], [], 5) == "Path  ";
    assert RowLine(Visit(a, 0), [], [], 5) == "a     ";
    assert RowLine(Visit(b, 1), [], [], 5) == "  b   ";
    assert RowLine(Visit(c, 1), [], [], 5) == "  c   ";
    assert Rows([Visit(a, 0), Visit(b, 1), Visit(c, 1)], [], [], 5) == ["a     ", "  b   ", "  c   "];
  }
}
