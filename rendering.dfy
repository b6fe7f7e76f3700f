/**
 * The text of the tree report: a header line, then one line per node of the
 * snapshot tree in depth-first order, each indented two spaces per level and
 * followed by one padded cell per selected column.
 */
module Rendering {
  import opened Wrappers
  import opened MachineInts
  import opened SnapshotTrees
  import opened ColumnWidths
  import opened Padding

  const PathHeader: string := "Path"

  /** The path column is never narrower than its header. */
  const MinPathWidth: nat := 4

  function Indent(level: nat): string {
    Spaces(2 * level)
  }

  /** Integer, unsigned, floating-point and address values are right-aligned. */
  predicate RightAligned(t: AttrType) {
    t == TypeInt || t == TypeUint || t == TypeDouble || t == TypeAddr
  }

  /** The string printed for attribute `a` on node `n`: its value, or empty when the node has none. */
  function CellText(n: Node, a: Attribute): string {
    AttrValue(n, a).GetOr("")
  }

  /** One cell of a node's row. */
  function Cell(n: Node, a: Attribute, t: WidthTable): (c: string)
    ensures var s := CellText(n, a);
      && |c| >= |s|
      && (RightAligned(a.typ) ==> |c| >= |s| + 1 && c[|c| - 1 - |s|..] == s + " ")
      && (!RightAligned(a.typ) ==> c[..|s|] == s)
  {
    var s := CellText(n, a);
    if RightAligned(a.typ) then PadLeft(s, WidthOf(t, a)) else PadRight(s, WidthOf(t, a))
  }

  function Cells(n: Node, cols: seq<Attribute>, t: WidthTable): string
    decreases |cols|
  {
    if cols == [] then "" else Cell(n, cols[0], t) + Cells(n, cols[1..], t)
  }

  /** The path string of a row: two spaces per level, then the node's label value. */
  function PathText(v: Visit): string {
    Indent(v.level) + v.node.labelValue
  }

  /** `recursive_print_nodes`' line for one node. */
  function RowLine(v: Visit, cols: seq<Attribute>, t: WidthTable, pathWidth: nat): (line: string)
    ensures |line| >= |PathText(v)| && line[..|PathText(v)|] == PathText(v)
  {
    PadRight(PathText(v), pathWidth) + Cells(v.node, cols, t)
  }

  function HeaderCells(cols: seq<Attribute>, t: WidthTable): string
    decreases |cols|
  {
    if cols == [] then "" else PadRight(cols[0].name, WidthOf(t, cols[0])) + HeaderCells(cols[1..], t)
  }

  /** The header line: "Path", then every column's name, all left-aligned. */
  function HeaderLine(cols: seq<Attribute>, t: WidthTable, pathWidth: nat): (line: string)
    ensures |line| >= |PathHeader| && line[..|PathHeader|] == PathHeader
  {
    PadRight(PathHeader, pathWidth) + HeaderCells(cols, t)
  }

  function Rows(vs: seq<Visit>, cols: seq<Attribute>, t: WidthTable, pathWidth: nat): (r: seq<string>)
    ensures |r| == |vs|
  {
    seq(|vs|, i requires 0 <= i < |vs| => RowLine(vs[i], cols, t, pathWidth))
  }

  /** The whole report: the header, then the root's children and their subtrees from level 0. */
  function Report(tree: Node, cols: seq<Attribute>, t: WidthTable, pathWidth: nat): (lines: seq<string>)
    ensures |lines| == 1 + Size(tree.children)
    ensures lines[0] == HeaderLine(cols, t, pathWidth)
  {
    PreorderSize(tree.children, 0);
    [HeaderLine(cols, t, pathWidth)] + Rows(PreorderSeq(tree.children, 0), cols, t, pathWidth)
  }

  /** One header line, then one row per node below the root; the root itself is not printed. */
  lemma ReportShape(tree: Node, cols: seq<Attribute>, t: WidthTable, pathWidth: nat)
    ensures |Report(tree, cols, t, pathWidth)| == 1 + Size(tree.children)
    ensures Report(tree, cols, t, pathWidth)[0] == HeaderLine(cols, t, pathWidth)
    ensures Report(tree, cols, t, pathWidth)[0][..|PathHeader|] == PathHeader
  {
    PreorderSize(tree.children, 0);
  }

  /** Every row starts with its node's label value indented by two spaces per level. */
  lemma RowStartsWithPath(v: Visit, cols: seq<Attribute>, t: WidthTable, pathWidth: nat)
    ensures |PathText(v)| == 2 * v.level + |v.node.labelValue|
    ensures RowLine(v, cols, t, pathWidth)[..|PathText(v)|] == PathText(v)
    ensures forall i | 0 <= i < 2 * v.level :: RowLine(v, cols, t, pathWidth)[i] == ' '
  {
    var p := PadRight(PathText(v), pathWidth);
    assert RowLine(v, cols, t, pathWidth)[..|PathText(v)|] == p[..|PathText(v)|];
  }

  /** A right-aligned cell ends with its text and a space; a left-aligned one starts with its text. */
  lemma CellPlacement(n: Node, a: Attribute, t: WidthTable)
    ensures var c := Cell(n, a, t); var s := CellText(n, a);
      if RightAligned(a.typ) then c[|c| - 1 - |s|..] == s + " "
      else c[..|s|] == s
  {
    var c := Cell(n, a, t);
    var s := CellText(n, a);
    if RightAligned(a.typ) {
      assert c[|c| - 1 - |s|..] == c[|c| - 1 - |s|..|c| - 1] + [c[|c| - 1]];
    }
  }

  /** A node without a value for the column gets a blank cell. */
  lemma MissingValueIsBlank(n: Node, a: Attribute, t: WidthTable)
    requires AttrValue(n, a).None?
    ensures forall i | 0 <= i < |Cell(n, a, t)| :: Cell(n, a, t)[i] == ' '
  {
  }

  /** A text fits a width when it is no longer than the width and the gap stays inside the whitespace buffer. */
  predicate TextFits(s: string, w: nat) {
    |s| <= w && w - |s| < MaxPad && w + 1 < SizeMod
  }

  /** The widths of the selected columns, each plus its separator. */
  function ColumnsWidth(cols: seq<Attribute>, t: WidthTable): nat
    decreases |cols|
  {
    if cols == [] then 0 else WidthOf(t, cols[0]) + 1 + ColumnsWidth(cols[1..], t)
  }

  /** A cell whose text fits is exactly its column's width plus one, whichever its alignment. */
  lemma CellWidth(n: Node, a: Attribute, t: WidthTable)
    requires TextFits(CellText(n, a), WidthOf(t, a))
    ensures |Cell(n, a, t)| == WidthOf(t, a) + 1
  {
    if !RightAligned(a.typ) {
      PadRightFits(CellText(n, a), WidthOf(t, a));
    }
  }

  lemma {:induction false} CellsWidth(n: Node, cols: seq<Attribute>, t: WidthTable)
    requires forall a | a in cols :: TextFits(CellText(n, a), WidthOf(t, a))
    ensures |Cells(n, cols, t)| == ColumnsWidth(cols, t)
    decreases |cols|
  {
    if cols != [] {
      CellWidth(n, cols[0], t);
      CellsWidth(n, cols[1..], t);
    }
  }

  lemma {:induction false} HeaderCellsWidth(cols: seq<Attribute>, t: WidthTable)
    requires forall a | a in cols :: TextFits(a.name, WidthOf(t, a))
    ensures |HeaderCells(cols, t)| == ColumnsWidth(cols, t)
    decreases |cols|
  {
    if cols != [] {
      PadRightFits(cols[0].name, WidthOf(t, cols[0]));
      HeaderCellsWidth(cols[1..], t);
    }
  }

  /**
   * When the path and every value fit their widths, a row is as long as the
   * header: the path width plus one, plus each column's width plus one.
   */
  lemma RowAlignedWithHeader(v: Visit, cols: seq<Attribute>, t: WidthTable, pathWidth: nat)
    requires TextFits(PathText(v), pathWidth) && TextFits(PathHeader, pathWidth)
    requires forall a | a in cols :: TextFits(CellText(v.node, a), WidthOf(t, a))
    requires forall a | a in cols :: TextFits(a.name, WidthOf(t, a))
    ensures |RowLine(v, cols, t, pathWidth)| == |HeaderLine(cols, t, pathWidth)|
    ensures |HeaderLine(cols, t, pathWidth)| == pathWidth + 1 + ColumnsWidth(cols, t)
  {
    PadRightFits(PathText(v), pathWidth);
    PadRightFits(PathHeader, pathWidth);
    CellsWidth(v.node, cols, t);
    HeaderCellsWidth(cols, t);
  }

  lemma {:induction false} HeaderCellsSnoc(cols: seq<Attribute>, c: Attribute, t: WidthTable)
    ensures HeaderCells(cols + [c], t) == HeaderCells(cols, t) + PadRight(c.name, WidthOf(t, c))
    decreases |cols|
  {
    if cols == [] {
      assert [c][1..] == [];
    } else {
      assert (cols + [c])[1..] == cols[1..] + [c];
      HeaderCellsSnoc(cols[1..], c, t);
    }
  }

  /** Printing one more column name extends the header line by that column's cell. */
  lemma HeaderStep(cols: seq<Attribute>, i: nat, t: WidthTable, pathWidth: nat, header: string)
    requires i < |cols|
    requires header == PadRight(PathHeader, pathWidth) + HeaderCells(cols[..i], t)
    ensures header + PadRight(cols[i].name, WidthOf(t, cols[i])) == PadRight(PathHeader, pathWidth) + HeaderCells(cols[..i + 1], t)
  {
    assert cols[..i + 1] == cols[..i] + [cols[i]];
    HeaderCellsSnoc(cols[..i], cols[i], t);
  }

  lemma RowsConcat(a: seq<Visit>, b: seq<Visit>, cols: seq<Attribute>, t: WidthTable, pathWidth: nat)
    ensures Rows(a + b, cols, t, pathWidth) == Rows(a, cols, t, pathWidth) + Rows(b, cols, t, pathWidth)
  {
  }

  lemma RowsCons(v: Visit, vs: seq<Visit>, cols: seq<Attribute>, t: WidthTable, pathWidth: nat)
    ensures Rows([v] + vs, cols, t, pathWidth) == [RowLine(v, cols, t, pathWidth)] + Rows(vs, cols, t, pathWidth)
  {
  }

  /** Printing one more tree of a forest appends that tree's rows. */
  lemma RowsForestStep(ns: seq<Node>, j: nat, level: nat, cols: seq<Attribute>, t: WidthTable, pathWidth: nat)
    requires j < |ns|
    ensures Rows(PreorderSeq(ns[..j + 1], level), cols, t, pathWidth)
         == Rows(PreorderSeq(ns[..j], level), cols, t, pathWidth) + Rows(PreorderNode(ns[j], level), cols, t, pathWidth)
  {
    PreorderPrefixStep(ns, j, level);
    RowsConcat(PreorderSeq(ns[..j], level), PreorderNode(ns[j], level), cols, t, pathWidth);
  }

  /** A node's rows: its own line, then the rows of its children one level deeper. */
  lemma RowsOfNode(n: Node, level: nat, cols: seq<Attribute>, t: WidthTable, pathWidth: nat)
    ensures Rows(PreorderNode(n, level), cols, t, pathWidth)
         == [RowLine(Visit(n, level), cols, t, pathWidth)] + Rows(PreorderSeq(n.children, level + 1), cols, t, pathWidth)
  {
    RowsCons(Visit(n, level), PreorderSeq(n.children, level + 1), cols, t, pathWidth);
  }

  /** Two tables that read the same width for every attribute print the same cells. */
  lemma {:induction false} CellsSameWidths(n: Node, cols: seq<Attribute>, t1: WidthTable, t2: WidthTable)
    requires forall b :: WidthOf(t1, b) == WidthOf(t2, b)
    ensures Cells(n, cols, t1) == Cells(n, cols, t2)
    decreases |cols|
  {
    if cols != [] {
      CellsSameWidths(n, cols[1..], t1, t2);
    }
  }

  lemma RowsSameWidths(vs: seq<Visit>, cols: seq<Attribute>, t1: WidthTable, t2: WidthTable, pathWidth: nat)
    requires forall b :: WidthOf(t1, b) == WidthOf(t2, b)
    ensures Rows(vs, cols, t1, pathWidth) == Rows(vs, cols, t2, pathWidth)
  {
    forall i | 0 <= i < |vs|
      ensures RowLine(vs[i], cols, t1, pathWidth) == RowLine(vs[i], cols, t2, pathWidth)
    {
      CellsSameWidths(vs[i].node, cols, t1, t2);
    }
  }
}
