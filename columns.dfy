/**
 * Column selection at flush time: which attributes become report columns,
 * under the four attribute-selection modes of a query.
 */
module ColumnSelection {
  import opened Wrappers
  import opened SnapshotTrees
  import opened ColumnWidths

  datatype SelectionMode = DefaultColumns | AllColumns | ListedColumns | NoColumns

  /** The query's attribute selection: a mode and, for ListedColumns, the names. */
  datatype AttributeSelection = AttributeSelection(mode: SelectionMode, list: seq<string>)

  /** Names in the library's internal namespace are left out of the default columns. */
  const InternalPrefix: string := "cali."

  predicate HasPrefix(s: string, prefix: string) {
    |prefix| <= |s| && s[..|prefix|] == prefix
  }

  predicate ShownByDefault(a: Attribute) {
    !a.hidden && !HasPrefix(a.name, InternalPrefix)
  }

  /**
   * The attribute `a` itself, not merely one with its id, is a key of the
   * table. `Has` matches by id as the map's lookups do; the columns chosen
   * here are the table's own key attributes, so membership of `a` in them
   * needs the whole attribute to match.
   */
  predicate InTable(t: WidthTable, a: Attribute) {
    exists i | 0 <= i < |t| :: t[i].attr == a
  }

  /** Strictly increasing attribute ids: the width table's key order. */
  predicate IdsIncreasing(cols: seq<Attribute>) {
    forall i, j | 0 <= i < j < |cols| :: cols[i].id < cols[j].id
  }

  /** Default mode: the table's attributes in key order, minus hidden ones and internal names. */
  function DefaultSelection(t: WidthTable): (cols: seq<Attribute>)
    ensures |cols| <= |t|
    ensures forall a :: a in cols <==> InTable(t, a) && ShownByDefault(a)
    ensures Ordered(t) ==> IdsIncreasing(cols)
    ensures Ordered(t) ==> forall k | 0 <= k < |cols| :: |t| > 0 && cols[k].id >= t[0].attr.id
  {
    if t == [] then []
    else
      var rest := DefaultSelection(t[1..]);
      assert forall a :: InTable(t, a) <==> t[0].attr == a || InTable(t[1..], a) by {
        forall a | InTable(t, a) ensures t[0].attr == a || InTable(t[1..], a) {
          var i :| 0 <= i < |t| && t[i].attr == a;
          if i > 0 { assert t[1..][i - 1].attr == a; }
        }
        forall a | InTable(t[1..], a) ensures InTable(t, a) {
          var i :| 0 <= i < |t[1..]| && t[1..][i].attr == a;
          assert t[i + 1].attr == a;
        }
      }
      if ShownByDefault(t[0].attr) then [t[0].attr] + rest else rest
  }

  /** All mode: every attribute of the table, in key order. */
  function AllSelection(t: WidthTable): (cols: seq<Attribute>)
    ensures |cols| == |t|
    ensures forall i | 0 <= i < |t| :: cols[i] == t[i].attr
  {
    if t == [] then [] else [t[0].attr] + AllSelection(t[1..])
  }

  /** List mode: the names that resolve, in list order; the others are dropped. */
  function ListSelection(names: seq<string>, db: Db): (cols: seq<Attribute>)
    ensures |cols| <= |names|
    ensures forall a :: a in cols <==> exists i | 0 <= i < |names| :: db(names[i]) == Some(a)
  {
    if names == [] then []
    else
      var rest := ListSelection(names[1..], db);
      assert forall i | 1 <= i < |names| :: names[i] == names[1..][i - 1];
      match db(names[0])
      case Some(a) => [a] + rest
      case None => rest
  }

  /** The names List mode warns about, in list order. */
  function Unresolvable(names: seq<string>, db: Db): (missing: seq<string>)
    ensures |missing| + |ListSelection(names, db)| == |names|
    ensures forall n :: n in missing <==> n in names && db(n).None?
  {
    if names == [] then []
    else
      var rest := Unresolvable(names[1..], db);
      if db(names[0]).None? then [names[0]] + rest else rest
  }

  /** When every listed name resolves, the columns are exactly the listed attributes, in list order. */
  lemma {:induction false} ListSelectionAllResolved(names: seq<string>, db: Db)
    requires forall i | 0 <= i < |names| :: db(names[i]).Some?
    ensures |ListSelection(names, db)| == |names|
    ensures forall i | 0 <= i < |names| :: ListSelection(names, db)[i] == db(names[i]).value
    decreases |names|
  {
    if names != [] {
      ListSelectionAllResolved(names[1..], db);
    }
  }

  /**
   * List mode works name by name: the columns of two lists one after the
   * other are the columns of the first followed by those of the second.
   */
  lemma {:induction false} ListSelectionConcat(a: seq<string>, b: seq<string>, db: Db)
    ensures ListSelection(a + b, db) == ListSelection(a, db) + ListSelection(b, db)
    decreases |a|
  {
    if a == [] {
      assert a + b == b;
    } else {
      assert (a + b)[0] == a[0];
      assert (a + b)[1..] == a[1..] + b;
      ListSelectionConcat(a[1..], b, db);
    }
  }

  /** One listed name gives its attribute as a column when it resolves, and nothing otherwise. */
  lemma ListSelectionOne(name: string, db: Db)
    ensures ListSelection([name], db) == if db(name).Some? then [db(name).value] else []
  {
    assert [name][1..] == [];
  }

  /** A name listed twice gives its column twice. */
  lemma ListSelectionRepeats(name: string, db: Db)
    requires db(name).Some?
    ensures ListSelection([name, name], db) == [db(name).value, db(name).value]
  {
    ListSelectionConcat([name], [name], db);
    ListSelectionOne(name, db);
    assert [name] + [name] == [name, name];
  }

  /** The columns `flush` prints under each selection mode. */
  function SelectColumns(sel: AttributeSelection, t: WidthTable, db: Db): (cols: seq<Attribute>)
    ensures sel.mode == NoColumns ==> cols == []
    ensures sel.mode != ListedColumns ==> forall a | a in cols :: InTable(t, a)
    ensures sel.mode == ListedColumns ==>
      forall a | a in cols :: exists i | 0 <= i < |sel.list| :: db(sel.list[i]) == Some(a)
  {
    match sel.mode
    case DefaultColumns => DefaultSelection(t)
    case AllColumns => AllSelection(t)
    case ListedColumns => ListSelection(sel.list, db)
    case NoColumns => []
  }

  /** The names `flush` warns about: only List mode looks names up. */
  function SelectionWarnings(sel: AttributeSelection, db: Db): (missing: seq<string>)
    ensures forall n :: n in missing <==> sel.mode == ListedColumns && n in sel.list && db(n).None?
  {
    if sel.mode == ListedColumns then Unresolvable(sel.list, db) else []
  }

  /**
   * Default and All draw only from the width table, so they never add an
   * attribute that was not seen; only List can name one.
   */
  lemma SelectedColumnsFromTable(sel: AttributeSelection, t: WidthTable, db: Db)
    requires sel.mode != ListedColumns
    ensures forall a | a in SelectColumns(sel, t, db) :: InTable(t, a)
    ensures SelectionWarnings(sel, db) == []
  {
  }
}
