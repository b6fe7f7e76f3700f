/**
 * The per-attribute column width table. The source keeps it in an ordered
 * map keyed by attribute (ordered by attribute id); here it is a list of
 * (attribute, width) entries kept in strictly increasing id order, which is
 * also the order in which the report lists its default columns.
 */
module ColumnWidths {
  import opened Wrappers
  import opened MachineInts
  import opened SnapshotTrees

  datatype Column = Column(attr: Attribute, width: nat)

  type WidthTable = seq<Column>

  /** Entries are in strictly increasing attribute-id order (so no attribute appears twice). */
  predicate Ordered(t: WidthTable) {
    forall i, j | 0 <= i < j < |t| :: t[i].attr.id < t[j].attr.id
  }

  /** Every width is at least as long as its attribute's name, so headers fit. */
  predicate HeadersFit(t: WidthTable) {
    forall i | 0 <= i < |t| :: t[i].width >= |t[i].attr.name|
  }

  /** Is some entry's attribute `a`? */
  predicate Has(t: WidthTable, a: Attribute) {
    exists i | 0 <= i < |t| :: t[i].attr.id == a.id
  }

  /** `find(a)`: the width stored for `a`, if any. */
  function Lookup(t: WidthTable, a: Attribute): (r: Option<nat>)
    ensures r.Some? <==> Has(t, a)
    ensures r.Some? ==> exists i | 0 <= i < |t| :: t[i].attr.id == a.id && t[i].width == r.value
  {
    if t == [] then None
    else if t[0].attr.id == a.id then Some(t[0].width)
    else
      assert forall i | 1 <= i < |t| :: t[i] == t[1..][i - 1];
      Lookup(t[1..], a)
  }

  /** A lookup only looks at the attribute's id. */
  lemma {:induction false} LookupById(t: WidthTable, a: Attribute, b: Attribute)
    requires a.id == b.id
    ensures Lookup(t, a) == Lookup(t, b)
    decreases |t|
  {
    if t != [] && t[0].attr.id != a.id {
      LookupById(t[1..], a, b);
    }
  }

  /** `insert`: place a new entry in id order. */
  function Insert(t: WidthTable, a: Attribute, w: nat): (r: WidthTable)
    ensures |r| == |t| + 1
  {
    if t == [] || a.id <= t[0].attr.id then [Column(a, w)] + t
    else [t[0]] + Insert(t[1..], a, w)
  }

  /** `it->second = w`: overwrite the width of `a`'s entry. */
  function Assign(t: WidthTable, a: Attribute, w: nat): (r: WidthTable)
    ensures |r| == |t|
    ensures forall i | 0 <= i < |t| :: r[i].attr == t[i].attr
  {
    if t == [] then []
    else if t[0].attr.id == a.id then [Column(t[0].attr, w)] + t[1..]
    else [t[0]] + Assign(t[1..], a, w)
  }

  lemma {:induction false} InsertOrdered(t: WidthTable, a: Attribute, w: nat)
    requires Ordered(t) && !Has(t, a)
    ensures Ordered(Insert(t, a, w))
    ensures forall i | 0 <= i < |Insert(t, a, w)| ::
      Insert(t, a, w)[i] == Column(a, w) || Insert(t, a, w)[i] in t
    decreases |t|
  {
    if t != [] && a.id > t[0].attr.id {
      InsertOrdered(t[1..], a, w);
      var r := Insert(t[1..], a, w);
      forall i | 0 <= i < |r| ensures r[i].attr.id > t[0].attr.id {
        if r[i] != Column(a, w) {
          assert r[i] in t[1..];
        }
      }
    }
  }

  lemma {:induction false} LookupInsert(t: WidthTable, a: Attribute, w: nat, b: Attribute)
    ensures Lookup(Insert(t, a, w), b) == if b.id == a.id then Some(w) else Lookup(t, b)
    decreases |t|
  {
    if t != [] && a.id > t[0].attr.id {
      LookupInsert(t[1..], a, w, b);
    }
  }

  lemma {:induction false} AssignOrdered(t: WidthTable, a: Attribute, w: nat)
    requires Ordered(t)
    ensures Ordered(Assign(t, a, w))
  {
  }

  lemma {:induction false} LookupAssign(t: WidthTable, a: Attribute, w: nat, b: Attribute)
    ensures Lookup(Assign(t, a, w), b) == if b.id == a.id && Has(t, a) then Some(w) else Lookup(t, b)
    decreases |t|
  {
    if t != [] && t[0].attr.id != a.id {
      LookupAssign(t[1..], a, w, b);
    }
  }

  /**
   * Record one attribute value of string length `len`: a first sighting
   * enters max(len, |name|), a later one raises the width to max(old, len).
   */
  function Observe(t: WidthTable, a: Attribute, len: nat): (r: WidthTable)
    ensures Has(r, a) && Lookup(r, a).value >= len
    ensures forall b | Has(t, b) :: Has(r, b)
  {
    match Lookup(t, a)
    case None =>
      var w := Max(len, |a.name|);
      InsertKeepsOthers(t, a, w);
      Insert(t, a, w)
    case Some(w) =>
      AssignKeepsOthers(t, a, Max(w, len));
      Assign(t, a, Max(w, len))
  }

  lemma InsertKeepsOthers(t: WidthTable, a: Attribute, w: nat)
    ensures Lookup(Insert(t, a, w), a) == Some(w)
    ensures forall b: Attribute | b.id != a.id :: Lookup(Insert(t, a, w), b) == Lookup(t, b)
  {
    LookupInsert(t, a, w, a);
    forall b: Attribute | b.id != a.id ensures Lookup(Insert(t, a, w), b) == Lookup(t, b) {
      LookupInsert(t, a, w, b);
    }
  }

  lemma AssignKeepsOthers(t: WidthTable, a: Attribute, w: nat)
    requires Has(t, a)
    ensures Lookup(Assign(t, a, w), a) == Some(w)
    ensures forall b: Attribute | b.id != a.id :: Lookup(Assign(t, a, w), b) == Lookup(t, b)
  {
    LookupAssign(t, a, w, a);
    forall b: Attribute | b.id != a.id ensures Lookup(Assign(t, a, w), b) == Lookup(t, b) {
      LookupAssign(t, a, w, b);
    }
  }

  /**
   * The width update of `add` for the attributes of the node reached, in
   * order: every attribute of the node gets a column, and every other
   * attribute keeps the width it had.
   */
  function ObserveAll(t: WidthTable, es: seq<Entry>): (r: WidthTable)
    ensures forall b | Has(t, b) :: Has(r, b)
    ensures forall i | 0 <= i < |es| :: Has(r, es[i].attr)
    decreases |es|
  {
    if es == [] then t
    else
      var init := es[..|es| - 1];
      var last := es[|es| - 1];
      var prev := ObserveAll(t, init);
      var r := Observe(prev, last.attr, |last.value|);
      HasAllSnoc(prev, r, es, init);
      r
  }

  /** Attributes present before a step that keeps every key, and the one it adds, are all present after it. */
  lemma HasAllSnoc(prev: WidthTable, r: WidthTable, es: seq<Entry>, init: seq<Entry>)
    requires es != [] && init == es[..|es| - 1]
    requires forall i | 0 <= i < |init| :: Has(prev, init[i].attr)
    requires forall b | Has(prev, b) :: Has(r, b)
    requires Has(r, es[|es| - 1].attr)
    ensures forall i | 0 <= i < |es| :: Has(r, es[i].attr)
  {
    forall i | 0 <= i < |es| - 1
      ensures Has(r, es[i].attr)
    {
      assert init[i] == es[i];
    }
  }

  /** Observing one more entry of the node. */
  lemma ObserveAllStep(t: WidthTable, es: seq<Entry>, i: nat)
    requires i < |es|
    ensures ObserveAll(t, es[..i + 1]) == Observe(ObserveAll(t, es[..i]), es[i].attr, |es[i].value|)
  {
    assert es[..i + 1][..i] == es[..i];
  }

  /** Observing `a` leaves every other attribute's width as it was. */
  lemma ObserveLookupOther(t: WidthTable, a: Attribute, len: nat, b: Attribute)
    requires b.id != a.id
    ensures Lookup(Observe(t, a, len), b) == Lookup(t, b)
  {
    if Has(t, a) {
      LookupAssign(t, a, Max(Lookup(t, a).value, len), b);
    } else {
      LookupInsert(t, a, Max(len, |a.name|), b);
    }
  }

  /** Observing `a` gives it max(len, |name|) on a first sighting and max(old, len) afterwards. */
  lemma ObserveLookupSame(t: WidthTable, a: Attribute, len: nat, b: Attribute)
    requires b.id == a.id
    ensures Lookup(Observe(t, a, len), b).Some?
    ensures !Has(t, a) ==> Lookup(Observe(t, a, len), b).value == Max(len, |a.name|)
    ensures Has(t, a) ==> Lookup(Observe(t, a, len), b).value == Max(Lookup(t, a).value, len)
  {
    if Has(t, a) {
      LookupAssign(t, a, Max(Lookup(t, a).value, len), b);
    } else {
      LookupInsert(t, a, Max(len, |a.name|), b);
    }
  }

  /** One more entry of the node, by the outcome of the lookup: an insert for a new attribute, an assignment otherwise. */
  lemma ObserveAllNext(t0: WidthTable, es: seq<Entry>, i: nat, t: WidthTable)
    requires i < |es| && t == ObserveAll(t0, es[..i])
    ensures Lookup(t, es[i].attr).None? ==>
      Insert(t, es[i].attr, Max(|es[i].value|, |es[i].attr.name|)) == ObserveAll(t0, es[..i + 1])
    ensures Lookup(t, es[i].attr).Some? ==>
      Assign(t, es[i].attr, Max(Lookup(t, es[i].attr).value, |es[i].value|)) == ObserveAll(t0, es[..i + 1])
  {
    ObserveAllStep(t0, es, i);
  }

  lemma ObserveOrdered(t: WidthTable, a: Attribute, len: nat)
    requires Ordered(t)
    ensures Ordered(Observe(t, a, len))
  {
    if Has(t, a) {
      AssignOrdered(t, a, Max(Lookup(t, a).value, len));
    } else {
      InsertOrdered(t, a, Max(len, |a.name|));
    }
  }

  lemma ObserveHeadersFit(t: WidthTable, a: Attribute, len: nat)
    requires HeadersFit(t)
    ensures HeadersFit(Observe(t, a, len))
  {
    if Has(t, a) {
      AssignHeadersFit(t, a, Max(Lookup(t, a).value, len));
    } else {
      InsertHeadersFit(t, a, Max(len, |a.name|));
    }
  }

  lemma {:induction false} AssignHeadersFit(t: WidthTable, a: Attribute, w: nat)
    requires HeadersFit(t) && Has(t, a) && w >= Lookup(t, a).value
    ensures HeadersFit(Assign(t, a, w))
    decreases |t|
  {
    if t[0].attr.id != a.id {
      AssignHeadersFit(t[1..], a, w);
    }
  }

  lemma {:induction false} InsertHeadersFit(t: WidthTable, a: Attribute, w: nat)
    requires HeadersFit(t) && w >= |a.name|
    ensures HeadersFit(Insert(t, a, w))
    decreases |t|
  {
    if t != [] && a.id > t[0].attr.id {
      InsertHeadersFit(t[1..], a, w);
    }
  }

  /** The width update keeps the table ordered. */
  lemma {:induction false} ObserveAllOrdered(t: WidthTable, es: seq<Entry>)
    requires Ordered(t)
    ensures Ordered(ObserveAll(t, es))
    decreases |es|
  {
    if es != [] {
      ObserveAllOrdered(t, es[..|es| - 1]);
      ObserveOrdered(ObserveAll(t, es[..|es| - 1]), es[|es| - 1].attr, |es[|es| - 1].value|);
    }
  }

  /** Widths are floored at the attribute name's length, as long as they were before. */
  lemma {:induction false} ObserveAllHeadersFit(t: WidthTable, es: seq<Entry>)
    requires HeadersFit(t)
    ensures HeadersFit(ObserveAll(t, es))
    decreases |es|
  {
    if es != [] {
      ObserveAllHeadersFit(t, es[..|es| - 1]);
      ObserveHeadersFit(ObserveAll(t, es[..|es| - 1]), es[|es| - 1].attr, |es[|es| - 1].value|);
    }
  }

  /** Exactly the attributes that had a width before or occur in the record have one afterwards. */
  lemma {:induction false} ObserveAllKeys(t: WidthTable, es: seq<Entry>, b: Attribute)
    ensures Has(ObserveAll(t, es), b) <==> Has(t, b) || exists i | 0 <= i < |es| :: es[i].attr.id == b.id
    decreases |es|
  {
    if es != [] {
      var front := es[..|es| - 1];
      var last := es[|es| - 1];
      ObserveAllKeys(t, front, b);
      ObserveHas(ObserveAll(t, front), last.attr, |last.value|, b);
      IdOccursSnoc(es, front, b);
    }
  }

  /** Observing `a` adds `a` and keeps every other key. */
  lemma ObserveHas(t: WidthTable, a: Attribute, len: nat, b: Attribute)
    ensures Has(Observe(t, a, len), b) <==> Has(t, b) || a.id == b.id
  {
    if a.id == b.id {
      ObserveLookupSame(t, a, len, b);
    } else {
      ObserveLookupOther(t, a, len, b);
    }
  }

  /** Some entry of `es` carries `b`'s id iff one of all but the last does, or the last does. */
  lemma IdOccursSnoc(es: seq<Entry>, front: seq<Entry>, b: Attribute)
    requires es != [] && front == es[..|es| - 1]
    ensures (exists i | 0 <= i < |es| :: es[i].attr.id == b.id)
        <==> (exists i | 0 <= i < |front| :: front[i].attr.id == b.id) || es[|es| - 1].attr.id == b.id
  {
    if exists i | 0 <= i < |front| :: front[i].attr.id == b.id {
      var i :| 0 <= i < |front| && front[i].attr.id == b.id;
      assert es[i].attr.id == b.id;
    }
    if exists i | 0 <= i < |es| :: es[i].attr.id == b.id {
      var i :| 0 <= i < |es| && es[i].attr.id == b.id;
      if i < |front| {
        assert front[i].attr.id == b.id;
      }
    }
  }


  /** Widths never decrease: every attribute that had a width keeps one at least as large. */
  lemma {:induction false} ObserveAllGrows(t: WidthTable, es: seq<Entry>, b: Attribute)
    requires Has(t, b)
    ensures Has(ObserveAll(t, es), b)
    ensures Lookup(ObserveAll(t, es), b).value >= Lookup(t, b).value
    decreases |es|
  {
    if es != [] {
      var front := es[..|es| - 1];
      var last := es[|es| - 1];
      var mid := ObserveAll(t, front);
      assert ObserveAll(t, es) == Observe(mid, last.attr, |last.value|);
      ObserveAllGrows(t, front, b);
      if last.attr.id == b.id {
        ObserveLookupSame(mid, last.attr, |last.value|, b);
        LookupById(mid, last.attr, b);
      } else {
        ObserveLookupOther(mid, last.attr, |last.value|, b);
      }
    }
  }

  /** After the update every value seen in this record fits its column. */
  lemma {:induction false} ObserveAllCovers(t: WidthTable, es: seq<Entry>, k: nat)
    requires k < |es|
    ensures Has(ObserveAll(t, es), es[k].attr)
    ensures Lookup(ObserveAll(t, es), es[k].attr).value >= |es[k].value|
    decreases |es|
  {
    var front := es[..|es| - 1];
    var last := es[|es| - 1];
    var mid := ObserveAll(t, front);
    var e := es[k];
    if last.attr.id == e.attr.id {
      ObserveLookupSame(mid, last.attr, |last.value|, e.attr);
      if k < |front| {
        ObserveAllCovers(t, front, k);
        assert front[k] == e;
        LookupById(mid, last.attr, e.attr);
      }
    } else {
      ObserveLookupOther(mid, last.attr, |last.value|, e.attr);
      ObserveAllCovers(t, front, k);
      assert front[k] == e;
    }
    ObserveHas(mid, last.attr, |last.value|, e.attr);
  }

  /** The width `operator[]` reads: the stored one, or 0 for an attribute not in the table. */
  function WidthOf(t: WidthTable, a: Attribute): nat {
    Lookup(t, a).GetOr(0)
  }

  /**
   * The table after `operator[]` on `a`: an entry of width 0 is inserted when
   * none exists, so `a` is present afterwards and every width reads as before.
   */
  function Subscripted(t: WidthTable, a: Attribute): (r: WidthTable)
    ensures Has(r, a)
    ensures forall b | Has(t, b) :: Has(r, b)
    ensures forall b :: WidthOf(r, b) == WidthOf(t, b)
  {
    if Has(t, a) then t
    else
      InsertUnseenKeepsWidths(t, a);
      Insert(t, a, 0)
  }

  lemma InsertUnseenKeepsWidths(t: WidthTable, a: Attribute)
    requires !Has(t, a)
    ensures Has(Insert(t, a, 0), a)
    ensures forall b | Has(t, b) :: Has(Insert(t, a, 0), b)
    ensures forall b :: WidthOf(Insert(t, a, 0), b) == WidthOf(t, b)
  {
    LookupInsert(t, a, 0, a);
    forall b ensures WidthOf(Insert(t, a, 0), b) == WidthOf(t, b) && (Has(t, b) ==> Has(Insert(t, a, 0), b)) {
      LookupInsert(t, a, 0, b);
      if b.id == a.id {
        LookupById(t, a, b);
      }
    }
  }

  /** Subscripting keeps the order, and every attribute reads the same width as before. */
  lemma SubscriptedKeepsWidths(t: WidthTable, a: Attribute)
    requires Ordered(t)
    ensures Ordered(Subscripted(t, a)) && Has(Subscripted(t, a), a)
    ensures forall b :: WidthOf(Subscripted(t, a), b) == WidthOf(t, b)
  {
    if !Has(t, a) {
      InsertOrdered(t, a, 0);
      forall b ensures WidthOf(Subscripted(t, a), b) == WidthOf(t, b) {
        LookupInsert(t, a, 0, b);
        if b.id == a.id {
          assert !Has(t, b);
        }
      }
      LookupInsert(t, a, 0, a);
    }
  }

  /** `operator[]` on each selected column in turn. */
  function SubscriptedAll(t: WidthTable, cols: seq<Attribute>): WidthTable
    decreases |cols|
  {
    if cols == [] then t else Subscripted(SubscriptedAll(t, cols[..|cols| - 1]), cols[|cols| - 1])
  }

  lemma SubscriptedAllStep(t: WidthTable, cols: seq<Attribute>, i: nat)
    requires i < |cols|
    ensures SubscriptedAll(t, cols[..i + 1]) == Subscripted(SubscriptedAll(t, cols[..i]), cols[i])
  {
    assert cols[..i + 1][..i] == cols[..i];
  }

  /** Flushing inserts only zero-width entries: the table stays ordered and every width reads as before. */
  lemma {:induction false} SubscriptedAllKeepsWidths(t: WidthTable, cols: seq<Attribute>)
    requires Ordered(t)
    ensures Ordered(SubscriptedAll(t, cols))
    ensures forall b :: WidthOf(SubscriptedAll(t, cols), b) == WidthOf(t, b)
    ensures forall a | a in cols :: Has(SubscriptedAll(t, cols), a)
    decreases |cols|
  {
    if cols != [] {
      var front := cols[..|cols| - 1];
      SubscriptedAllKeepsWidths(t, front);
      var mid := SubscriptedAll(t, front);
      SubscriptedKeepsWidths(mid, cols[|cols| - 1]);
      forall a | a in cols ensures Has(SubscriptedAll(t, cols), a) {
        if a != cols[|cols| - 1] {
          assert a in front;
          SubscriptedKeepsHas(mid, cols[|cols| - 1], a);
        }
      }
    }
  }

  lemma SubscriptedKeepsHas(t: WidthTable, a: Attribute, b: Attribute)
    requires Has(t, b)
    ensures Has(Subscripted(t, a), b)
  {
    if !Has(t, a) {
      LookupInsert(t, a, 0, b);
    }
  }

  /**
   * An attribute printed as a column without ever having been seen gets a
   * width-0 entry, which breaks the name floor for its header.
   */
  lemma SubscriptUnseenBreaksFloor(t: WidthTable, a: Attribute)
    requires !Has(t, a) && |a.name| > 0
    ensures !HeadersFit(Subscripted(t, a))
  {
    InsertedEntry(t, a, 0);
  }

  /** Inserting into a table without `a` puts Column(a, w) at some position. */
  lemma {:induction false} InsertedEntry(t: WidthTable, a: Attribute, w: nat)
    ensures exists i | 0 <= i < |Insert(t, a, w)| :: Insert(t, a, w)[i] == Column(a, w)
    decreases |t|
  {
    if t != [] && a.id > t[0].attr.id {
      InsertedEntry(t[1..], a, w);
      var i :| 0 <= i < |Insert(t[1..], a, w)| && Insert(t[1..], a, w)[i] == Column(a, w);
      assert Insert(t, a, w)[i + 1] == Column(a, w);
    } else {
      assert Insert(t, a, w)[0] == Column(a, w);
    }
  }
}
