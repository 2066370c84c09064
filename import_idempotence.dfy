/**
 * Re-importing a file changes nothing, and within one file the last row for
 * a key wins. The proof follows each row to the paint and the owned entry
 * it updates: a first import leaves every paint and entry "settled" with
 * respect to the rows routed to it, and an import that creates nothing
 * updates every paint and entry by folding exactly those rows into it.
 * These results are about the import with the intended upsert
 * (`ImportCSV.UpsertPaint`); read literally, a second import can still
 * change the store (`ImportCSV.AsWrittenReimportChanges`).
 */
module ImportIdempotence {
  import opened Wrappers
  import opened Seqs
  import opened PaintModel
  import opened InventoryItemModel
  import opened StoreModel
  import opened ImportText
  import opened ImportCSV

  // ---------------------------------------------------------------------
  // Routing rows to paints and entries

  /** The rows whose key a lookup in `ps` resolves to position `j`. */
  function RowsTo(ps: seq<PaintRec>, rows: seq<Row>, j: nat): (r: seq<Row>)
    ensures forall k :: 0 <= k < |r| ==> FindPaint(ps, RowKey(r[k])) == Some(j)
  {
    if rows == [] then []
    else
      var last := rows[|rows| - 1];
      RowsTo(ps, rows[..|rows| - 1], j) + (if FindPaint(ps, RowKey(last)) == Some(j) then [last] else [])
  }

  /** The rows with a positive quantity whose owned-entry lookup resolves to
    * position `i`. */
  function QtyRowsTo(db: Db, rows: seq<Row>, i: nat): (r: seq<Row>)
    ensures forall k :: 0 <= k < |r| ==> RoutesTo(db, r[k], i)
  {
    if rows == [] then []
    else
      var last := rows[|rows| - 1];
      QtyRowsTo(db, rows[..|rows| - 1], i) + (if RoutesTo(db, last, i) then [last] else [])
  }

  /** A row with a positive quantity whose owned-entry lookup finds `i`. */
  predicate RoutesTo(db: Db, row: Row, i: nat) {
    PositiveQuantity(row).Some? && FindItem(db, RowKey(row), RawValue(Owned)) == Some(i)
  }

  /** Every row's merge in turn. */
  function MergeAll(p: PaintRec, rows: seq<Row>): PaintRec {
    if rows == [] then p else Merge(MergeAll(p, rows[..|rows| - 1]), rows[|rows| - 1])
  }

  /** Every row's quantity in turn. */
  function QtyAll(it: ItemRec, rows: seq<Row>): (r: ItemRec)
    ensures r == it.(quantity := r.quantity)
  {
    if rows == [] then it
    else
      var prev := QtyAll(it, rows[..|rows| - 1]);
      match PositiveQuantity(rows[|rows| - 1])
      case Some(q) => prev.(quantity := q)
      case None => prev
  }

  /** The barcode of the last row that supplies a non-empty one, else `dflt`. */
  function LastBarcode(rows: seq<Row>, dflt: Option<string>): Option<string> {
    if rows == [] then dflt
    else
      var last := rows[|rows| - 1];
      if last.barcode.Some? && last.barcode.value != "" then last.barcode
      else LastBarcode(rows[..|rows| - 1], dflt)
  }

  /** Every row of the file finds its paint. */
  ghost predicate PaintsCovered(db: Db, rows: seq<Row>) {
    forall k :: 0 <= k < |rows| ==> FindPaint(db.paints, RowKey(rows[k])).Some?
  }

  /** Every row with a positive quantity finds its owned entry. */
  ghost predicate ItemsCovered(db: Db, rows: seq<Row>) {
    forall k :: 0 <= k < |rows| && PositiveQuantity(rows[k]).Some? ==>
      FindItem(db, RowKey(rows[k]), RawValue(Owned)).Some?
  }

  /** An import of the rows into `db` creates nothing. */
  ghost predicate Covered(db: Db, rows: seq<Row>) {
    PaintsCovered(db, rows) && ItemsCovered(db, rows)
  }

  /** Folding its rows into a paint again changes nothing. */
  ghost predicate PaintsSettled(db: Db, rows: seq<Row>) {
    forall j :: 0 <= j < |db.paints| ==> MergeAll(db.paints[j], RowsTo(db.paints, rows, j)) == db.paints[j]
  }

  /** Folding its rows into an entry again changes nothing. */
  ghost predicate ItemsSettled(db: Db, rows: seq<Row>) {
    forall i :: 0 <= i < |db.items| ==> QtyAll(db.items[i], QtyRowsTo(db, rows, i)) == db.items[i]
  }

  ghost predicate Settled(db: Db, rows: seq<Row>) {
    PaintsSettled(db, rows) && ItemsSettled(db, rows)
  }

  /** `x`'s paints are `base`'s with the rows routed to each folded in. */
  ghost predicate DescribesPaints(base: Db, rows: seq<Row>, x: Db) {
    |x.paints| == |base.paints| &&
    forall j :: 0 <= j < |base.paints| ==> x.paints[j] == MergeAll(base.paints[j], RowsTo(base.paints, rows, j))
  }

  /** `x`'s entries are `base`'s with the rows routed to each folded in. */
  ghost predicate DescribesItems(base: Db, rows: seq<Row>, x: Db) {
    |x.items| == |base.items| &&
    forall i :: 0 <= i < |base.items| ==> x.items[i] == QtyAll(base.items[i], QtyRowsTo(base, rows, i))
  }

  ghost predicate Describes(base: Db, rows: seq<Row>, x: Db) {
    x.nextId == base.nextId && DescribesPaints(base, rows, x) && DescribesItems(base, rows, x)
  }

  /** `y` keeps every item of `x` at its position, with its status and the
    * key of its paint, and may have appended more. */
  ghost predicate ItemsKept(x: Db, y: Db) {
    |y.items| >= |x.items| &&
    forall i :: 0 <= i < |x.items| ==>
      y.items[i].statusRaw == x.items[i].statusRaw && ItemKey(y.paints, y.items[i]) == ItemKey(x.paints, x.items[i])
  }

  // ---------------------------------------------------------------------
  // Lookups

  lemma {:induction false} FindPaintAt(ps: seq<PaintRec>, k: Key, j: nat)
    requires j < |ps| && KeyOf(ps[j]) == k
    requires forall i :: 0 <= i < j ==> KeyOf(ps[i]) != k
    ensures FindPaint(ps, k) == Some(j)
  {
    if j > 0 {
      FindPaintAt(ps[1..], k, j - 1);
    }
  }

  lemma {:induction false} FirstItemAt(ps: seq<PaintRec>, items: seq<ItemRec>, k: Key, s: string, i: nat)
    requires i < |items| && Matches(ps, items[i], k, s)
    requires forall j :: 0 <= j < i ==> !Matches(ps, items[j], k, s)
    ensures FirstItem(ps, items, k, s) == Some(i)
  {
    if i > 0 {
      FirstItemAt(ps, items[1..], k, s, i - 1);
    }
  }

  /** A lookup that succeeds still succeeds, at the same place, in a catalog
    * with the same keys at the same positions that may have grown. */
  lemma FindPaintKept(ps1: seq<PaintRec>, ps2: seq<PaintRec>, k: Key)
    requires FindPaint(ps1, k).Some? && |ps2| >= |ps1|
    requires forall j :: 0 <= j < |ps1| ==> KeyOf(ps2[j]) == KeyOf(ps1[j])
    ensures FindPaint(ps2, k) == FindPaint(ps1, k)
  {
    FindPaintAt(ps2, k, FindPaint(ps1, k).value);
  }

  lemma FindItemKept(db1: Db, db2: Db, k: Key, s: string)
    requires FindItem(db1, k, s).Some? && ItemsKept(db1, db2)
    ensures FindItem(db2, k, s) == FindItem(db1, k, s)
  {
    var i := FindItem(db1, k, s).value;
    assert forall j :: 0 <= j <= i ==> (Matches(db2.paints, db2.items[j], k, s) <==> Matches(db1.paints, db1.items[j], k, s));
    FirstItemAt(db2.paints, db2.items, k, s, i);
  }

  // ---------------------------------------------------------------------
  // Folds

  lemma {:induction false} MergeAllShape(p: PaintRec, rows: seq<Row>)
    ensures MergeAll(p, rows).id == p.id
    ensures MergeAll(p, rows).barcode == LastBarcode(rows, p.barcode)
    ensures (forall k :: 0 <= k < |rows| ==> RowKey(rows[k]) == KeyOf(p)) ==> KeyOf(MergeAll(p, rows)) == KeyOf(p)
    ensures rows != [] ==> var last := rows[|rows| - 1];
      MergeAll(p, rows).name == last.name && TypeOf(MergeAll(p, rows)) == last.ptype
    decreases |rows|
  {
    if rows != [] {
      MergeAllShape(p, rows[..|rows| - 1]);
    }
  }

  /** A settled paint merged with one more row is settled for the longer
    * list: the row's merge is all that remains. */
  lemma Absorb(p: PaintRec, rows: seq<Row>, r: Row)
    requires MergeAll(p, rows) == p
    ensures MergeAll(Merge(p, r), rows + [r]) == Merge(p, r)
  {
    assert (rows + [r])[..|rows|] == rows;
    MergeAllShape(p, rows);
    MergeAllShape(Merge(p, r), rows);
  }

  lemma {:induction false} QtyAllLast(it: ItemRec, rows: seq<Row>)
    requires rows != [] && PositiveQuantity(rows[|rows| - 1]).Some?
    ensures QtyAll(it, rows).quantity == PositiveQuantity(rows[|rows| - 1]).value
  {
  }

  lemma {:induction false} RowsToSame(ps1: seq<PaintRec>, ps2: seq<PaintRec>, rows: seq<Row>, j: nat)
    requires forall k :: 0 <= k < |rows| ==> FindPaint(ps1, RowKey(rows[k])) == FindPaint(ps2, RowKey(rows[k]))
    ensures RowsTo(ps1, rows, j) == RowsTo(ps2, rows, j)
    decreases |rows|
  {
    if rows != [] {
      RowsToSame(ps1, ps2, rows[..|rows| - 1], j);
    }
  }

  lemma {:induction false} QtyRowsToSame(db1: Db, db2: Db, rows: seq<Row>, i: nat)
    requires forall k :: 0 <= k < |rows| && PositiveQuantity(rows[k]).Some? ==>
      FindItem(db1, RowKey(rows[k]), RawValue(Owned)) == FindItem(db2, RowKey(rows[k]), RawValue(Owned))
    ensures QtyRowsTo(db1, rows, i) == QtyRowsTo(db2, rows, i)
    decreases |rows|
  {
    if rows != [] {
      QtyRowsToSame(db1, db2, rows[..|rows| - 1], i);
    }
  }

  lemma RowsToSnoc(ps: seq<PaintRec>, rows: seq<Row>, r: Row, j: nat)
    ensures RowsTo(ps, rows + [r], j) == RowsTo(ps, rows, j) + (if FindPaint(ps, RowKey(r)) == Some(j) then [r] else [])
  {
    assert (rows + [r])[..|rows|] == rows;
  }

  lemma QtyRowsToSnoc(db: Db, rows: seq<Row>, r: Row, i: nat)
    ensures QtyRowsTo(db, rows + [r], i) == QtyRowsTo(db, rows, i) + (if RoutesTo(db, r, i) then [r] else [])
  {
    assert (rows + [r])[..|rows|] == rows;
  }

  lemma MergeAllSnoc(p: PaintRec, rows: seq<Row>, r: Row)
    ensures MergeAll(p, rows + [r]) == Merge(MergeAll(p, rows), r)
  {
    assert (rows + [r])[..|rows|] == rows;
  }

  lemma QtyAllSnoc(it: ItemRec, rows: seq<Row>, r: Row)
    requires PositiveQuantity(r).Some?
    ensures QtyAll(it, rows + [r]) == QtyAll(it, rows).(quantity := PositiveQuantity(r).value)
  {
    assert (rows + [r])[..|rows|] == rows;
  }

  lemma {:induction false} RowsToBeyond(ps: seq<PaintRec>, rows: seq<Row>, j: nat)
    requires j >= |ps|
    ensures RowsTo(ps, rows, j) == []
    decreases |rows|
  {
    if rows != [] {
      RowsToBeyond(ps, rows[..|rows| - 1], j);
    }
  }

  lemma SplitLast<T>(s: seq<T>)
    requires s != []
    ensures s[..|s| - 1] + [s[|s| - 1]] == s
  {
  }

  lemma CoveredPrefix(db: Db, rows: seq<Row>)
    requires rows != [] && Covered(db, rows)
    ensures Covered(db, rows[..|rows| - 1])
  {
  }

  // ---------------------------------------------------------------------
  // A re-import: nothing is created, every paint and entry takes its fold

  lemma DescribesStart(base: Db)
    ensures Describes(base, [], base)
  {
    forall j | 0 <= j < |base.paints| ensures RowsTo(base.paints, [], j) == [] { }
    forall i | 0 <= i < |base.items| ensures QtyRowsTo(base, [], i) == [] { }
  }

  lemma PaintsShape(base: Db, rows: seq<Row>, x: Db)
    requires DescribesPaints(base, rows, x)
    ensures SamePaints(x.paints, base.paints)
  {
    forall j | 0 <= j < |base.paints|
      ensures x.paints[j].id == base.paints[j].id && KeyOf(x.paints[j]) == KeyOf(base.paints[j])
    {
      MergeAllShape(base.paints[j], RowsTo(base.paints, rows, j));
    }
  }

  lemma ItemsShape(base: Db, rows: seq<Row>, x: Db)
    requires DescribesItems(base, rows, x) && SamePaints(x.paints, base.paints)
    ensures ItemsKept(base, x)
    ensures forall i :: 0 <= i < |x.items| ==> x.items[i] == base.items[i].(quantity := x.items[i].quantity)
  {
    forall i | 0 <= i < |base.items| ensures ItemKey(x.paints, x.items[i]) == ItemKey(base.paints, base.items[i]) {
      ItemKeySame(x.paints, base.paints, x.items[i]);
    }
  }

  lemma ReplayPaints(base: Db, rows: seq<Row>, r: Row, x: Db)
    requires DescribesPaints(base, rows, x)
    requires FindPaint(base.paints, RowKey(r)).Some?
    ensures var u := UpsertPaint(x, r);
      u.at == FindPaint(base.paints, RowKey(r)).value && u.db.nextId == x.nextId && u.db.items == x.items &&
      DescribesPaints(base, rows + [r], u.db)
  {
    var k := RowKey(r);
    var j0 := FindPaint(base.paints, k).value;
    PaintsShape(base, rows, x);
    FindPaintAt(x.paints, k, j0);
    var u := UpsertPaint(x, r);
    assert u.at == j0;
    forall j | 0 <= j < |base.paints|
      ensures u.db.paints[j] == MergeAll(base.paints[j], RowsTo(base.paints, rows + [r], j))
    {
      RowsToSnoc(base.paints, rows, r, j);
      if j == j0 {
        MergeAllSnoc(base.paints[j], RowsTo(base.paints, rows, j), r);
      } else {
        assert RowsTo(base.paints, rows + [r], j) == RowsTo(base.paints, rows, j);
      }
    }
  }

  /** A re-imported row with a positive quantity finds the entry the base
    * state's lookup finds, and sets its quantity. */
  lemma ReplayOwnedStep(base: Db, rows: seq<Row>, r: Row, st: ImportState, now: int)
    requires DescribesItems(base, rows, st.db) && SamePaints(UpsertPaint(st.db, r).db.paints, base.paints)
    requires UpsertPaint(st.db, r).db.items == st.db.items
    requires PositiveQuantity(r).Some? && FindItem(base, RowKey(r), RawValue(Owned)).Some?
    ensures var u := UpsertPaint(st.db, r).db;
      ImportRow(st, r, now).db ==
        ReplaceQuantity(u, FindItem(base, RowKey(r), RawValue(Owned)).value, PositiveQuantity(r).value)
  {
    var u := UpsertPaint(st.db, r).db;
    var k := RowKey(r);
    ItemsShape(base, rows, u);
    FindItemKept(base, u, k, RawValue(Owned));
  }

  /** Setting the quantity of the entry a positive row routes to folds that
    * row into exactly that entry. */
  lemma ReplayItemsSet(base: Db, rows: seq<Row>, r: Row, items: seq<ItemRec>)
    requires DescribesItems(base, rows, base.(items := items))
    requires PositiveQuantity(r).Some? && FindItem(base, RowKey(r), RawValue(Owned)).Some?
    ensures var i0 := FindItem(base, RowKey(r), RawValue(Owned)).value;
      var ys := items[i0 := items[i0].(quantity := PositiveQuantity(r).value)];
      forall i :: 0 <= i < |base.items| ==> ys[i] == QtyAll(base.items[i], QtyRowsTo(base, rows + [r], i))
  {
    var i0 := FindItem(base, RowKey(r), RawValue(Owned)).value;
    var ys := items[i0 := items[i0].(quantity := PositiveQuantity(r).value)];
    forall i | 0 <= i < |base.items|
      ensures ys[i] == QtyAll(base.items[i], QtyRowsTo(base, rows + [r], i))
    {
      QtyRowsToSnoc(base, rows, r, i);
      if i == i0 {
        QtyAllSnoc(base.items[i], QtyRowsTo(base, rows, i), r);
      }
    }
  }

  /** A row without a positive quantity is routed to no entry. */
  lemma ReplayItemsSkip(base: Db, rows: seq<Row>, r: Row)
    requires PositiveQuantity(r).None?
    ensures forall i :: 0 <= i < |base.items| ==> QtyRowsTo(base, rows + [r], i) == QtyRowsTo(base, rows, i)
  {
    forall i | 0 <= i < |base.items| ensures QtyRowsTo(base, rows + [r], i) == QtyRowsTo(base, rows, i) {
      QtyRowsToSnoc(base, rows, r, i);
    }
  }

  lemma ReplayItems(base: Db, rows: seq<Row>, r: Row, st: ImportState, now: int)
    requires DescribesPaints(base, rows, st.db) && DescribesItems(base, rows, st.db)
    requires FindPaint(base.paints, RowKey(r)).Some?
    requires PositiveQuantity(r).Some? ==> FindItem(base, RowKey(r), RawValue(Owned)).Some?
    ensures var y := ImportRow(st, r, now).db;
      y.paints == UpsertPaint(st.db, r).db.paints && y.nextId == st.db.nextId && DescribesItems(base, rows + [r], y)
  {
    var x := st.db;
    ReplayPaints(base, rows, r, x);
    var u := UpsertPaint(x, r);
    PaintsShape(base, rows + [r], u.db);
    var y := ImportRow(st, r, now).db;
    assert DescribesItems(base, rows, base.(items := x.items));
    if PositiveQuantity(r).Some? {
      ReplayOwnedStep(base, rows, r, st, now);
      ReplayItemsSet(base, rows, r, x.items);
    } else {
      ReplayItemsSkip(base, rows, r);
    }
  }

  lemma ReplayStep(base: Db, init: seq<Row>, r: Row, st: ImportState, now: int)
    requires Covered(base, init + [r])
    requires Describes(base, init, st.db)
    ensures Describes(base, init + [r], ImportRow(st, r, now).db)
  {
    assert (init + [r])[|init|] == r;
    ReplayPaints(base, init, r, st.db);
    ReplayItems(base, init, r, st, now);
  }

  /** Importing rows into a state where every row finds its paint and entry
    * folds exactly the routed rows into each paint and entry. */
  lemma {:induction false} Replay(base: Db, rows: seq<Row>, rep: ImportReport, now: int)
    requires Covered(base, rows)
    ensures Describes(base, rows, ApplyRows(ImportState(base, rep), rows, now).db)
    decreases |rows|
  {
    if rows == [] {
      DescribesStart(base);
    } else {
      var init, r := rows[..|rows| - 1], rows[|rows| - 1];
      SplitLast(rows);
      CoveredPrefix(base, rows);
      Replay(base, init, rep, now);
      ReplayStep(base, init, r, ApplyRows(ImportState(base, rep), init, now), now);
    }
  }

  // ---------------------------------------------------------------------
  // A first import: it leaves every paint and entry settled

  /** The paint step keeps every paint's key and every item's key. */
  lemma UpsertPaintKeepsLookups(x: Db, r: Row)
    requires WellFormed(x)
    ensures var u := UpsertPaint(x, r).db;
      |u.paints| >= |x.paints| &&
      (forall j :: 0 <= j < |x.paints| ==> KeyOf(u.paints[j]) == KeyOf(x.paints[j])) &&
      (forall i :: 0 <= i < |x.items| ==> ItemKey(u.paints, x.items[i]) == ItemKey(x.paints, x.items[i]))
  {
    var u := UpsertPaint(x, r).db;
    match FindPaint(x.paints, RowKey(r))
    case Some(j) =>
      assert SamePaints(u.paints, x.paints);
      forall i | 0 <= i < |x.items| ensures ItemKey(u.paints, x.items[i]) == ItemKey(x.paints, x.items[i]) {
        ItemKeySame(u.paints, x.paints, x.items[i]);
      }
    case None =>
      var p := u.paints[|x.paints|];
      assert u.paints == x.paints + [p];
      forall i | 0 <= i < |x.items| ensures ItemKey(u.paints, x.items[i]) == ItemKey(x.paints, x.items[i]) {
        PaintByIdAppend(x.paints, p, x.items[i].paintId);
      }
  }

  /** The paint step keeps every successful paint lookup of the rows. */
  lemma UpsertPaintKeepsRouting(x: Db, rows: seq<Row>, r: Row)
    requires WellFormed(x) && PaintsCovered(x, rows)
    ensures forall m :: 0 <= m < |rows| ==>
      FindPaint(UpsertPaint(x, r).db.paints, RowKey(rows[m])) == FindPaint(x.paints, RowKey(rows[m]))
  {
    UpsertPaintKeepsLookups(x, r);
    forall m | 0 <= m < |rows|
      ensures FindPaint(UpsertPaint(x, r).db.paints, RowKey(rows[m])) == FindPaint(x.paints, RowKey(rows[m]))
    {
      FindPaintKept(x.paints, UpsertPaint(x, r).db.paints, RowKey(rows[m]));
    }
  }

  /** The owned-quantity step changes one entry's quantity or appends one. */
  lemma OwnedStepShape(u: Db, paint: PaintRec, q: int, now: int)
    ensures var y := UpsertOwnedQuantity(u, paint, q, now).db;
      y.paints == u.paints && |y.items| >= |u.items| &&
      forall i :: 0 <= i < |u.items| ==> y.items[i] == u.items[i].(quantity := y.items[i].quantity)
  {
  }

  /** One row keeps every item, with its status and the key of its paint. */
  lemma ImportRowKeepsItems(st: ImportState, r: Row, now: int)
    requires WellFormed(st.db)
    ensures var y := ImportRow(st, r, now).db;
      y.paints == UpsertPaint(st.db, r).db.paints && ItemsKept(st.db, y) &&
      (PositiveQuantity(r).None? ==> y.items == st.db.items)
  {
    var x := st.db;
    var u := UpsertPaint(x, r);
    UpsertPaintKeepsLookups(x, r);
    if PositiveQuantity(r).Some? {
      OwnedStepShape(u.db, u.db.paints[u.at], PositiveQuantity(r).value, now);
    }
  }

  /** With a positive quantity, the row's owned entry afterwards holds it,
    * and every other entry is an old one, unchanged. */
  lemma ImportRowSetsEntry(st: ImportState, r: Row, now: int)
    requires WellFormed(st.db) && PositiveQuantity(r).Some?
    ensures var y := ImportRow(st, r, now).db;
      var f := FindItem(y, RowKey(r), RawValue(Owned));
      f.Some? && y.items[f.value].quantity == PositiveQuantity(r).value &&
      forall i :: 0 <= i < |y.items| && i != f.value ==> i < |st.db.items| && y.items[i] == st.db.items[i]
  {
    UpsertedIsStored(st.db, r);
    StoredRowSetsEntry(st, r, now);
  }

  lemma StoredRowSetsEntry(st: ImportState, r: Row, now: int)
    requires PositiveQuantity(r).Some?
    requires var u := UpsertPaint(st.db, r);
      PaintById(u.db.paints, u.db.paints[u.at].id) == Some(u.db.paints[u.at])
    ensures var y := ImportRow(st, r, now).db;
      var f := FindItem(y, RowKey(r), RawValue(Owned));
      f.Some? && y.items[f.value].quantity == PositiveQuantity(r).value &&
      forall i :: 0 <= i < |y.items| && i != f.value ==> i < |st.db.items| && y.items[i] == st.db.items[i]
  {
    var u := UpsertPaint(st.db, r);
    var paint := u.db.paints[u.at];
    var q := PositiveQuantity(r).value;
    OwnedQuantityIsSet(u.db, paint, q, now);
    assert ImportRow(st, r, now).db == UpsertOwnedQuantity(u.db, paint, q, now).db;
  }

  /** The upserted paint is stored under its identity and has the row's key. */
  lemma UpsertedIsStored(x: Db, r: Row)
    requires WellFormed(x)
    ensures var u := UpsertPaint(x, r);
      PaintById(u.db.paints, u.db.paints[u.at].id) == Some(u.db.paints[u.at]) &&
      KeyOf(u.db.paints[u.at]) == RowKey(r) && u.db.items == x.items
  {
    var u := UpsertPaint(x, r);
    UpsertPaintKeeps(x, r);
    PaintByIdOfStored(u.db.paints, u.db.paints[u.at]);
  }

  /** One paint after one more row, for a state whose paints are settled. */
  /** The paint the row upserts is settled for the longer list. */
  lemma UpsertedPaintSettled(x: Db, rows: seq<Row>, r: Row)
    requires FindPaint(x.paints, RowKey(r)).Some? ==>
      MergeAll(x.paints[UpsertPaint(x, r).at], RowsTo(x.paints, rows, UpsertPaint(x, r).at)) == x.paints[UpsertPaint(x, r).at]
    ensures var u := UpsertPaint(x, r);
      MergeAll(u.db.paints[u.at], RowsTo(x.paints, rows, u.at) + [r]) == u.db.paints[u.at]
  {
    var u := UpsertPaint(x, r);
    if FindPaint(x.paints, RowKey(r)).Some? {
      Absorb(x.paints[u.at], RowsTo(x.paints, rows, u.at), r);
    } else {
      RowsToBeyond(x.paints, rows, u.at);
      Absorb(NewPaint(x.nextId, r.brand, r.range, r.ptype, r.code, r.name), [], r);
    }
  }

  lemma PaintSettledAfter(x: Db, rows: seq<Row>, r: Row, j: nat)
    requires j < |x.paints| ==> MergeAll(x.paints[j], RowsTo(x.paints, rows, j)) == x.paints[j]
    requires forall m :: 0 <= m < |rows| ==>
      FindPaint(UpsertPaint(x, r).db.paints, RowKey(rows[m])) == FindPaint(x.paints, RowKey(rows[m]))
    requires j < |UpsertPaint(x, r).db.paints|
    ensures var ps := UpsertPaint(x, r).db.paints;
      MergeAll(ps[j], RowsTo(ps, rows + [r], j)) == ps[j]
  {
    var u := UpsertPaint(x, r);
    var ps := u.db.paints;
    UpsertPaintFinds(x, r);
    RowsToSnoc(ps, rows, r, j);
    RowsToSame(ps, x.paints, rows, j);
    if j == u.at {
      UpsertedPaintSettled(x, rows, r);
    } else {
      assert RowsTo(ps, rows + [r], j) == RowsTo(x.paints, rows, j);
      assert j < |x.paints| && ps[j] == x.paints[j];
    }
  }

  lemma PaintsStep(st: ImportState, rows: seq<Row>, r: Row, now: int)
    requires WellFormed(st.db) && PaintsCovered(st.db, rows) && PaintsSettled(st.db, rows)
    ensures var y := ImportRow(st, r, now).db;
      PaintsCovered(y, rows + [r]) && PaintsSettled(y, rows + [r])
  {
    var x := st.db;
    var y := ImportRow(st, r, now).db;
    ImportRowKeepsItems(st, r, now);
    UpsertPaintKeepsRouting(x, rows, r);
    UpsertPaintFinds(x, r);
    forall j | 0 <= j < |y.paints| ensures MergeAll(y.paints[j], RowsTo(y.paints, rows + [r], j)) == y.paints[j] {
      PaintSettledAfter(x, rows, r, j);
    }
    forall m | 0 <= m < |rows + [r]| ensures FindPaint(y.paints, RowKey((rows + [r])[m])).Some? {
      if m < |rows| {
        assert (rows + [r])[m] == rows[m];
      }
    }
  }

  /** One entry after one more row, for a state whose entries are settled. */
  lemma ItemSettledAfter(st: ImportState, rows: seq<Row>, r: Row, now: int, i: nat)
    requires WellFormed(st.db)
    requires i < |st.db.items| ==> QtyAll(st.db.items[i], QtyRowsTo(st.db, rows, i)) == st.db.items[i]
    requires QtyRowsTo(ImportRow(st, r, now).db, rows, i) == QtyRowsTo(st.db, rows, i)
    requires i < |ImportRow(st, r, now).db.items|
    ensures var y := ImportRow(st, r, now).db;
      QtyAll(y.items[i], QtyRowsTo(y, rows + [r], i)) == y.items[i]
  {
    var x := st.db;
    var y := ImportRow(st, r, now).db;
    QtyRowsToSnoc(y, rows, r, i);
    if PositiveQuantity(r).Some? {
      ImportRowSetsEntry(st, r, now);
      if i == FindItem(y, RowKey(r), RawValue(Owned)).value {
        QtyAllSnoc(y.items[i], QtyRowsTo(x, rows, i), r);
      } else {
        assert !RoutesTo(y, r, i);
        assert i < |x.items| && y.items[i] == x.items[i];
      }
    } else {
      ImportRowKeepsItems(st, r, now);
      assert !RoutesTo(y, r, i);
    }
  }

  lemma ItemsStep(st: ImportState, rows: seq<Row>, r: Row, now: int)
    requires WellFormed(st.db) && ItemsCovered(st.db, rows) && ItemsSettled(st.db, rows)
    ensures var y := ImportRow(st, r, now).db;
      ItemsCovered(y, rows + [r]) && ItemsSettled(y, rows + [r])
  {
    var x := st.db;
    var y := ImportRow(st, r, now).db;
    ImportRowKeepsItems(st, r, now);
    forall m | 0 <= m < |rows| && PositiveQuantity(rows[m]).Some?
      ensures FindItem(y, RowKey(rows[m]), RawValue(Owned)) == FindItem(x, RowKey(rows[m]), RawValue(Owned))
    {
      FindItemKept(x, y, RowKey(rows[m]), RawValue(Owned));
    }
    forall i | 0 <= i < |y.items| ensures QtyAll(y.items[i], QtyRowsTo(y, rows + [r], i)) == y.items[i] {
      QtyRowsToSame(y, x, rows, i);
      ItemSettledAfter(st, rows, r, now, i);
    }
    if PositiveQuantity(r).Some? {
      ImportRowSetsEntry(st, r, now);
    }
    forall m | 0 <= m < |rows + [r]| && PositiveQuantity((rows + [r])[m]).Some?
      ensures FindItem(y, RowKey((rows + [r])[m]), RawValue(Owned)).Some?
    {
      if m < |rows| {
        assert (rows + [r])[m] == rows[m];
      }
    }
  }

  lemma SettledStart(db: Db)
    ensures Covered(db, []) && Settled(db, [])
  {
    forall j | 0 <= j < |db.paints| ensures RowsTo(db.paints, [], j) == [] { }
    forall i | 0 <= i < |db.items| ensures QtyRowsTo(db, [], i) == [] { }
  }

  /** After a first import every row finds its paint and entry, and every
    * paint and entry is settled with respect to its rows. */
  lemma {:induction false} FirstRun(db: Db, rows: seq<Row>, rep: ImportReport, now: int)
    requires WellFormed(db)
    ensures var x := ApplyRows(ImportState(db, rep), rows, now).db;
      WellFormed(x) && Covered(x, rows) && Settled(x, rows)
    decreases |rows|
  {
    if rows == [] {
      SettledStart(db);
    } else {
      var init, r := rows[..|rows| - 1], rows[|rows| - 1];
      SplitLast(rows);
      FirstRun(db, init, rep, now);
      FirstRunStep(ApplyRows(ImportState(db, rep), init, now), init, r, now);
    }
  }

  lemma FirstRunStep(st: ImportState, init: seq<Row>, r: Row, now: int)
    requires WellFormed(st.db) && Covered(st.db, init) && Settled(st.db, init)
    ensures var y := ImportRow(st, r, now).db;
      WellFormed(y) && Covered(y, init + [r]) && Settled(y, init + [r])
  {
    ImportRowKeeps(st, r, now);
    PaintsStep(st, init, r, now);
    ItemsStep(st, init, r, now);
  }

  lemma SettledIsFixed(x: Db, rows: seq<Row>, y: Db)
    requires Settled(x, rows) && Describes(x, rows, y)
    ensures y == x
  {
    assert y.paints == x.paints;
    assert y.items == x.items;
  }
  // ---------------------------------------------------------------------
  // The properties

  /** Importing the same rows again leaves the store as the first import
    * left it. */
  lemma RowsIdempotent(db: Db, rows: seq<Row>, rep1: ImportReport, rep2: ImportReport, now1: int, now2: int)
    requires WellFormed(db)
    ensures var x := ApplyRows(ImportState(db, rep1), rows, now1).db;
      ApplyRows(ImportState(x, rep2), rows, now2).db == x
  {
    var x := ApplyRows(ImportState(db, rep1), rows, now1).db;
    FirstRun(db, rows, rep1, now1);
    Replay(x, rows, rep2, now2);
    SettledIsFixed(x, rows, ApplyRows(ImportState(x, rep2), rows, now2).db);
  }

  /** Re-importing a file that imported without error changes nothing and
    * reports the same counts, whatever the clock says. */
  lemma ReimportChangesNothing(db: Db, csv: string, now1: int, now2: int)
    requires WellFormed(db) && ImportCatalog(db, csv, now1).Success?
    ensures var st := ImportCatalog(db, csv, now1).value;
      ImportCatalog(st.db, csv, now2) == Success(st)
  {
    var lines := Lines(csv);
    if lines != [] {
      var rows := DecodeRows(lines[1..], ReadHeader(lines[0]));
      var zero := ImportReport(0, 0);
      RowsIdempotent(db, rows, zero, zero, now1, now2);
      var x := ApplyRows(ImportState(db, zero), rows, now1).db;
    }
  }

  lemma RowsToLast(ps: seq<PaintRec>, rows: seq<Row>, j: nat, m: nat)
    requires m < |rows| && FindPaint(ps, RowKey(rows[m])) == Some(j)
    requires forall n :: m < n < |rows| ==> RowKey(rows[n]) != RowKey(rows[m])
    ensures RowsTo(ps, rows, j) != [] && RowsTo(ps, rows, j)[|RowsTo(ps, rows, j)| - 1] == rows[m]
  {
    var p := (r: Row) => FindPaint(ps, RowKey(r)) == Some(j);
    RowsToIsFilter(ps, rows, j);
    forall n | m < n < |rows| ensures !p(rows[n]) {
      OtherKeyOtherPaint(ps, RowKey(rows[n]), RowKey(rows[m]));
    }
    FilterLast(rows, p, m);
  }

  /** `RowsTo` is the filter of the rows that route to `j`. */
  lemma {:induction false} RowsToIsFilter(ps: seq<PaintRec>, rows: seq<Row>, j: nat)
    ensures RowsTo(ps, rows, j) == Filter(rows, (r: Row) => FindPaint(ps, RowKey(r)) == Some(j))
    decreases |rows|
  {
    if rows != [] {
      var init, last := rows[..|rows| - 1], rows[|rows| - 1];
      RowsToIsFilter(ps, init, j);
      assert rows == init + [last];
      RowsToSnoc(ps, init, last, j);
      FilterAppend(init, last, (r: Row) => FindPaint(ps, RowKey(r)) == Some(j));
    }
  }

  /** Two keys found at the same position are the same key. */
  lemma OtherKeyOtherPaint(ps: seq<PaintRec>, k1: Key, k2: Key)
    requires k1 != k2 && FindPaint(ps, k2).Some?
    ensures FindPaint(ps, k1) != FindPaint(ps, k2)
  {
  }

  /** One entry is the first match of one key only. */
  lemma SameEntrySameKey(db: Db, k1: Key, k2: Key, i: nat)
    ensures FindItem(db, k1, RawValue(Owned)) == Some(i) && FindItem(db, k2, RawValue(Owned)) == Some(i) ==> k1 == k2
  {
  }

  lemma QtyRowsToLast(db: Db, rows: seq<Row>, i: nat, m: nat)
    requires m < |rows| && RoutesTo(db, rows[m], i)
    requires forall n :: m < n < |rows| ==> !RoutesTo(db, rows[n], i)
    ensures QtyRowsTo(db, rows, i) != [] && QtyRowsTo(db, rows, i)[|QtyRowsTo(db, rows, i)| - 1] == rows[m]
  {
    var p := (r: Row) => RoutesTo(db, r, i);
    QtyRowsToIsFilter(db, rows, i);
    FilterLast(rows, p, m);
  }

  /** `QtyRowsTo` is the filter of the rows that route to `i`. */
  lemma {:induction false} QtyRowsToIsFilter(db: Db, rows: seq<Row>, i: nat)
    ensures QtyRowsTo(db, rows, i) == Filter(rows, (r: Row) => RoutesTo(db, r, i))
    decreases |rows|
  {
    if rows != [] {
      var init, last := rows[..|rows| - 1], rows[|rows| - 1];
      QtyRowsToIsFilter(db, init, i);
      assert rows == init + [last];
      QtyRowsToSnoc(db, init, last, i);
      FilterAppend(init, last, (r: Row) => RoutesTo(db, r, i));
    }
  }

  /** Within one import the last row for a key decides the paint's name and
    * type, and the last row with a positive quantity decides the owned
    * entry's quantity. */
  lemma LastRowWins(db: Db, rows: seq<Row>, rep: ImportReport, now: int, m: nat)
    requires WellFormed(db) && m < |rows|
    requires forall n :: m < n < |rows| ==> RowKey(rows[n]) != RowKey(rows[m])
    ensures var x := ApplyRows(ImportState(db, rep), rows, now).db;
      var j := FindPaint(x.paints, RowKey(rows[m]));
      j.Some? && x.paints[j.value].name == rows[m].name && TypeOf(x.paints[j.value]) == rows[m].ptype
  {
    var x := ApplyRows(ImportState(db, rep), rows, now).db;
    FirstRun(db, rows, rep, now);
    var j := FindPaint(x.paints, RowKey(rows[m])).value;
    RowsToLast(x.paints, rows, j, m);
    MergeAllShape(x.paints[j], RowsTo(x.paints, rows, j));
  }

  lemma LastQuantityWins(db: Db, rows: seq<Row>, rep: ImportReport, now: int, m: nat)
    requires WellFormed(db) && m < |rows| && PositiveQuantity(rows[m]).Some?
    requires forall n :: m < n < |rows| && PositiveQuantity(rows[n]).Some? ==> RowKey(rows[n]) != RowKey(rows[m])
    ensures var x := ApplyRows(ImportState(db, rep), rows, now).db;
      var i := FindItem(x, RowKey(rows[m]), RawValue(Owned));
      i.Some? && x.items[i.value].quantity == PositiveQuantity(rows[m]).value
  {
    var x := ApplyRows(ImportState(db, rep), rows, now).db;
    FirstRun(db, rows, rep, now);
    var i := FindItem(x, RowKey(rows[m]), RawValue(Owned)).value;
    assert QtyAll(x.items[i], QtyRowsTo(x, rows, i)) == x.items[i];
    SettledQuantityIsLast(x, rows, i, m);
  }

  /** An entry its rows leave as it is holds the quantity of the last row
    * routed to it. */
  lemma SettledQuantityIsLast(x: Db, rows: seq<Row>, i: nat, m: nat)
    requires m < |rows| && PositiveQuantity(rows[m]).Some?
    requires forall n :: m < n < |rows| && PositiveQuantity(rows[n]).Some? ==> RowKey(rows[n]) != RowKey(rows[m])
    requires FindItem(x, RowKey(rows[m]), RawValue(Owned)) == Some(i) && i < |x.items|
    requires QtyAll(x.items[i], QtyRowsTo(x, rows, i)) == x.items[i]
    ensures x.items[i].quantity == PositiveQuantity(rows[m]).value
  {
    forall n | m < n < |rows| ensures !RoutesTo(x, rows[n], i) {
      SameEntrySameKey(x, RowKey(rows[n]), RowKey(rows[m]), i);
    }
    QtyRowsToLast(x, rows, i, m);
    QtyAllLast(x.items[i], QtyRowsTo(x, rows, i));
  }
}
