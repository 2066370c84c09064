/**
 * The store side of `importCatalogCSV`: each data row upserts its paint by
 * identity key with the import's merge policy, then, when the row carries a
 * positive `collectionQuantity`, sets the owned entry's quantity to exactly
 * that value. Two counters report what was done.
 */
module ImportCSV {
  import opened Wrappers
  import opened Text
  import opened CsvLine
  import opened PaintModel
  import opened InventoryItemModel
  import opened StoreModel
  import opened ImportText

  datatype ImportReport = ImportReport(paintsUpserted: nat, collectionUpdated: nat)

  datatype ImportError = MissingColumn(column: string)

  /** `errorDescription` of `ImportError`. */
  function ErrorDescription(e: ImportError): (msg: string)
    ensures msg == "Missing required column: " + e.column
    ensures msg[..|"Missing required column: "|] == "Missing required column: "
  {
    "Missing required column: " + e.column
  }

  // ---------------------------------------------------------------------
  // One row

  /** The import's merge policy (ImportCSVView.swift:177-184): brand, range,
    * type, code and name are overwritten; the barcode only when the row
    * supplies a non-empty one. */
  function Merge(p: PaintRec, row: Row): (r: PaintRec)
    ensures r.id == p.id && KeyOf(r) == RowKey(row)
    ensures BrandOf(r) == row.brand && TypeOf(r) == row.ptype && r.name == row.name
    ensures row.barcode.Some? && row.barcode.value != "" ==> r.barcode == row.barcode
    ensures !(row.barcode.Some? && row.barcode.value != "") ==> r.barcode == p.barcode
  {
    BrandRoundTrip(row.brand);
    TypeRoundTrip(row.ptype);
    p.(brandRaw := BrandRaw(row.brand), range := row.range, typeRaw := TypeRaw(row.ptype),
       code := row.code, name := row.name,
       barcode := if row.barcode.Some? && row.barcode.value != "" then row.barcode else p.barcode)
  }

  /** Merging the same row twice is merging it once. */
  lemma MergeIdempotent(p: PaintRec, row: Row)
    ensures Merge(Merge(p, row), row) == Merge(p, row)
  {
  }

  /** The state after a paint upsert and the position of the paint. */
  datatype Upserted = Upserted(db: Db, at: nat)

  /** Lines 168-184 as intended: the first paint with the row's key, or a new
    * one that is inserted, is the one the row's fields are merged into. A new
    * paint is built with a nil barcode. As written, the insertion guard at
    * line 172 never holds (`UpsertPaintAsWritten`); the import results below
    * are about this intended upsert. */
  function UpsertPaint(db: Db, row: Row): (u: Upserted)
    ensures u.at < |u.db.paints| && KeyOf(u.db.paints[u.at]) == RowKey(row)
    ensures u.db.items == db.items
    ensures |u.db.paints| == |db.paints| + (if FindPaint(db.paints, RowKey(row)).Some? then 0 else 1)
    ensures forall j :: 0 <= j < |db.paints| && j != u.at ==> u.db.paints[j] == db.paints[j]
    ensures FindPaint(db.paints, RowKey(row)).Some? ==>
      u.at == FindPaint(db.paints, RowKey(row)).value && u.db.paints[u.at] == Merge(db.paints[u.at], row) &&
      u.db.nextId == db.nextId
    ensures FindPaint(db.paints, RowKey(row)).None? ==>
      u.at == |db.paints| && u.db.paints[u.at].id == db.nextId && u.db.nextId == db.nextId + 1 &&
      u.db.paints[u.at] == Merge(NewPaint(db.nextId, row.brand, row.range, row.ptype, row.code, row.name), row)
  {
    match FindPaint(db.paints, RowKey(row))
    case Some(j) => Upserted(ReplacePaint(db, j, Merge(db.paints[j], row)), j)
    case None =>
      var p := NewPaint(db.nextId, row.brand, row.range, row.ptype, row.code, row.name);
      Upserted(InsertPaintInto(db, Merge(p, row)), |db.paints|)
  }

  /** The upserted paint is the one a lookup by the row's key now finds. */
  lemma UpsertPaintFinds(db: Db, row: Row)
    ensures FindPaint(UpsertPaint(db, row).db.paints, RowKey(row)) == Some(UpsertPaint(db, row).at)
  {
    var u := UpsertPaint(db, row);
    var k := RowKey(row);
    assert forall j :: 0 <= j < u.at ==> u.db.paints[j] == db.paints[j];
  }

  lemma UpsertPaintKeeps(db: Db, row: Row)
    requires WellFormed(db)
    ensures WellFormed(UpsertPaint(db, row).db)
  {
    match FindPaint(db.paints, RowKey(row))
    case Some(j) => ReplacePaintKeeps(db, j, Merge(db.paints[j], row));
    case None =>
      var p := NewPaint(db.nextId, row.brand, row.range, row.ptype, row.code, row.name);
      InsertPaintKeeps(db, Merge(p, row));
  }

  /** The result of `upsertOwnedQuantity(paint:quantity:)`. */
  datatype Updated = Updated(db: Db, updated: bool)

  /** Lines 214-237: the first owned entry for the paint's key gets exactly
    * `quantity`; without one, an owned entry with that quantity and nil notes
    * is inserted. Either branch reports `true`. */
  function UpsertOwnedQuantity(db: Db, paint: PaintRec, quantity: int, now: int): (r: Updated)
    ensures r.updated
    ensures r.db.paints == db.paints
    ensures FindItem(db, KeyOf(paint), RawValue(Owned)).Some? ==>
      var i := FindItem(db, KeyOf(paint), RawValue(Owned)).value;
      r.db == ReplaceQuantity(db, i, quantity)
    ensures FindItem(db, KeyOf(paint), RawValue(Owned)).None? ==>
      r.db.items == db.items + [ItemRec(db.nextId, paint.id, "owned", quantity, None, now)] &&
      r.db.nextId == db.nextId + 1
  {
    match FindItem(db, KeyOf(paint), RawValue(Owned))
    case Some(i) => Updated(ReplaceQuantity(db, i, quantity), true)
    case None =>
      var item := NewItem(db.nextId, paint.id, Owned, now, quantity);
      Updated(InsertItemInto(db, item), true)
  }

  /** For a stored paint, afterwards the owned entry a lookup finds holds
    * exactly `quantity`. */
  lemma OwnedQuantityIsSet(db: Db, paint: PaintRec, quantity: int, now: int)
    requires PaintById(db.paints, paint.id) == Some(paint)
    ensures var r := UpsertOwnedQuantity(db, paint, quantity, now);
      var f := FindItem(r.db, KeyOf(paint), RawValue(Owned));
      f.Some? && r.db.items[f.value].quantity == quantity &&
      forall i :: 0 <= i < |r.db.items| && i != f.value ==> i < |db.items| && r.db.items[i] == db.items[i]
  {
    var k, raw := KeyOf(paint), RawValue(Owned);
    var r := UpsertOwnedQuantity(db, paint, quantity, now);
    match FindItem(db, k, raw)
    case Some(i) =>
      assert Matches(r.db.paints, r.db.items[i], k, raw);
      assert forall j :: 0 <= j < i ==> r.db.items[j] == db.items[j];
    case None =>
      var n := |db.items|;
      assert Matches(r.db.paints, r.db.items[n], k, raw);
      assert forall j :: 0 <= j < n ==> r.db.items[j] == db.items[j];
  }

  lemma UpsertOwnedQuantityKeeps(db: Db, paint: PaintRec, quantity: int, now: int)
    requires WellFormed(db) && PaintById(db.paints, paint.id).Some?
    ensures WellFormed(UpsertOwnedQuantity(db, paint, quantity, now).db)
  {
    match FindItem(db, KeyOf(paint), RawValue(Owned))
    case Some(i) => ReplaceQuantityKeeps(db, i, quantity);
    case None => InsertItemKeeps(db, NewItem(db.nextId, paint.id, Owned, now, quantity));
  }

  /** The store and the counters between rows. */
  datatype ImportState = ImportState(db: Db, report: ImportReport)

  /** One pass of the loop body at ImportCSVView.swift:152-195. */
  function ImportRow(st: ImportState, row: Row, now: int): (r: ImportState)
    ensures r.report.paintsUpserted == st.report.paintsUpserted + 1
    ensures r.report.collectionUpdated ==
      st.report.collectionUpdated + (if PositiveQuantity(row).Some? then 1 else 0)
  {
    var u := UpsertPaint(st.db, row);
    var upserted := st.report.paintsUpserted + 1;
    match PositiveQuantity(row)
    case None => ImportState(u.db, ImportReport(upserted, st.report.collectionUpdated))
    case Some(q) =>
      var o := UpsertOwnedQuantity(u.db, u.db.paints[u.at], q, now);
      ImportState(o.db, ImportReport(upserted, st.report.collectionUpdated + if o.updated then 1 else 0))
  }

  /** The rows in file order, each applied to the state the previous one
    * left. `paintsUpserted` counts every data row; `collectionUpdated` the
    * rows whose quantity is positive, because the upsert always reports
    * `true`. */
  function ApplyRows(st: ImportState, rows: seq<Row>, now: int): (r: ImportState)
    ensures r.report ==
      ImportReport(st.report.paintsUpserted + |rows|, st.report.collectionUpdated + CountPositive(rows))
    decreases |rows|
  {
    if rows == [] then st
    else ImportRow(ApplyRows(st, rows[..|rows| - 1], now), rows[|rows| - 1], now)
  }

  /** The number of rows with a positive quantity. */
  function CountPositive(rows: seq<Row>): (n: nat)
    ensures n <= |rows|
  {
    if rows == [] then 0
    else CountPositive(rows[..|rows| - 1]) + (if PositiveQuantity(rows[|rows| - 1]).Some? then 1 else 0)
  }

  lemma {:induction false} ImportRowKeeps(st: ImportState, row: Row, now: int)
    requires WellFormed(st.db)
    ensures WellFormed(ImportRow(st, row, now).db)
  {
    var u := UpsertPaint(st.db, row);
    UpsertPaintKeeps(st.db, row);
    if PositiveQuantity(row).Some? {
      var paint := u.db.paints[u.at];
      PaintByIdOfStored(u.db.paints, paint);
      UpsertOwnedQuantityKeeps(u.db, paint, PositiveQuantity(row).value, now);
    }
  }

  lemma {:induction false} ApplyRowsKeeps(st: ImportState, rows: seq<Row>, now: int)
    requires WellFormed(st.db)
    ensures WellFormed(ApplyRows(st, rows, now).db)
    decreases |rows|
  {
    if rows != [] {
      ApplyRowsKeeps(st, rows[..|rows| - 1], now);
      ImportRowKeeps(ApplyRows(st, rows[..|rows| - 1], now), rows[|rows| - 1], now);
    }
  }

  lemma ApplyRowsSnoc(st: ImportState, rows: seq<Row>, row: Row, now: int)
    ensures ApplyRows(st, rows + [row], now) == ImportRow(ApplyRows(st, rows, now), row, now)
  {
    assert (rows + [row])[..|rows|] == rows;
  }

  lemma DecodeRowsSnoc(lines: seq<string>, k: nat, h: Header)
    requires k < |lines|
    ensures DecodeRows(lines[..k + 1], h) == DecodeRows(lines[..k], h) + [DecodeRow(lines[k], h.delimiter, h.index)]
  {
    var a := DecodeRows(lines[..k + 1], h);
    var front := DecodeRows(lines[..k], h);
    var b := front + [DecodeRow(lines[k], h.delimiter, h.index)];
    assert |a| == |b|;
    forall i | 0 <= i < |a| ensures a[i] == b[i] {
      assert a[i] == DecodeRow(lines[..k + 1][i], h.delimiter, h.index);
      if i < k {
        assert b[i] == front[i] == DecodeRow(lines[..k][i], h.delimiter, h.index);
      }
    }
  }

  // ---------------------------------------------------------------------
  // The whole file

  /** `importCatalogCSV(_:)`: the new store and the report, or the error.
    * A file without lines changes nothing; an error names a required column
    * the header lacks; a successful import reports one paint per data line
    * and one collection update per line with a positive quantity. */
  function ImportCatalog(db: Db, csv: string, now: int): (r: Result<ImportState, ImportError>)
    ensures Lines(csv) == [] ==> r == Success(ImportState(db, ImportReport(0, 0)))
    ensures r.Failure? ==>
      Lines(csv) != [] && r.error.column in RequiredColumns && r.error.column !in ReadHeader(Lines(csv)[0]).index
    ensures r.Success? && Lines(csv) != [] ==>
      var lines := Lines(csv);
      r.value.report == ImportReport(|lines| - 1, CountPositive(DecodeRows(lines[1..], ReadHeader(lines[0]))))
  {
    var lines := Lines(csv);
    if lines == [] then Success(ImportState(db, ImportReport(0, 0)))
    else
      var h := ReadHeader(lines[0]);
      match FirstMissingColumn(h.index)
      case Some(c) => Failure(MissingColumn(c))
      case None => Success(ApplyRows(ImportState(db, ImportReport(0, 0)), DecodeRows(lines[1..], h), now))
  }

  /** A file with no non-empty line reports (0, 0) and changes nothing. */
  lemma EmptyFileChangesNothing(db: Db, csv: string, now: int)
    requires forall i :: 0 <= i < |csv| ==> IsBreak(csv[i])
    ensures ImportCatalog(db, csv, now) == Success(ImportState(db, ImportReport(0, 0)))
  {
    NoLinesIff(csv);
  }

  /** A header without a required column fails with that column, the first
    * one missing in the order brand, range, type, manufacturercode, name;
    * otherwise the import succeeds. */
  lemma MissingColumnFails(db: Db, csv: string, now: int)
    requires Lines(csv) != []
    ensures var index := ReadHeader(Lines(csv)[0]).index;
      ImportCatalog(db, csv, now).Failure? <==> exists c :: c in RequiredColumns && c !in index
    ensures var index := ReadHeader(Lines(csv)[0]).index;
      ImportCatalog(db, csv, now).Failure? ==>
      ImportCatalog(db, csv, now).error.column in RequiredColumns &&
      ImportCatalog(db, csv, now).error.column !in index &&
      forall j :: 0 <= j < |RequiredColumns| && RequiredColumns[j] == ImportCatalog(db, csv, now).error.column ==>
        forall i :: 0 <= i < j ==> RequiredColumns[i] in index
  {
    var index := ReadHeader(Lines(csv)[0]).index;
    assert ImportCatalog(db, csv, now) ==
      match FirstMissingColumn(index)
      case Some(c) => Failure(MissingColumn(c))
      case None => Success(ApplyRows(ImportState(db, ImportReport(0, 0)), DecodeRows(Lines(csv)[1..], ReadHeader(Lines(csv)[0])), now));
    MissingColumnComesFirst(index);
  }

  /** Every required column before the one reported is present. */
  lemma MissingColumnComesFirst(index: map<string, nat>)
    ensures FirstMissingColumn(index).Some? ==>
      forall j :: 0 <= j < |RequiredColumns| && RequiredColumns[j] == FirstMissingColumn(index).value ==>
        forall i :: 0 <= i < j ==> RequiredColumns[i] in index
  {
    match FirstMissing(RequiredColumns, index)
    case None =>
    case Some(j0) =>
      forall j | 0 <= j < |RequiredColumns| && RequiredColumns[j] == RequiredColumns[j0]
        ensures forall i :: 0 <= i < j ==> RequiredColumns[i] in index
      {
        assert j == j0;
      }
  }

  lemma ImportKeepsWellFormed(db: Db, csv: string, now: int)
    requires WellFormed(db) && ImportCatalog(db, csv, now).Success?
    ensures WellFormed(ImportCatalog(db, csv, now).value.db)
  {
    var lines := Lines(csv);
    if lines != [] {
      ApplyRowsKeeps(ImportState(db, ImportReport(0, 0)), DecodeRows(lines[1..], ReadHeader(lines[0])), now);
    }
  }

  // ---------------------------------------------------------------------
  // The insertion check as written

  /** Lines 168-174 read literally: `persistentModelID` is never nil, so a
    * paint built because the lookup found nothing is never inserted, and
    * its field updates reach no stored object. */
  function UpsertPaintAsWritten(db: Db, row: Row): (r: Db)
    ensures FindPaint(db.paints, RowKey(row)).None? ==> r == db
  {
    match FindPaint(db.paints, RowKey(row))
    case Some(j) => ReplacePaint(db, j, Merge(db.paints[j], row))
    case None => db
  }

  /** An empty catalog and a row without a quantity: as written, the catalog
    * stays empty although the row is counted as upserted; the model's
    * `UpsertPaint` stores the paint. */
  lemma AsWrittenDropsNewPaint(row: Row)
    requires PositiveQuantity(row).None?
    ensures UpsertPaintAsWritten(Db([], [], 0), row).paints == []
    ensures ImportRow(ImportState(Db([], [], 0), ImportReport(0, 0)), row, 0).report.paintsUpserted == 1
    ensures FindPaint(ImportRow(ImportState(Db([], [], 0), ImportReport(0, 0)), row, 0).db.paints, RowKey(row)).Some?
  {
    UpsertPaintFinds(Db([], [], 0), row);
  }

  /** A whole row read literally. With a stored paint for the key, the
    * literal reading is the model's row step. Without one, the new paint is
    * not inserted at line 173. When the row has a positive quantity, the
    * entry inserted at lines 233-234 refers to that paint, so inserting the
    * entry inserts the paint with it, and the outcome is again the model's
    * row step. Without a positive quantity, the paint and its fields are
    * lost, yet the row is counted. */
  function ImportRowAsWritten(st: ImportState, row: Row, now: int): (r: ImportState)
    ensures r.report == ImportRow(st, row, now).report
  {
    match FindPaint(st.db.paints, RowKey(row))
    case Some(_) => ImportRow(st, row, now)
    case None =>
      match PositiveQuantity(row)
      case Some(_) => ImportRow(st, row, now)
      case None =>
        ImportState(UpsertPaintAsWritten(st.db, row),
                    ImportReport(st.report.paintsUpserted + 1, st.report.collectionUpdated))
  }

  /** The rows in file order, each read literally. */
  function ApplyRowsAsWritten(st: ImportState, rows: seq<Row>, now: int): (r: ImportState)
    ensures r.report ==
      ImportReport(st.report.paintsUpserted + |rows|, st.report.collectionUpdated + CountPositive(rows))
    decreases |rows|
  {
    if rows == [] then st
    else ImportRowAsWritten(ApplyRowsAsWritten(st, rows[..|rows| - 1], now), rows[|rows| - 1], now)
  }

  /** As written, importing the same rows twice is not idempotent. Take an
    * empty store and two rows for one key: the first with barcode "B1" and
    * no quantity, the second with no barcode and quantity 2. The first run
    * loses the first row's paint; the second row's paint, with a nil
    * barcode, reaches the store through its entry. The second run finds
    * that paint and gives it the barcode "B1". */
  lemma AsWrittenReimportChanges()
    ensures var rows := [Row(Vallejo, "R", Base, "C", "N", Some("B1"), None),
                         Row(Vallejo, "R", Base, "C", "N", None, Some("2"))];
      var first := ApplyRowsAsWritten(ImportState(Db([], [], 0), ImportReport(0, 0)), rows, 0);
      var second := ApplyRowsAsWritten(ImportState(first.db, ImportReport(0, 0)), rows, 0);
      |first.db.paints| == 1 && first.db.paints[0].barcode == None &&
      |second.db.paints| == 1 && second.db.paints[0].barcode == Some("B1")
  {
    var r1 := Row(Vallejo, "R", Base, "C", "N", Some("B1"), None);
    var r2 := Row(Vallejo, "R", Base, "C", "N", None, Some("2"));
    var rows := [r1, r2];
    assert rows[..1] == [r1] && [r1][..0] == [];
    TrimOfTrimmed("2");
    ParseDecimal(2);
    assert DecimalString(2) == "2";
    assert PositiveQuantity(r2) == Some(2);
    var empty := ImportState(Db([], [], 0), ImportReport(0, 0));
    var a := ImportRowAsWritten(empty, r1, 0);
    assert a.db == Db([], [], 0);
    var first := ImportRowAsWritten(a, r2, 0);
    assert ApplyRowsAsWritten(empty, [r1], 0) == a;
    assert first == ApplyRowsAsWritten(empty, rows, 0);
    assert |first.db.paints| == 1 && first.db.paints[0].barcode == None;
    assert KeyOf(first.db.paints[0]) == RowKey(r1);
    var start := ImportState(first.db, ImportReport(0, 0));
    var b := ImportRowAsWritten(start, r1, 0);
    assert |b.db.paints| == 1 && b.db.paints[0].barcode == Some("B1");
    assert KeyOf(b.db.paints[0]) == RowKey(r2);
    var second := ImportRowAsWritten(b, r2, 0);
    assert ApplyRowsAsWritten(start, [r1], 0) == b;
    assert second == ApplyRowsAsWritten(start, rows, 0);
  }

  // ---------------------------------------------------------------------
  // The imperative loop

  /** The paint upsert on the store; returns the position of the paint. */
  method UpsertPaintIn(store: Store, row: Row) returns (at: nat)
    modifies store
    ensures store.State() == UpsertPaint(old(store.State()), row).db
    ensures at == UpsertPaint(old(store.State()), row).at
    ensures store.deletions == old(store.deletions)
  {
    var found := FindPaint(store.paints, RowKey(row));
    match found
    case Some(j) =>
      store.SetPaint(j, Merge(store.paints[j], row));
      at := j;
    case None =>
      var paint := NewPaint(store.nextId, row.brand, row.range, row.ptype, row.code, row.name);
      at := |store.paints|;
      store.InsertPaint(Merge(paint, row));
  }

  /** `upsertOwnedQuantity(paint:quantity:)` on the store. */
  method UpsertOwnedQuantityIn(store: Store, paint: PaintRec, quantity: int, now: int) returns (updated: bool)
    modifies store
    ensures store.State() == UpsertOwnedQuantity(old(store.State()), paint, quantity, now).db
    ensures updated == UpsertOwnedQuantity(old(store.State()), paint, quantity, now).updated
    ensures store.deletions == old(store.deletions)
  {
    var existing := FindItem(store.State(), KeyOf(paint), RawValue(Owned));
    match existing
    case Some(i) =>
      store.SetQuantity(i, quantity);
      return true;
    case None =>
      var item := NewItem(store.nextId, paint.id, Owned, now, quantity);
      store.InsertItem(item);
      return true;
  }

  /** One pass of the loop body, carrying the two counters. */
  method ImportRowIn(store: Store, row: Row, now: int, report: ImportReport) returns (next: ImportReport)
    modifies store
    ensures ImportState(store.State(), next) == ImportRow(ImportState(old(store.State()), report), row, now)
    ensures store.deletions == old(store.deletions)
  {
    var at := UpsertPaintIn(store, row);
    var paintsUpserted := report.paintsUpserted + 1;
    var collectionUpdated := report.collectionUpdated;
    var qty := PositiveQuantity(row);
    if qty.Some? {
      var updated := UpsertOwnedQuantityIn(store, store.paints[at], qty.value, now);
      if updated {
        collectionUpdated := collectionUpdated + 1;
      }
    }
    next := ImportReport(paintsUpserted, collectionUpdated);
  }

  /** Reads the header line: its delimiter and its column index. */
  method ReadHeaderIn(firstLine: string) returns (delimiter: char, index: map<string, nat>)
    ensures Header(delimiter, index) == ReadHeader(firstLine)
  {
    var headerLineRaw := StripBOM(firstLine);
    delimiter := Delimiter(headerLineRaw);
    var fields := ParseCSVLine(headerLineRaw, delimiter);
    var header := seq(|fields|, i requires 0 <= i < |fields| => Trim(fields[i]));
    assert header == ReadHeaderLine(firstLine);
    index := IndexMap(header);
  }

  /** The values the loop body reads from one data line (lines 153-165). */
  method DecodeRowIn(line: string, h: Header) returns (row: Row)
    ensures row == DecodeRow(line, h.delimiter, h.index)
  {
    var cols := ParseCSVLine(line, h.delimiter);
    var index := h.index;
    row := Row(BrandFromRaw(Value(cols, index, "brand")),
               Value(cols, index, "range"),
               TypeFromRaw(Value(cols, index, "type")),
               Upper(Value(cols, index, "manufacturercode")),
               Value(cols, index, "name"),
               OptionalValue(cols, index, "barcode"),
               OptionalValue(cols, index, "collectionquantity"));
  }

  /** The loop over the data lines (lines 149-197), from zeroed counters. */
  method ApplyRowsIn(store: Store, dataLines: seq<string>, h: Header, now: int) returns (report: ImportReport)
    modifies store
    ensures ImportState(store.State(), report) ==
      ApplyRows(ImportState(old(store.State()), ImportReport(0, 0)), DecodeRows(dataLines, h), now)
    ensures store.deletions == old(store.deletions)
  {
    report := ImportReport(0, 0);
    ghost var start := ImportState(old(store.State()), ImportReport(0, 0));
    for k := 0 to |dataLines|
      invariant ImportState(store.State(), report) == ApplyRows(start, DecodeRows(dataLines[..k], h), now)
      invariant store.deletions == old(store.deletions)
    {
      var row := DecodeRowIn(dataLines[k], h);
      DecodeRowsSnoc(dataLines, k, h);
      ApplyRowsSnoc(start, DecodeRows(dataLines[..k], h), row, now);
      report := ImportRowIn(store, row, now, report);
    }
    assert dataLines[..|dataLines|] == dataLines;
  }

  /** `importCatalogCSV(_:)`, ImportCSVView.swift:119-198. */
  method ImportCatalogCSV(store: Store, csv: string, now: int) returns (r: Result<ImportReport, ImportError>)
    modifies store
    ensures ImportCatalog(old(store.State()), csv, now).Failure? ==>
      r == Failure(ImportCatalog(old(store.State()), csv, now).error) && store.State() == old(store.State())
    ensures ImportCatalog(old(store.State()), csv, now).Success? ==>
      r == Success(ImportCatalog(old(store.State()), csv, now).value.report) &&
      store.State() == ImportCatalog(old(store.State()), csv, now).value.db
    ensures store.deletions == old(store.deletions)
  {
    var lines := Lines(csv);
    if lines == [] {
      return Success(ImportReport(0, 0));
    }
    var delimiter, index := ReadHeaderIn(lines[0]);
    var h := Header(delimiter, index);

    var missing := CheckColumnsIn(index);
    if missing.Some? {
      return Failure(MissingColumn(missing.value));
    }
    var report := ApplyRowsIn(store, lines[1..], h, now);
    return Success(report);
  }

  /** The required-column check (lines 143-147): the first missing one. */
  method CheckColumnsIn(index: map<string, nat>) returns (missing: Option<string>)
    ensures missing == FirstMissingColumn(index)
  {
    for k := 0 to |RequiredColumns|
      invariant forall j :: 0 <= j < k ==> RequiredColumns[j] in index
    {
      if RequiredColumns[k] !in index {
        assert FirstMissing(RequiredColumns, index) == Some(k);
        return Some(RequiredColumns[k]);
      }
    }
    return None;
  }
}
