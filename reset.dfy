/**
 * `ResetService.reset`: delete every inventory entry and then, for a full
 * reset, every paint. Each phase fetches a snapshot first; a failing fetch
 * throws, and what was already deleted stays deleted.
 */
module Reset {
  import opened Wrappers
  import opened Seqs
  import opened PaintModel
  import opened InventoryItemModel
  import opened StoreModel
  import opened InventoryActions

  datatype ResetScope = InventoryOnly | Everything

  /** The state after a reset, and the error it throws: every entry goes
    * unless the first fetch fails; paints go only for a full reset whose
    * second fetch succeeds; fresh ids are not reused. */
  function ResetState(db: Db, scope: ResetScope, itemsFetchFails: bool, paintsFetchFails: bool): (r: (Db, Option<StorageError>))
    ensures itemsFetchFails ==> r == (db, Some(FetchFailed))
    ensures !itemsFetchFails ==> r.0.items == [] && r.0.nextId == db.nextId
    ensures !itemsFetchFails && (scope == InventoryOnly || paintsFetchFails) ==> r.0.paints == db.paints
    ensures !itemsFetchFails && scope == Everything && !paintsFetchFails ==> r.0.paints == []
    ensures r.1.None? <==> !itemsFetchFails && (scope == InventoryOnly || !paintsFetchFails)
  {
    if itemsFetchFails then (db, Some(FetchFailed))
    else
      var cleared := db.(items := []);
      if scope == InventoryOnly then (cleared, None)
      else if paintsFetchFails then (cleared, Some(FetchFailed))
      else (cleared.(paints := []), None)
  }

  /** A reset keeps the store well formed. */
  lemma ResetKeeps(db: Db, scope: ResetScope, itemsFetchFails: bool, paintsFetchFails: bool)
    requires WellFormed(db)
    ensures WellFormed(ResetState(db, scope, itemsFetchFails, paintsFetchFails).0)
  {
  }

  /** A second successful reset finds nothing left to delete. */
  lemma ResetIdempotent(db: Db, scope: ResetScope, paintsFetchFails: bool)
    ensures var once := ResetState(db, scope, false, paintsFetchFails).0;
      ResetState(once, scope, false, paintsFetchFails).0 == once
  {
  }

  /** Deleting the first of a run of entries with distinct ids leaves the
    * rest of the run. */
  lemma DeleteFirstItem(db: Db)
    requires db.items != []
    requires forall i :: 1 <= i < |db.items| ==> db.items[i].id != db.items[0].id
    ensures DeleteItemFrom(db, db.items[0].id).items == db.items[1..]
  {
    FilterDropsHead(db.items, (it: ItemRec) => it.id != db.items[0].id);
  }

  /** Deleting the first of a run of paints with distinct ids and no entries
    * leaves the rest of the run and logs only the paint. */
  lemma DeleteFirstPaint(db: Db)
    requires db.paints != [] && db.items == []
    requires forall i :: 1 <= i < |db.paints| ==> db.paints[i].id != db.paints[0].id
    ensures DeletePaintFrom(db, db.paints[0].id) == db.(paints := db.paints[1..])
    ensures CascadeRefs(db, db.paints[0].id) == []
  {
    FilterDropsHead(db.paints, (p: PaintRec) => p.id != db.paints[0].id);
  }

  /** Entries with pairwise distinct ids. */
  predicate DistinctItemIds(items: seq<ItemRec>) {
    forall i, j :: 0 <= i < j < |items| ==> items[i].id != items[j].id
  }

  /** Paints with pairwise distinct ids. */
  predicate DistinctPaintIds(paints: seq<PaintRec>) {
    forall i, j :: 0 <= i < j < |paints| ==> paints[i].id != paints[j].id
  }

  /** One turn of the first loop. */
  lemma ItemStep(db: Db, items: seq<ItemRec>, k: nat)
    requires k < |items| && db.items == items[k..] && DistinctItemIds(items)
    ensures DeleteItemFrom(db, items[k].id).items == items[k + 1..]
    ensures ItemRefs(items[..k + 1]) == ItemRefs(items[..k]) + [ItemRef(items[k].id)]
  {
    forall i | 1 <= i < |db.items| ensures db.items[i].id != db.items[0].id {
      assert db.items[i] == items[k + i];
    }
    DeleteFirstItem(db);
    assert items[..k + 1][..k] == items[..k];
  }

  /** One turn of the second loop. */
  lemma PaintStep(db: Db, paints: seq<PaintRec>, k: nat)
    requires k < |paints| && db.paints == paints[k..] && db.items == [] && DistinctPaintIds(paints)
    ensures DeletePaintFrom(db, paints[k].id) == db.(paints := paints[k + 1..])
    ensures CascadeRefs(db, paints[k].id) == []
    ensures PaintRefs(paints[..k + 1]) == PaintRefs(paints[..k]) + [PaintRef(paints[k].id)]
  {
    forall i | 1 <= i < |db.paints| ensures db.paints[i].id != db.paints[0].id {
      assert db.paints[i] == paints[k + i];
    }
    DeleteFirstPaint(db);
    assert paints[..k + 1][..k] == paints[..k];
  }

  /** The first loop: `for item in items { delete(item) }` over the snapshot. */
  method DeleteEveryItem(store: Store)
    requires DistinctItemIds(store.items)
    modifies store
    ensures store.items == [] && store.paints == old(store.paints) && store.nextId == old(store.nextId)
    ensures store.deletions == old(store.deletions) + ItemRefs(old(store.items))
  {
    var items := store.items;
    var k := 0;
    while k < |items|
      invariant 0 <= k <= |items|
      invariant store.items == items[k..]
      invariant store.paints == old(store.paints) && store.nextId == old(store.nextId)
      invariant store.deletions == old(store.deletions) + ItemRefs(items[..k])
    {
      ItemStep(store.State(), items, k);
      store.DeleteItem(items[k].id);
      k := k + 1;
    }
    assert items[..k] == items;
  }

  /** The second loop: `for paint in paints { delete(paint) }`, once no
    * entry is left, so no delete cascades. */
  method DeleteEveryPaint(store: Store)
    requires DistinctPaintIds(store.paints) && store.items == []
    modifies store
    ensures store.items == [] && store.paints == [] && store.nextId == old(store.nextId)
    ensures store.deletions == old(store.deletions) + PaintRefs(old(store.paints))
  {
    var paints := store.paints;
    var k := 0;
    while k < |paints|
      invariant 0 <= k <= |paints|
      invariant store.paints == paints[k..] && store.items == []
      invariant store.nextId == old(store.nextId)
      invariant store.deletions == old(store.deletions) + PaintRefs(paints[..k])
    {
      PaintStep(store.State(), paints, k);
      store.DeletePaint(paints[k].id);
      k := k + 1;
    }
    assert paints[..k] == paints;
  }

  /** `reset(_:modelContext:)`: every entry of the snapshot is deleted before
    * any paint, and the log records exactly those deletions, in order. */
  method ResetStore(store: Store, scope: ResetScope, itemsFetchFails: bool, paintsFetchFails: bool)
      returns (error: Option<StorageError>)
    requires WellFormed(store.State())
    modifies store
    ensures (store.State(), error) == ResetState(old(store.State()), scope, itemsFetchFails, paintsFetchFails)
    ensures itemsFetchFails ==> store.deletions == old(store.deletions)
    ensures !itemsFetchFails && (scope == InventoryOnly || paintsFetchFails) ==>
      store.deletions == old(store.deletions) + ItemRefs(old(store.items))
    ensures !itemsFetchFails && scope == Everything && !paintsFetchFails ==>
      store.deletions == old(store.deletions) + ItemRefs(old(store.items)) + PaintRefs(old(store.paints))
  {
    if itemsFetchFails {
      return Some(FetchFailed);
    }
    DeleteEveryItem(store);
    if scope != Everything {
      return None;
    }
    if paintsFetchFails {
      return Some(FetchFailed);
    }
    DeleteEveryPaint(store);
    return None;
  }
}
