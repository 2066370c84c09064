/**
 * The wishlist screen (`WishlistView`): the entries whose raw status is
 * "wishlist", the quantity badge, "bought it" (delete the wishlist entry,
 * then add or increment an owned one), and the two ways of deleting.
 */
module Wishlist {
  import opened Wrappers
  import opened Text
  import opened Seqs
  import opened PaintModel
  import opened InventoryItemModel
  import opened StoreModel
  import opened InventoryActions
  import opened Collection

  /** The query's filter, `item.statusRaw == "wishlist"`. */
  predicate OnWishlist(it: ItemRec) {
    it.statusRaw == "wishlist"
  }

  /** `wishlistItems`, with the query's sort by paint name taken from the
    * order of `items`. */
  function WishlistItems(items: seq<ItemRec>): (r: seq<ItemRec>)
    ensures |r| <= |items|
    ensures forall i :: 0 <= i < |r| ==> r[i] in items && r[i].statusRaw == "wishlist"
  {
    Filter(items, (it: ItemRec) => OnWishlist(it))
  }

  /** An entry is listed exactly when its raw status is "wishlist". */
  lemma WishlistMembers(items: seq<ItemRec>, it: ItemRec)
    ensures it in WishlistItems(items) <==> it in items && it.statusRaw == "wishlist"
  {
    FilterMembers(items, (x: ItemRec) => OnWishlist(x), it);
  }

  /** The list keeps the order it is given (by paint name). */
  lemma WishlistOrdered(items: seq<ItemRec>, before: (ItemRec, ItemRec) -> bool)
    requires Ordered(items, before)
    ensures Ordered(WishlistItems(items), before)
  {
    FilterOrdered(items, (it: ItemRec) => OnWishlist(it), before);
  }

  /** Every entry is on exactly one of the two screens: raw "wishlist" on
    * the wishlist, anything else (unknown text too) in the collection. */
  lemma WishlistAndCollectionPartition(items: seq<ItemRec>, it: ItemRec)
    requires it in items
    ensures it in WishlistItems(items) <==> it !in OwnedItems(items)
  {
    WishlistMembers(items, it);
    OwnedItemsMembers(items, it);
  }

  /** The `x<quantity>` badge of a row. */
  function Badge(it: ItemRec): (b: Option<string>)
    ensures b.Some? <==> it.quantity > 1
    ensures b.Some? ==> |b.value| >= 2 && b.value[0] == 'x'
  {
    if it.quantity > 1 then Some("x" + DecimalString(it.quantity)) else None
  }

  /** The badge's digits read back as the quantity. */
  lemma BadgeReadsBack(it: ItemRec)
    requires 1 < it.quantity <= IntMax
    ensures ParseInt(Badge(it).value[1..]) == Some(it.quantity)
  {
    assert Badge(it).value[1..] == DecimalString(it.quantity);
    ParseDecimal(it.quantity);
  }

  // ---------------------------------------------------------------------
  // Bought it

  /** `boughtIt(_:)`: the entry is deleted first; then the reconciler runs for
    * its paint with `.owned`. A failing fetch leaves the deletion in place. */
  function BoughtIt(db: Db, item: ItemRec, now: int, fetchFails: bool): (r: (Db, Result<AddInventoryOutcome, StorageError>))
    requires PaintById(db.paints, item.paintId).Some?
    ensures r.0.paints == db.paints
    ensures r.1.Failure? <==> fetchFails
    ensures fetchFails ==> forall x :: x in r.0.items <==> x in db.items && x.id != item.id
  {
    DeleteItemMembers(db, item.id);
    var paint := PaintById(db.paints, item.paintId).value;
    var d := DeleteItemFrom(db, item.id);
    if fetchFails then (d, Failure(FetchFailed))
    else
      var a := AddOrIncrement(d, paint, Owned, now);
      (a.db, Success(a.outcome))
  }

  /** The owned entry for a key, if there is one. */
  function OwnedEntry(db: Db, k: Key): (e: Option<ItemRec>)
    ensures e.Some? ==> e.value in db.items && Matches(db.paints, e.value, k, RawValue(Owned))
  {
    match FindItem(db, k, RawValue(Owned))
    case Some(i) => Some(db.items[i])
    case None => None
  }

  /** Deleting entries of another status keeps every matching entry, in
    * order, so the first match is still found first. */
  lemma FindItemAfterDelete(db: Db, id: nat, k: Key, s: string)
    requires FindItem(db, k, s).Some?
    requires forall x :: x in db.items && x.id == id ==> x.statusRaw != s
    ensures var d := DeleteItemFrom(db, id);
      FindItem(d, k, s).Some? && d.items[FindItem(d, k, s).value] == db.items[FindItem(db, k, s).value]
  {
    var d := DeleteItemFrom(db, id);
    var keep := (x: ItemRec) => x.id != id;
    var i := FindItem(db, k, s).value;
    var pos := KeptPositions(db.items, keep);
    KeptPositionsComplete(db.items, keep, i);
    var m :| 0 <= m < |pos| && pos[m] == i;
    assert d.items[m] == db.items[i];
    assert Matches(d.paints, d.items[m], k, s);
    var i2 := FindItem(d, k, s).value;
    assert db.items[pos[i2]] == d.items[i2];
    assert pos[i2] >= i;
    assert i2 == m;
  }

  /** Deleting finds no entry where there was none. */
  lemma FindNothingAfterDelete(db: Db, id: nat, k: Key, s: string)
    requires FindItem(db, k, s).None?
    ensures FindItem(DeleteItemFrom(db, id), k, s).None?
  {
    var d := DeleteItemFrom(db, id);
    forall j | 0 <= j < |d.items| ensures !Matches(d.paints, d.items[j], k, s) {
      var t :| 0 <= t < |db.items| && db.items[t] == d.items[j];
    }
  }

  /** Deleting an entry keeps "at most one entry per key and status". */
  lemma DeleteKeepsAtMostOne(db: Db, id: nat)
    requires AtMostOnePerKey(db)
    ensures AtMostOnePerKey(DeleteItemFrom(db, id))
  {
    var d := DeleteItemFrom(db, id);
    var pos := KeptPositions(db.items, (x: ItemRec) => x.id != id);
    forall i, j | 0 <= i < j < |d.items| && d.items[i].statusRaw == d.items[j].statusRaw && ItemKey(d.paints, d.items[i]).Some?
      ensures ItemKey(d.paints, d.items[i]) != ItemKey(d.paints, d.items[j])
    {
      assert db.items[pos[i]] == d.items[i] && db.items[pos[j]] == d.items[j] && pos[i] < pos[j];
    }
  }

  /** With unique ids, the only stored entry with the id of a wishlist
    * entry is that entry. */
  lemma OnlyEntryWithItsId(db: Db, item: ItemRec)
    requires WellFormed(db) && item in db.items && item.statusRaw == RawValue(Wishlist)
    ensures forall x :: x in db.items && x.id == item.id ==> x.statusRaw != RawValue(Owned)
  {
    forall x | x in db.items && x.id == item.id ensures x.statusRaw != RawValue(Owned) {
      var a :| 0 <= a < |db.items| && db.items[a] == x;
      var b :| 0 <= b < |db.items| && db.items[b] == item;
      assert a == b;
    }
  }

  /** A stored entry's paint is stored. */
  lemma PaintOfStoredItem(db: Db, item: ItemRec)
    requires WellFormed(db) && item in db.items
    ensures PaintById(db.paints, item.paintId).Some?
  {
  }

  /** The outcome of "bought it" for an entry no owned entry shares an id
    * with: the owned entry's quantity plus one, or `addedNew`. */
  lemma BoughtItOutcome(db: Db, item: ItemRec, now: int)
    requires PaintById(db.paints, item.paintId).Some?
    requires forall x :: x in db.items && x.id == item.id ==> x.statusRaw != RawValue(Owned)
    ensures var paint := PaintById(db.paints, item.paintId).value;
      BoughtIt(db, item, now, false).1 ==
        Success(match OwnedEntry(db, KeyOf(paint))
                case Some(e) => Incremented(e.quantity + 1)
                case None => AddedNew)
  {
    var paint := PaintById(db.paints, item.paintId).value;
    var k := KeyOf(paint);
    var d := DeleteItemFrom(db, item.id);
    assert BoughtIt(db, item, now, false).1 == Success(AddOrIncrement(d, paint, Owned, now).outcome);
    if FindItem(db, k, RawValue(Owned)).Some? {
      FindItemAfterDelete(db, item.id, k, RawValue(Owned));
    } else {
      FindNothingAfterDelete(db, item.id, k, RawValue(Owned));
    }
  }

  /** "Bought it" moves a wishlist entry to the collection: the wishlist
    * entry is gone, and whatever its quantity, the owned entry for the
    * paint's key grows by exactly one, or is created with quantity one. */
  lemma BoughtItMovesToOwned(db: Db, item: ItemRec, now: int)
    requires WellFormed(db)
    requires item in db.items && item.statusRaw == RawValue(Wishlist)
    ensures var paint := PaintById(db.paints, item.paintId).value;
      BoughtIt(db, item, now, false).1 ==
        Success(match OwnedEntry(db, KeyOf(paint))
                case Some(e) => Incremented(e.quantity + 1)
                case None => AddedNew)
    ensures item !in BoughtIt(db, item, now, false).0.items
    ensures var paint := PaintById(db.paints, item.paintId).value;
      var after := OwnedEntry(BoughtIt(db, item, now, false).0, KeyOf(paint));
      match OwnedEntry(db, KeyOf(paint))
      case Some(e) => after == Some(e.(quantity := e.quantity + 1))
      case None => after.Some? && after.value.quantity == 1
  {
    PaintOfStoredItem(db, item);
    OnlyEntryWithItsId(db, item);
    BoughtItOutcome(db, item, now);
    assert item.id < db.nextId;
    BoughtItDropsEntry(db, item, now);
    BoughtItOwnedEntry(db, item, now);
  }

  /** The wishlist entry is not stored afterwards. */
  lemma BoughtItDropsEntry(db: Db, item: ItemRec, now: int)
    requires PaintById(db.paints, item.paintId).Some?
    requires item.statusRaw != RawValue(Owned) && item.id < db.nextId
    ensures item !in BoughtIt(db, item, now, false).0.items
  {
    var paint := PaintById(db.paints, item.paintId).value;
    DeleteItemMembers(db, item.id);
    NotInAfterAdd(DeleteItemFrom(db, item.id), paint, now, item);
  }

  /** The owned entry for the paint's key afterwards. */
  lemma BoughtItOwnedEntry(db: Db, item: ItemRec, now: int)
    requires PaintById(db.paints, item.paintId).Some?
    requires forall x :: x in db.items && x.id == item.id ==> x.statusRaw != RawValue(Owned)
    ensures var paint := PaintById(db.paints, item.paintId).value;
      var after := OwnedEntry(BoughtIt(db, item, now, false).0, KeyOf(paint));
      match OwnedEntry(db, KeyOf(paint))
      case Some(e) => after == Some(e.(quantity := e.quantity + 1))
      case None => after.Some? && after.value.quantity == 1
  {
    var paint := PaintById(db.paints, item.paintId).value;
    var k := KeyOf(paint);
    if OwnedEntry(db, k).Some? {
      BoughtOwnedPresent(db, item.id, paint, now);
    } else {
      BoughtOwnedAbsent(db, item.id, paint, now);
    }
  }

  /** Without one, a new owned entry with quantity one is found. */
  lemma BoughtOwnedAbsent(db: Db, id: nat, paint: PaintRec, now: int)
    requires OwnedEntry(db, KeyOf(paint)).None? && PaintById(db.paints, paint.id) == Some(paint)
    ensures var e := OwnedEntry(AddOrIncrement(DeleteItemFrom(db, id), paint, Owned, now).db, KeyOf(paint));
      e.Some? && e.value.quantity == 1
  {
    FindNothingAfterDelete(db, id, KeyOf(paint), RawValue(Owned));
    OwnedAfterAddInserts(DeleteItemFrom(db, id), paint, now);
  }

  /** With an owned entry for the key, deleting an entry of another status
    * and then adding finds that owned entry with its quantity one higher. */
  lemma BoughtOwnedPresent(db: Db, id: nat, paint: PaintRec, now: int)
    requires OwnedEntry(db, KeyOf(paint)).Some?
    requires forall x :: x in db.items && x.id == id ==> x.statusRaw != RawValue(Owned)
    ensures var e := OwnedEntry(db, KeyOf(paint)).value;
      OwnedEntry(AddOrIncrement(DeleteItemFrom(db, id), paint, Owned, now).db, KeyOf(paint)) ==
        Some(e.(quantity := e.quantity + 1))
  {
    FindItemAfterDelete(db, id, KeyOf(paint), RawValue(Owned));
    OwnedAfterAddIncrements(DeleteItemFrom(db, id), paint, now);
  }

  /** An entry that is not stored, is not owned and does not hold the next id
    * is not stored after the reconciler adds an owned entry. */
  lemma NotInAfterAdd(d: Db, paint: PaintRec, now: int, item: ItemRec)
    requires item !in d.items && item.statusRaw != RawValue(Owned) && item.id < d.nextId
    ensures item !in AddOrIncrement(d, paint, Owned, now).db.items
  {
    var db' := AddOrIncrement(d, paint, Owned, now).db;
    match FindItem(d, KeyOf(paint), RawValue(Owned))
    case Some(i) =>
      forall j | 0 <= j < |db'.items| ensures db'.items[j] != item {
        if j != i {
          assert db'.items[j] == d.items[j];
        }
      }
    case None =>
  }

  /** With an owned entry for the key, the lookup afterwards finds it with
    * its quantity one higher. */
  lemma OwnedAfterAddIncrements(d: Db, paint: PaintRec, now: int)
    requires FindItem(d, KeyOf(paint), RawValue(Owned)).Some?
    ensures var e := d.items[FindItem(d, KeyOf(paint), RawValue(Owned)).value];
      OwnedEntry(AddOrIncrement(d, paint, Owned, now).db, KeyOf(paint)) == Some(e.(quantity := e.quantity + 1))
  {
    var k, raw := KeyOf(paint), RawValue(Owned);
    var i := FindItem(d, k, raw).value;
    IncrementsFirstMatch(d, paint, Owned, now, i);
    OwnedAfterIncrement(d, AddOrIncrement(d, paint, Owned, now).db, k, raw, i);
  }

  /** Without one, and for the stored paint its id names, the lookup
    * afterwards finds a new entry with quantity one. */
  lemma OwnedAfterAddInserts(d: Db, paint: PaintRec, now: int)
    requires FindItem(d, KeyOf(paint), RawValue(Owned)).None?
    requires PaintById(d.paints, paint.id) == Some(paint)
    ensures var e := OwnedEntry(AddOrIncrement(d, paint, Owned, now).db, KeyOf(paint));
      e.Some? && e.value.quantity == 1
  {
    var k, raw := KeyOf(paint), RawValue(Owned);
    var db' := AddOrIncrement(d, paint, Owned, now).db;
    InsertsWhenAbsent(d, paint, Owned, now);
    assert Matches(db'.paints, db'.items[|d.items|], k, raw);
    OwnedAfterInsert(d, db', k, raw);
  }

  /** After an increment at the first match, the first match is still at
    * the same position. */
  lemma OwnedAfterIncrement(d: Db, db': Db, k: Key, raw: string, i: nat)
    requires FindItem(d, k, raw) == Some(i)
    requires db'.paints == d.paints && |db'.items| == |d.items|
    requires db'.items[i] == d.items[i].(quantity := db'.items[i].quantity)
    requires forall j :: 0 <= j < |d.items| && j != i ==> db'.items[j] == d.items[j]
    ensures FindItem(db', k, raw) == Some(i)
  {
    assert Matches(db'.paints, db'.items[i], k, raw);
  }

  /** After an insert with no earlier match, the first match is the
    * inserted entry. */
  lemma OwnedAfterInsert(d: Db, db': Db, k: Key, raw: string)
    requires FindItem(d, k, raw).None?
    requires db'.paints == d.paints && |db'.items| == |d.items| + 1
    requires forall j :: 0 <= j < |d.items| ==> db'.items[j] == d.items[j]
    requires Matches(db'.paints, db'.items[|d.items|], k, raw)
    ensures FindItem(db', k, raw) == Some(|d.items|)
  {
  }

  /** "Bought it" keeps the store well formed and at most one entry per key
    * and status. */
  lemma BoughtItKeeps(db: Db, item: ItemRec, now: int, fetchFails: bool)
    requires WellFormed(db) && AtMostOnePerKey(db) && PaintById(db.paints, item.paintId).Some?
    ensures WellFormed(BoughtIt(db, item, now, fetchFails).0)
    ensures AtMostOnePerKey(BoughtIt(db, item, now, fetchFails).0)
  {
    var paint := PaintById(db.paints, item.paintId).value;
    var d := DeleteItemFrom(db, item.id);
    DeleteItemKeeps(db, item.id);
    DeleteKeepsAtMostOne(db, item.id);
    if !fetchFails {
      KeepsAtMostOne(d, paint, Owned, now);
    }
  }

  /** With a failing fetch the wishlist entry is gone and nothing is added:
    * the deletion is not undone. */
  lemma BoughtItFailureLosesEntry(db: Db, item: ItemRec, now: int)
    requires WellFormed(db) && item in db.items
    ensures var (db', r) := BoughtIt(db, item, now, true);
      r == Failure(FetchFailed) && item !in db'.items && db'.paints == db.paints &&
      forall x :: x in db'.items <==> x in db.items && x.id != item.id
  {
    DeleteItemKeeps(db, item.id);
  }

  method BoughtItIn(store: Store, item: ItemRec, now: int, fetchFails: bool)
      returns (r: Result<AddInventoryOutcome, StorageError>)
    requires PaintById(store.paints, item.paintId).Some?
    modifies store
    ensures (store.State(), r) == BoughtIt(old(store.State()), item, now, fetchFails)
    ensures store.deletions == old(store.deletions) + [ItemRef(item.id)]
  {
    var paint := PaintById(store.paints, item.paintId).value;
    store.DeleteItem(item.id);
    r := AddOrIncrementInventoryItem(store, paint, Owned, now, fetchFails);
  }

  // ---------------------------------------------------------------------
  // Deleting

  /** `delete(_:)`: only the given entry goes. */
  method Delete(store: Store, item: ItemRec)
    requires WellFormed(store.State())
    modifies store
    ensures WellFormed(store.State())
    ensures store.paints == old(store.paints) && store.nextId == old(store.nextId)
    ensures forall it :: it in store.items <==> it in old(store.items) && it.id != item.id
    ensures store.deletions == old(store.deletions) + [ItemRef(item.id)]
  {
    DeleteItemKeeps(store.State(), item.id);
    store.DeleteItem(item.id);
  }

  /** `deleteAtOffsets(_:)`: for each offset in ascending order, delete the
    * entry at that offset of the list as it was shown. */
  method DeleteAtOffsets(store: Store, wishlistItems: seq<ItemRec>, offsets: seq<nat>)
    requires WellFormed(store.State())
    requires IsOffsets(offsets, |wishlistItems|)
    modifies store
    ensures WellFormed(store.State())
    ensures store.paints == old(store.paints) && store.nextId == old(store.nextId)
    ensures forall it :: it in store.items <==> it in old(store.items) && Spared(it, Picked(wishlistItems, offsets))
    ensures store.deletions == old(store.deletions) + ItemRefs(Picked(wishlistItems, offsets))
  {
    ghost var victims := Picked(wishlistItems, offsets);
    for k := 0 to |offsets|
      invariant WellFormed(store.State())
      invariant store.paints == old(store.paints) && store.nextId == old(store.nextId)
      invariant forall it :: it in store.items <==> it in old(store.items) && Spared(it, victims[..k])
      invariant store.deletions == old(store.deletions) + ItemRefs(victims[..k])
    {
      DeleteStep(store.State(), old(store.items), victims, k);
      store.DeleteItem(wishlistItems[offsets[k]].id);
    }
    assert victims[..|offsets|] == victims;
  }
}
