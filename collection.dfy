/**
 * The collection screen (`CollectionView`): the owned entries, newest
 * first, and swipe-to-delete over offsets into that list.
 */
module Collection {
  import opened Seqs
  import opened InventoryItemModel
  import opened StoreModel

  /** `$0.status == .owned`, through the decoding getter. */
  predicate IsOwnedItem(it: ItemRec) {
    StatusOf(it) == Owned
  }

  /** `ownedItems`, over `allItems`. */
  function OwnedItems(allItems: seq<ItemRec>): (r: seq<ItemRec>)
    ensures |r| <= |allItems|
    ensures forall i :: 0 <= i < |r| ==> r[i] in allItems && r[i].statusRaw != RawValue(Wishlist)
  {
    Filter(allItems, (it: ItemRec) => IsOwnedItem(it))
  }

  /** An entry is listed exactly when its raw status is anything but
    * "wishlist": unknown raw text counts as owned. */
  lemma OwnedItemsMembers(allItems: seq<ItemRec>, it: ItemRec)
    ensures it in OwnedItems(allItems) <==> it in allItems && it.statusRaw != RawValue(Wishlist)
  {
    FilterMembers(allItems, (x: ItemRec) => IsOwnedItem(x), it);
  }

  /** Newest `createdAt` first, the order of the query. */
  ghost predicate NewestFirst(items: seq<ItemRec>) {
    forall i, j :: 0 <= i < j < |items| ==> items[i].createdAt >= items[j].createdAt
  }

  /** The owned list keeps the newest-first order. */
  lemma OwnedItemsNewestFirst(allItems: seq<ItemRec>)
    requires NewestFirst(allItems)
    ensures NewestFirst(OwnedItems(allItems))
  {
    var before := (a: ItemRec, b: ItemRec) => a.createdAt >= b.createdAt;
    assert Ordered(allItems, before);
    FilterOrdered(allItems, (it: ItemRec) => IsOwnedItem(it), before);
    assert Ordered(OwnedItems(allItems), before);
  }

  /** Valid `IndexSet` offsets into a list of length `n`, in ascending order. */
  predicate IsOffsets(offsets: seq<nat>, n: nat) {
    (forall k :: 0 <= k < |offsets| ==> offsets[k] < n) &&
    (forall k, l :: 0 <= k < l < |offsets| ==> offsets[k] < offsets[l])
  }

  /** `offsets.map { list[$0] }`. */
  function Picked(list: seq<ItemRec>, offsets: seq<nat>): (r: seq<ItemRec>)
    requires IsOffsets(offsets, |list|)
    ensures |r| == |offsets| && forall k :: 0 <= k < |r| ==> r[k] == list[offsets[k]]
  {
    seq(|offsets|, k requires 0 <= k < |offsets| => list[offsets[k]])
  }

  /** `it` shares its id with none of `victims`. */
  predicate Spared(it: ItemRec, victims: seq<ItemRec>) {
    forall j :: 0 <= j < |victims| ==> it.id != victims[j].id
  }

  /** With unique ids, an entry of the store is spared exactly when it is not
    * one of the victims taken from the store. */
  lemma SparedIffNotPicked(db: Db, victims: seq<ItemRec>, it: ItemRec)
    requires WellFormed(db) && it in db.items
    requires forall j :: 0 <= j < |victims| ==> victims[j] in db.items
    ensures Spared(it, victims) <==> it !in victims
  {
    if !Spared(it, victims) {
      var j :| 0 <= j < |victims| && it.id == victims[j].id;
      var a :| 0 <= a < |db.items| && db.items[a] == it;
      var b :| 0 <= b < |db.items| && db.items[b] == victims[j];
      assert a == b;
    }
  }

  /** One turn of a loop deleting `victims` in order from a store holding
    * `base` minus the first `k` of them. */
  lemma DeleteStep(db: Db, base: seq<ItemRec>, victims: seq<ItemRec>, k: nat)
    requires WellFormed(db) && k < |victims|
    requires forall it :: it in db.items <==> it in base && Spared(it, victims[..k])
    ensures WellFormed(DeleteItemFrom(db, victims[k].id))
    ensures forall it :: it in DeleteItemFrom(db, victims[k].id).items <==> it in base && Spared(it, victims[..k + 1])
    ensures ItemRefs(victims[..k + 1]) == ItemRefs(victims[..k]) + [ItemRef(victims[k].id)]
  {
    DeleteItemKeeps(db, victims[k].id);
    var done, next := victims[..k], victims[..k + 1];
    assert next == done + [victims[k]];
    forall it ensures Spared(it, next) <==> Spared(it, done) && it.id != victims[k].id {
      if Spared(it, done) && it.id != victims[k].id {
        forall j | 0 <= j < |next| ensures it.id != next[j].id {
          if j < k {
            assert next[j] == done[j];
          }
        }
      }
      if Spared(it, next) {
        assert next[k] == victims[k];
        forall j | 0 <= j < |done| ensures it.id != done[j].id {
          assert next[j] == done[j];
        }
      }
    }
    assert victims[..k + 1][..k] == victims[..k];
  }

  /** `deleteItems(at:)`: resolve every offset into the owned list first,
    * then delete the resolved entries one by one. */
  method DeleteItems(store: Store, allItems: seq<ItemRec>, offsets: seq<nat>)
    requires WellFormed(store.State())
    requires IsOffsets(offsets, |OwnedItems(allItems)|)
    modifies store
    ensures WellFormed(store.State())
    ensures store.paints == old(store.paints) && store.nextId == old(store.nextId)
    ensures forall it :: it in store.items <==> it in old(store.items) && Spared(it, Picked(OwnedItems(allItems), offsets))
    ensures store.deletions == old(store.deletions) + ItemRefs(Picked(OwnedItems(allItems), offsets))
  {
    var ownedItems := OwnedItems(allItems);
    var toDelete := Picked(ownedItems, offsets);
    DeleteEach(store, toDelete);
  }

  /** The loop of `deleteItems(at:)`: delete the resolved entries in order. */
  method DeleteEach(store: Store, toDelete: seq<ItemRec>)
    requires WellFormed(store.State())
    modifies store
    ensures WellFormed(store.State())
    ensures store.paints == old(store.paints) && store.nextId == old(store.nextId)
    ensures forall it :: it in store.items <==> it in old(store.items) && Spared(it, toDelete)
    ensures store.deletions == old(store.deletions) + ItemRefs(toDelete)
  {
    var k := 0;
    while k < |toDelete|
      invariant 0 <= k <= |toDelete|
      invariant WellFormed(store.State())
      invariant store.paints == old(store.paints) && store.nextId == old(store.nextId)
      invariant forall it :: it in store.items <==> it in old(store.items) && Spared(it, toDelete[..k])
      invariant store.deletions == old(store.deletions) + ItemRefs(toDelete[..k])
    {
      DeleteStep(store.State(), old(store.items), toDelete, k);
      store.DeleteItem(toDelete[k].id);
      k := k + 1;
    }
    assert toDelete[..k] == toDelete;
  }

  /** Every entry `deleteItems` removes is an owned one taken from the list. */
  lemma DeletedAreOwned(allItems: seq<ItemRec>, offsets: seq<nat>, k: nat)
    requires IsOffsets(offsets, |OwnedItems(allItems)|) && k < |offsets|
    ensures var it := Picked(OwnedItems(allItems), offsets)[k];
      it in allItems && StatusOf(it) == Owned
  {
    var it := Picked(OwnedItems(allItems), offsets)[k];
    assert it in OwnedItems(allItems);
    OwnedItemsMembers(allItems, it);
  }
}
