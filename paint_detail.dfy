/**
 * The paint detail screen (`PaintDetailView`): whether the paint is in the
 * collection or on the wishlist, judged by identity key over every entry,
 * and its two buttons, which go through the reconciler.
 */
module PaintDetail {
  import opened Wrappers
  import opened Seqs
  import opened PaintModel
  import opened InventoryItemModel
  import opened StoreModel
  import opened InventoryActions

  datatype InventoryFlags = InventoryFlags(inCollection: bool, inWishlist: bool)

  /** The entry's paint has the same brand, range and code as `paint`. */
  predicate ForPaint(ps: seq<PaintRec>, it: ItemRec, paint: PaintRec) {
    ItemKey(ps, it) == Some(KeyOf(paint))
  }

  /** `itemsForPaint`. */
  function ItemsForPaint(ps: seq<PaintRec>, items: seq<ItemRec>, paint: PaintRec): (r: seq<ItemRec>)
    ensures |r| <= |items|
    ensures forall i :: 0 <= i < |r| ==> r[i] in items && ForPaint(ps, r[i], paint)
  {
    Filter(items, (it: ItemRec) => ForPaint(ps, it, paint))
  }

  /** `contains { $0.status == s }`. */
  function AnyWithStatus(items: seq<ItemRec>, s: InventoryStatus): (b: bool)
    ensures b <==> exists i :: 0 <= i < |items| && StatusOf(items[i]) == s
  {
    if items == [] then false
    else AnyWithStatus(items[..|items| - 1], s) || StatusOf(items[|items| - 1]) == s
  }

  /** Some entry for the paint's key decodes to status `s`. */
  ghost predicate HasEntry(ps: seq<PaintRec>, items: seq<ItemRec>, paint: PaintRec, s: InventoryStatus) {
    exists i :: 0 <= i < |items| && ForPaint(ps, items[i], paint) && StatusOf(items[i]) == s
  }

  lemma AnyForPaint(ps: seq<PaintRec>, items: seq<ItemRec>, paint: PaintRec, s: InventoryStatus)
    ensures AnyWithStatus(ItemsForPaint(ps, items, paint), s) <==> HasEntry(ps, items, paint, s)
  {
    var p := (it: ItemRec) => ForPaint(ps, it, paint);
    var mine := ItemsForPaint(ps, items, paint);
    if AnyWithStatus(mine, s) {
      var i :| 0 <= i < |mine| && StatusOf(mine[i]) == s;
      var j :| 0 <= j < |items| && items[j] == mine[i];
    }
    if HasEntry(ps, items, paint, s) {
      var j :| 0 <= j < |items| && ForPaint(ps, items[j], paint) && StatusOf(items[j]) == s;
      FilterMembers(items, p, items[j]);
      var i :| 0 <= i < |mine| && mine[i] == items[j];
    }
  }

  /** `flags`, over the query's `inventoryItems`: "in collection" exactly
    * when some entry for the key decodes as owned (unknown raw text
    * included), "in wishlist" exactly when one decodes as wishlist. */
  function Flags(ps: seq<PaintRec>, items: seq<ItemRec>, paint: PaintRec): (f: InventoryFlags)
    ensures f.inCollection <==> HasEntry(ps, items, paint, Owned)
    ensures f.inWishlist <==> HasEntry(ps, items, paint, Wishlist)
  {
    AnyForPaint(ps, items, paint, Owned);
    AnyForPaint(ps, items, paint, Wishlist);
    var mine := ItemsForPaint(ps, items, paint);
    InventoryFlags(AnyWithStatus(mine, Owned), AnyWithStatus(mine, Wishlist))
  }

  /** "Not in collection or wishlist" is shown when neither flag is set. */
  predicate ShowsNotInInventory(f: InventoryFlags) {
    !f.inCollection && !f.inWishlist
  }

  /** That is exactly when no entry at all refers to a paint with the key. */
  lemma NotInInventoryIff(ps: seq<PaintRec>, items: seq<ItemRec>, paint: PaintRec)
    ensures ShowsNotInInventory(Flags(ps, items, paint)) <==>
      forall i :: 0 <= i < |items| ==> !ForPaint(ps, items[i], paint)
  {
    forall i | 0 <= i < |items| && ForPaint(ps, items[i], paint)
      ensures HasEntry(ps, items, paint, Owned) || HasEntry(ps, items, paint, Wishlist)
    {
      if StatusOf(items[i]) == Owned {
        assert HasEntry(ps, items, paint, Owned);
      } else {
        assert HasEntry(ps, items, paint, Wishlist);
      }
    }
  }

  /** An entry whose paint has another key never changes the flags. */
  lemma OtherKeysIgnored(ps: seq<PaintRec>, items: seq<ItemRec>, x: ItemRec, paint: PaintRec)
    requires !ForPaint(ps, x, paint)
    ensures Flags(ps, items + [x], paint) == Flags(ps, items, paint)
  {
    FilterAppend(items, x, (it: ItemRec) => ForPaint(ps, it, paint));
  }

  /** Paints with the same key show the same flags, whichever object is
    * displayed. */
  lemma FlagsByKey(ps: seq<PaintRec>, items: seq<ItemRec>, p1: PaintRec, p2: PaintRec)
    requires KeyOf(p1) == KeyOf(p2)
    ensures Flags(ps, items, p1) == Flags(ps, items, p2)
  {
  }

  /** After a successful add with status `s` for a stored paint, the flag for
    * `s` is set. */
  lemma AddSetsFlag(db: Db, paint: PaintRec, s: InventoryStatus, now: int)
    requires WellFormed(db) && paint in db.paints
    ensures var a := AddOrIncrement(db, paint, s, now).db;
      HasEntry(a.paints, a.items, paint, s)
  {
    var a := AddOrIncrement(db, paint, s, now).db;
    StatusRoundTrip(s);
    match FindItem(db, KeyOf(paint), RawValue(s))
    case Some(i) =>
      assert a.items[i].paintId == db.items[i].paintId && a.paints == db.paints;
      assert ForPaint(a.paints, a.items[i], paint) && StatusOf(a.items[i]) == s;
    case None =>
      PaintByIdOfStored(db.paints, paint);
      var n := |db.items|;
      assert ForPaint(a.paints, a.items[n], paint) && StatusOf(a.items[n]) == s;
  }

  /** The two buttons of the Actions section. */
  datatype DetailAction = AddToCollection | AddToWishlist

  function ActionStatus(action: DetailAction): (s: InventoryStatus)
    ensures s == Owned <==> action == AddToCollection
    ensures s == Wishlist <==> action == AddToWishlist
  {
    match action
    case AddToCollection => Owned
    case AddToWishlist => Wishlist
  }

  /** `addToInventory(status:)` from a button: the reconciler with the
    * button's status; the toast it shows is not modelled. */
  method AddToInventory(store: Store, paint: PaintRec, action: DetailAction, now: int, fetchFails: bool)
      returns (r: Result<AddInventoryOutcome, StorageError>)
    modifies store
    ensures fetchFails ==> r == Failure(FetchFailed) && store.State() == old(store.State())
    ensures !fetchFails ==>
      && r == Success(AddOrIncrement(old(store.State()), paint, ActionStatus(action), now).outcome)
      && store.State() == AddOrIncrement(old(store.State()), paint, ActionStatus(action), now).db
    ensures store.deletions == old(store.deletions)
  {
    r := AddOrIncrementInventoryItem(store, paint, ActionStatus(action), now, fetchFails);
  }
}
