/**
 * The inventory reconciler, `addOrIncrementInventoryItem`: find the entry
 * for a paint's identity key in a status bucket and add one to it, or insert
 * a new entry with quantity 1. The search result swipes, the paint detail
 * buttons and "bought it" on the wishlist all go through it.
 */
module InventoryActions {
  import opened Wrappers
  import opened PaintModel
  import opened InventoryItemModel
  import opened StoreModel

  datatype AddInventoryOutcome = AddedNew | Incremented(existingQuantity: int)

  /** A fetch the context could not run. */
  datatype StorageError = FetchFailed

  datatype Added = Added(db: Db, outcome: AddInventoryOutcome)

  /** The reconciler's effect when its fetch succeeds. */
  function AddOrIncrement(db: Db, paint: PaintRec, status: InventoryStatus, now: int): (a: Added)
    ensures a.db.paints == db.paints
    ensures a.outcome == AddedNew <==> FindItem(db, KeyOf(paint), RawValue(status)).None?
    ensures a.outcome.Incremented? ==> |a.db.items| == |db.items| && a.db.nextId == db.nextId
    ensures a.outcome == AddedNew ==> |a.db.items| == |db.items| + 1 && a.db.nextId == db.nextId + 1
  {
    match FindItem(db, KeyOf(paint), RawValue(status))
    case Some(i) =>
      Added(ReplaceQuantity(db, i, db.items[i].quantity + 1), Incremented(db.items[i].quantity + 1))
    case None =>
      Added(InsertItemInto(db, NewItem(db.nextId, paint.id, status, now)), AddedNew)
  }

  /** Position `i` holds the first entry for `(k, statusRaw)`. */
  ghost predicate FirstMatchAt(db: Db, k: Key, statusRaw: string, i: nat) {
    i < |db.items| && Matches(db.paints, db.items[i], k, statusRaw) &&
    forall j :: 0 <= j < i ==> !Matches(db.paints, db.items[j], k, statusRaw)
  }

  ghost predicate HasMatch(db: Db, k: Key, statusRaw: string) {
    exists j :: 0 <= j < |db.items| && Matches(db.paints, db.items[j], k, statusRaw)
  }

  /** The central invariant: at most one entry per (identity key, raw status). */
  ghost predicate AtMostOnePerKey(db: Db) {
    forall i, j ::
      (0 <= i < j < |db.items| && db.items[i].statusRaw == db.items[j].statusRaw &&
       ItemKey(db.paints, db.items[i]).Some?) ==>
      ItemKey(db.paints, db.items[i]) != ItemKey(db.paints, db.items[j])
  }

  /** An existing entry: the first match's quantity goes up by exactly one,
    * the outcome carries the new quantity, nothing is inserted, and its
    * notes, createdAt, every other item and every paint are untouched. */
  lemma IncrementsFirstMatch(db: Db, paint: PaintRec, status: InventoryStatus, now: int, i: nat)
    requires FirstMatchAt(db, KeyOf(paint), RawValue(status), i)
    ensures var a := AddOrIncrement(db, paint, status, now);
      && a.db.paints == db.paints && a.db.nextId == db.nextId
      && |a.db.items| == |db.items|
      && a.db.items[i].quantity == db.items[i].quantity + 1
      && a.db.items[i] == db.items[i].(quantity := a.db.items[i].quantity)
      && (forall j :: 0 <= j < |db.items| && j != i ==> a.db.items[j] == db.items[j])
      && a.outcome == Incremented(a.db.items[i].quantity)
  {
  }

  /** No entry yet: exactly one new item is appended, with quantity 1, the
    * given status, nil notes, the clock reading and a fresh id; the outcome
    * is `addedNew`. */
  lemma InsertsWhenAbsent(db: Db, paint: PaintRec, status: InventoryStatus, now: int)
    requires !HasMatch(db, KeyOf(paint), RawValue(status))
    ensures var a := AddOrIncrement(db, paint, status, now);
      && a.db.paints == db.paints && a.db.nextId == db.nextId + 1
      && a.db.items == db.items + [ItemRec(db.nextId, paint.id, RawValue(status), 1, None, now)]
      && a.outcome == AddedNew
  {
  }

  /** Matching is by identity key, not by object: two paint records with the
    * same key reach the same entry with the same outcome. */
  lemma SameKeySameEntry(db: Db, p1: PaintRec, p2: PaintRec, status: InventoryStatus, now: int)
    requires KeyOf(p1) == KeyOf(p2)
    ensures AddOrIncrement(db, p1, status, now).outcome == AddOrIncrement(db, p2, status, now).outcome
    ensures HasMatch(db, KeyOf(p1), RawValue(status)) ==>
      AddOrIncrement(db, p1, status, now).db == AddOrIncrement(db, p2, status, now).db
  {
  }

  /** The buckets are separate: an entry of another status is never touched,
    * and the paints are never touched. */
  lemma OtherBucketUntouched(db: Db, paint: PaintRec, status: InventoryStatus, now: int)
    ensures var a := AddOrIncrement(db, paint, status, now);
      && a.db.paints == db.paints
      && |a.db.items| >= |db.items|
      && (forall j :: 0 <= j < |db.items| && db.items[j].statusRaw != RawValue(status) ==>
            a.db.items[j] == db.items[j])
      && (forall j :: |db.items| <= j < |a.db.items| ==> a.db.items[j].statusRaw == RawValue(status))
  {
  }

  /** The reconciler keeps the store well formed and keeps "at most one entry
    * per key and status", for a paint that is in the store. */
  lemma KeepsAtMostOne(db: Db, paint: PaintRec, status: InventoryStatus, now: int)
    requires WellFormed(db) && AtMostOnePerKey(db) && paint in db.paints
    ensures WellFormed(AddOrIncrement(db, paint, status, now).db)
    ensures AtMostOnePerKey(AddOrIncrement(db, paint, status, now).db)
  {
    match FindItem(db, KeyOf(paint), RawValue(status))
    case Some(i) =>
      assert AddOrIncrement(db, paint, status, now).db == ReplaceQuantity(db, i, db.items[i].quantity + 1);
      IncrementKeeps(db, i, db.items[i].quantity + 1);
    case None =>
      assert AddOrIncrement(db, paint, status, now).db == InsertItemInto(db, NewItem(db.nextId, paint.id, status, now));
      InsertKeeps(db, paint, status, now);
  }

  /** Writing a quantity keeps both invariants. */
  lemma IncrementKeeps(db: Db, i: nat, q: int)
    requires WellFormed(db) && AtMostOnePerKey(db) && i < |db.items|
    ensures WellFormed(ReplaceQuantity(db, i, q)) && AtMostOnePerKey(ReplaceQuantity(db, i, q))
  {
    var a := ReplaceQuantity(db, i, q);
    ReplaceQuantityKeeps(db, i, q);
    assert forall j :: 0 <= j < |db.items| ==> ItemKey(a.paints, a.items[j]) == ItemKey(db.paints, db.items[j]);
  }

  /** Inserting the first entry for a stored paint's key and status keeps
    * both invariants. */
  lemma InsertKeeps(db: Db, paint: PaintRec, status: InventoryStatus, now: int)
    requires WellFormed(db) && AtMostOnePerKey(db) && paint in db.paints
    requires FindItem(db, KeyOf(paint), RawValue(status)).None?
    ensures var a := InsertItemInto(db, NewItem(db.nextId, paint.id, status, now));
      WellFormed(a) && AtMostOnePerKey(a)
  {
    var k, raw := KeyOf(paint), RawValue(status);
    var it := NewItem(db.nextId, paint.id, status, now);
    var a := InsertItemInto(db, it);
    PaintByIdOfStored(db.paints, paint);
    InsertItemKeeps(db, it);
    assert ItemKey(db.paints, it) == Some(k);
    forall i, j | 0 <= i < j < |a.items| && a.items[i].statusRaw == a.items[j].statusRaw &&
      ItemKey(a.paints, a.items[i]).Some?
      ensures ItemKey(a.paints, a.items[i]) != ItemKey(a.paints, a.items[j])
    {
      if j == |db.items| {
        assert !Matches(db.paints, db.items[i], k, raw);
      }
    }
  }

  datatype Repeated = Repeated(db: Db, outcomes: seq<AddInventoryOutcome>)

  /** `n` successive calls with the same paint and status. */
  function AddRepeatedly(db: Db, paint: PaintRec, status: InventoryStatus, now: int, n: nat): Repeated {
    if n == 0 then Repeated(db, [])
    else
      var prev := AddRepeatedly(db, paint, status, now, n - 1);
      var a := AddOrIncrement(prev.db, paint, status, now);
      Repeated(a.db, prev.outcomes + [a.outcome])
  }

  /** What `n` calls from a state `db` without an entry leave: the old items
    * untouched, one entry appended with quantity `n`, and the outcomes
    * `addedNew`, `incremented(2)`, ..., `incremented(n)`. */
  ghost predicate Accumulated(db: Db, r: Repeated, paint: PaintRec, status: InventoryStatus, n: nat) {
    && r.db.paints == db.paints
    && |r.db.items| == |db.items| + 1
    && (forall j :: 0 <= j < |db.items| ==> r.db.items[j] == db.items[j])
    && FirstMatchAt(r.db, KeyOf(paint), RawValue(status), |db.items|)
    && r.db.items[|db.items|].quantity == n
    && n >= 1 && |r.outcomes| == n && r.outcomes[0] == AddedNew
    && (forall m :: 1 <= m < n ==> r.outcomes[m] == Incremented(m + 1))
  }

  lemma FirstCallAdds(db: Db, paint: PaintRec, status: InventoryStatus, now: int)
    requires !HasMatch(db, KeyOf(paint), RawValue(status))
    requires WellFormed(db) && paint in db.paints
    ensures Accumulated(db, AddRepeatedly(db, paint, status, now, 1), paint, status, 1)
  {
    var k, raw := KeyOf(paint), RawValue(status);
    InsertsWhenAbsent(db, paint, status, now);
    var r := AddRepeatedly(db, paint, status, now, 1);
    assert AddRepeatedly(db, paint, status, now, 0) == Repeated(db, []);
    assert r.db == AddOrIncrement(db, paint, status, now).db;
    PaintByIdOfStored(db.paints, paint);
    assert Matches(r.db.paints, r.db.items[|db.items|], k, raw);
  }

  lemma NextCallIncrements(db: Db, paint: PaintRec, status: InventoryStatus, now: int, n: nat)
    requires n >= 2
    requires Accumulated(db, AddRepeatedly(db, paint, status, now, n - 1), paint, status, n - 1)
    ensures Accumulated(db, AddRepeatedly(db, paint, status, now, n), paint, status, n)
  {
    var prev := AddRepeatedly(db, paint, status, now, n - 1);
    IncrementsFirstMatch(prev.db, paint, status, now, |db.items|);
    var r := AddRepeatedly(db, paint, status, now, n);
    assert r.outcomes == prev.outcomes + [Incremented(n)];
  }

  /** Starting with no entry, `n` calls leave exactly one entry, appended
    * after the old items, with quantity `n`; the outcomes are `addedNew`
    * and then `incremented(2)` ... `incremented(n)`. */
  lemma {:induction false} RepeatedAddsAccumulate(db: Db, paint: PaintRec, status: InventoryStatus, now: int, n: nat)
    requires n >= 1
    requires !HasMatch(db, KeyOf(paint), RawValue(status))
    requires WellFormed(db) && paint in db.paints
    ensures Accumulated(db, AddRepeatedly(db, paint, status, now, n), paint, status, n)
  {
    if n == 1 {
      FirstCallAdds(db, paint, status, now);
    } else {
      RepeatedAddsAccumulate(db, paint, status, now, n - 1);
      NextCallIncrements(db, paint, status, now, n);
    }
  }

  /** `addOrIncrementInventoryItem(paint:status:modelContext:)`. A failing
    * fetch throws before anything changes. */
  method AddOrIncrementInventoryItem(store: Store, paint: PaintRec, status: InventoryStatus,
                                     now: int, fetchFails: bool)
    returns (r: Result<AddInventoryOutcome, StorageError>)
    modifies store
    ensures fetchFails ==> r == Failure(FetchFailed) && store.State() == old(store.State())
    ensures !fetchFails ==>
      && r == Success(AddOrIncrement(old(store.State()), paint, status, now).outcome)
      && store.State() == AddOrIncrement(old(store.State()), paint, status, now).db
    ensures store.deletions == old(store.deletions)
  {
    if fetchFails {
      return Failure(FetchFailed);
    }
    var found := FindItem(store.State(), KeyOf(paint), RawValue(status));
    match found
    case Some(i) =>
      store.SetQuantity(i, store.items[i].quantity + 1);
      r := Success(Incremented(store.items[i].quantity));
    case None =>
      var item := NewItem(store.nextId, paint.id, status, now);
      store.InsertItem(item);
      r := Success(AddedNew);
  }
}
