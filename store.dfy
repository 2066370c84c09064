/**
 * The persistence context the views share (`ModelContext`), held in memory:
 * the catalog's paints and the inventory's items, each in insertion order,
 * and the next fresh object id. A fetch with a predicate and `.first` is the
 * first match in sequence order; an insert appends; a delete removes the
 * object, and deleting a paint also deletes every item that refers to it
 * (the cascade rule on `Paint.inventoryItems`).
 */
module StoreModel {
  import opened Wrappers
  import opened Seqs
  import opened PaintModel
  import opened InventoryItemModel

  datatype Db = Db(paints: seq<PaintRec>, items: seq<ItemRec>, nextId: nat)

  /** An object named in the log of deletions. */
  datatype Ref = PaintRef(id: nat) | ItemRef(id: nat)

  /** The paint object with identity `id`, if it is stored. */
  function PaintById(ps: seq<PaintRec>, id: nat): (r: Option<PaintRec>)
    ensures r.Some? ==> r.value in ps && r.value.id == id
    ensures r.None? ==> forall j :: 0 <= j < |ps| ==> ps[j].id != id
  {
    if ps == [] then None
    else if ps[0].id == id then Some(ps[0])
    else PaintById(ps[1..], id)
  }

  /** With unique ids, a stored paint is the one its id names. */
  lemma {:induction false} PaintByIdOfStored(ps: seq<PaintRec>, p: PaintRec)
    requires p in ps
    requires forall i, j :: 0 <= i < j < |ps| ==> ps[i].id != ps[j].id
    ensures PaintById(ps, p.id) == Some(p)
  {
    if ps[0] != p {
      assert ps[0].id != p.id by {
        var k :| 0 <= k < |ps| && ps[k] == p;
        assert k > 0;
      }
      PaintByIdOfStored(ps[1..], p);
    }
  }

  /** The identity key of the paint an item refers to (`item.paint`). */
  function ItemKey(ps: seq<PaintRec>, it: ItemRec): Option<Key> {
    match PaintById(ps, it.paintId)
    case Some(p) => Some(KeyOf(p))
    case None => None
  }

  /** Same length, and the same id and key at every position. */
  ghost predicate SamePaints(ps1: seq<PaintRec>, ps2: seq<PaintRec>) {
    |ps1| == |ps2| && forall j :: 0 <= j < |ps1| ==> ps1[j].id == ps2[j].id && KeyOf(ps1[j]) == KeyOf(ps2[j])
  }

  /** Paints with the same ids and keys give every item the same key. */
  lemma {:induction false} ItemKeySame(ps1: seq<PaintRec>, ps2: seq<PaintRec>, it: ItemRec)
    requires SamePaints(ps1, ps2)
    ensures ItemKey(ps1, it) == ItemKey(ps2, it)
  {
    if ps1 != [] && ps1[0].id != it.paintId {
      ItemKeySame(ps1[1..], ps2[1..], it);
    }
  }

  /** The fetch predicate of the reconciler and of the importer's owned-quantity
    * step: same raw status, and a paint with the same identity key. */
  predicate Matches(ps: seq<PaintRec>, it: ItemRec, k: Key, statusRaw: string) {
    it.statusRaw == statusRaw && ItemKey(ps, it) == Some(k)
  }

  /** `fetch(<brandRaw, range, manufacturerCode == k>).first` on paints. */
  function FindPaint(ps: seq<PaintRec>, k: Key): (r: Option<nat>)
    ensures r.Some? ==> r.value < |ps| && KeyOf(ps[r.value]) == k
    ensures r.Some? ==> forall j :: 0 <= j < r.value ==> KeyOf(ps[j]) != k
    ensures r.None? ==> forall j :: 0 <= j < |ps| ==> KeyOf(ps[j]) != k
  {
    if ps == [] then None
    else if KeyOf(ps[0]) == k then Some(0)
    else match FindPaint(ps[1..], k)
      case None => None
      case Some(j) => Some(j + 1)
  }

  /** The first of `items` that `Matches` `(k, statusRaw)`. */
  function FirstItem(ps: seq<PaintRec>, items: seq<ItemRec>, k: Key, statusRaw: string): (r: Option<nat>)
    ensures r.Some? ==> r.value < |items| && Matches(ps, items[r.value], k, statusRaw)
    ensures r.Some? ==> forall j :: 0 <= j < r.value ==> !Matches(ps, items[j], k, statusRaw)
    ensures r.None? ==> forall j :: 0 <= j < |items| ==> !Matches(ps, items[j], k, statusRaw)
  {
    if items == [] then None
    else if Matches(ps, items[0], k, statusRaw) then Some(0)
    else match FirstItem(ps, items[1..], k, statusRaw)
      case None => None
      case Some(j) => Some(j + 1)
  }

  /** `fetch(<statusRaw, paint key>).first` on inventory items. */
  function FindItem(db: Db, k: Key, statusRaw: string): Option<nat> {
    FirstItem(db.paints, db.items, k, statusRaw)
  }

  /** The store's invariant: object ids are unique and below `nextId`, and
    * every item refers to a stored paint, which the cascade keeps true. */
  ghost predicate WellFormed(db: Db) {
    (forall i :: 0 <= i < |db.paints| ==> db.paints[i].id < db.nextId) &&
    (forall i, j :: 0 <= i < j < |db.paints| ==> db.paints[i].id != db.paints[j].id) &&
    (forall i :: 0 <= i < |db.items| ==> db.items[i].id < db.nextId) &&
    (forall i, j :: 0 <= i < j < |db.items| ==> db.items[i].id != db.items[j].id) &&
    (forall i :: 0 <= i < |db.items| ==> PaintById(db.paints, db.items[i].paintId).Some?)
  }

  /** `paint.inventoryItems`: the inverse of `InventoryItem.paint`. */
  function InventoryItemsOf(db: Db, paintId: nat): seq<ItemRec> {
    Filter(db.items, (it: ItemRec) => it.paintId == paintId)
  }

  /** The log entries of deleting `items` in order. */
  function ItemRefs(items: seq<ItemRec>): (r: seq<Ref>)
    ensures |r| == |items| && forall i :: 0 <= i < |r| ==> r[i] == ItemRef(items[i].id)
  {
    if items == [] then [] else ItemRefs(items[..|items| - 1]) + [ItemRef(items[|items| - 1].id)]
  }

  /** The log entries of deleting `paints` in order. */
  function PaintRefs(paints: seq<PaintRec>): (r: seq<Ref>)
    ensures |r| == |paints| && forall i :: 0 <= i < |r| ==> r[i] == PaintRef(paints[i].id)
  {
    if paints == [] then [] else PaintRefs(paints[..|paints| - 1]) + [PaintRef(paints[|paints| - 1].id)]
  }

  // ---------------------------------------------------------------------
  // The store's primitive changes, as functions of the old state

  function InsertPaintInto(db: Db, p: PaintRec): Db
    requires p.id == db.nextId
  {
    Db(db.paints + [p], db.items, db.nextId + 1)
  }

  function InsertItemInto(db: Db, it: ItemRec): Db
    requires it.id == db.nextId
  {
    Db(db.paints, db.items + [it], db.nextId + 1)
  }

  /** A write to the stored fields of the paint at position `j`. */
  function ReplacePaint(db: Db, j: nat, p: PaintRec): Db
    requires j < |db.paints|
  {
    db.(paints := db.paints[j := p])
  }

  /** A write to `quantity` of the item at position `i`. */
  function ReplaceQuantity(db: Db, i: nat, q: int): Db
    requires i < |db.items|
  {
    db.(items := db.items[i := db.items[i].(quantity := q)])
  }

  function DeleteItemFrom(db: Db, id: nat): Db {
    db.(items := Filter(db.items, (it: ItemRec) => it.id != id))
  }

  /** Deleting a paint cascades to the items that refer to it. */
  function DeletePaintFrom(db: Db, id: nat): Db {
    db.(paints := Filter(db.paints, (p: PaintRec) => p.id != id),
        items := Filter(db.items, (it: ItemRec) => it.paintId != id))
  }

  /** The items a paint deletion takes with it, in store order. */
  function CascadeRefs(db: Db, id: nat): seq<Ref> {
    var gone := InventoryItemsOf(db, id);
    seq(|gone|, i requires 0 <= i < |gone| => ItemRef(gone[i].id))
  }

  // ---------------------------------------------------------------------
  // The invariant under each change

  lemma InsertPaintKeeps(db: Db, p: PaintRec)
    requires WellFormed(db) && p.id == db.nextId
    ensures WellFormed(InsertPaintInto(db, p))
    ensures InventoryItemsOf(InsertPaintInto(db, p), p.id) == []
  {
    var db' := InsertPaintInto(db, p);
    forall i | 0 <= i < |db'.items| ensures PaintById(db'.paints, db'.items[i].paintId).Some? {
      PaintByIdAppend(db.paints, p, db.items[i].paintId);
    }
    NoItemForFreshId(db);
    FilterNone(db.items, (it: ItemRec) => it.paintId == p.id);
  }

  /** No stored item refers to the id the next insert will take. */
  lemma NoItemForFreshId(db: Db)
    requires WellFormed(db)
    ensures forall i :: 0 <= i < |db.items| ==> db.items[i].paintId != db.nextId
  {
    forall i | 0 <= i < |db.items| ensures db.items[i].paintId != db.nextId {
      var r := PaintById(db.paints, db.items[i].paintId);
      var k :| 0 <= k < |db.paints| && db.paints[k] == r.value;
    }
  }

  /** Appending a paint does not change which paint an existing id names. */
  lemma {:induction false} PaintByIdAppend(ps: seq<PaintRec>, p: PaintRec, id: nat)
    requires PaintById(ps, id).Some?
    ensures PaintById(ps + [p], id) == PaintById(ps, id)
  {
    if ps[0].id != id {
      assert (ps + [p])[1..] == ps[1..] + [p];
      PaintByIdAppend(ps[1..], p, id);
    }
  }

  lemma InsertItemKeeps(db: Db, it: ItemRec)
    requires WellFormed(db) && it.id == db.nextId
    requires PaintById(db.paints, it.paintId).Some?
    ensures WellFormed(InsertItemInto(db, it))
    ensures InventoryItemsOf(InsertItemInto(db, it), it.paintId) == InventoryItemsOf(db, it.paintId) + [it]
  {
    FilterAppend(db.items, it, (x: ItemRec) => x.paintId == it.paintId);
  }

  lemma ReplacePaintKeeps(db: Db, j: nat, p: PaintRec)
    requires WellFormed(db) && j < |db.paints| && p.id == db.paints[j].id
    ensures WellFormed(ReplacePaint(db, j, p))
  {
    var db' := ReplacePaint(db, j, p);
    forall i | 0 <= i < |db'.items| ensures PaintById(db'.paints, db'.items[i].paintId).Some? {
      var r := PaintById(db.paints, db.items[i].paintId);
      var k :| 0 <= k < |db.paints| && db.paints[k] == r.value;
      assert db'.paints[k].id == db.items[i].paintId;
    }
  }

  lemma ReplaceQuantityKeeps(db: Db, i: nat, q: int)
    requires WellFormed(db) && i < |db.items|
    ensures WellFormed(ReplaceQuantity(db, i, q))
  {
  }

  /** Deleting an item removes exactly the item with that id. */
  lemma DeleteItemKeeps(db: Db, id: nat)
    requires WellFormed(db)
    ensures WellFormed(DeleteItemFrom(db, id))
    ensures forall it :: it in DeleteItemFrom(db, id).items <==> it in db.items && it.id != id
  {
    DeleteItemMembers(db, id);
    var pos := KeptPositions(db.items, (x: ItemRec) => x.id != id);
  }

  lemma DeleteItemMembers(db: Db, id: nat)
    ensures forall it :: it in DeleteItemFrom(db, id).items <==> it in db.items && it.id != id
  {
    var db' := DeleteItemFrom(db, id);
    forall it ensures it in db'.items <==> it in db.items && it.id != id {
      FilterMembers(db.items, (x: ItemRec) => x.id != id, it);
    }
  }

  /** The cascade: deleting a paint leaves no item that refers to it, keeps
    * every item that does not, and keeps every other paint. */
  lemma DeletePaintKeeps(db: Db, id: nat)
    requires WellFormed(db)
    ensures WellFormed(DeletePaintFrom(db, id))
    ensures forall it :: it in DeletePaintFrom(db, id).items <==> it in db.items && it.paintId != id
    ensures forall p :: p in DeletePaintFrom(db, id).paints <==> p in db.paints && p.id != id
    ensures InventoryItemsOf(DeletePaintFrom(db, id), id) == []
  {
    DeletePaintMembers(db, id);
    DistinctIdsFiltered(db, id);
    var db' := DeletePaintFrom(db, id);
    forall i | 0 <= i < |db'.items| ensures PaintById(db'.paints, db'.items[i].paintId).Some? {
      var it := db'.items[i];
      var p := PaintById(db.paints, it.paintId).value;
      assert p in db'.paints;
    }
    FilterNone(db'.items, (x: ItemRec) => x.paintId == id);
  }

  lemma DeletePaintMembers(db: Db, id: nat)
    ensures forall it :: it in DeletePaintFrom(db, id).items <==> it in db.items && it.paintId != id
    ensures forall p :: p in DeletePaintFrom(db, id).paints <==> p in db.paints && p.id != id
  {
    var db' := DeletePaintFrom(db, id);
    forall it ensures it in db'.items <==> it in db.items && it.paintId != id {
      FilterMembers(db.items, (x: ItemRec) => x.paintId != id, it);
    }
    forall p ensures p in db'.paints <==> p in db.paints && p.id != id {
      FilterMembers(db.paints, (x: PaintRec) => x.id != id, p);
    }
  }

  lemma DistinctIdsFiltered(db: Db, id: nat)
    requires WellFormed(db)
    ensures var db' := DeletePaintFrom(db, id);
      (forall i, j :: 0 <= i < j < |db'.paints| ==> db'.paints[i].id != db'.paints[j].id) &&
      (forall i, j :: 0 <= i < j < |db'.items| ==> db'.items[i].id != db'.items[j].id)
  {
    FilterOrdered(db.paints, (x: PaintRec) => x.id != id, (a: PaintRec, b: PaintRec) => a.id != b.id);
    FilterOrdered(db.items, (x: ItemRec) => x.paintId != id, (a: ItemRec, b: ItemRec) => a.id != b.id);
  }

  /** The context. Methods that change it say what the new state is as a
    * function of the old one; `deletions` logs every deleted object in order. */
  class Store {
    var paints: seq<PaintRec>
    var items: seq<ItemRec>
    var nextId: nat
    ghost var deletions: seq<Ref>

    function State(): Db
      reads this
    {
      Db(paints, items, nextId)
    }

    constructor ()
      ensures State() == Db([], [], 0) && deletions == []
    {
      paints, items, nextId := [], [], 0;
      deletions := [];
    }

    /** `modelContext.insert(paint)` for a paint just made with the next id. */
    method InsertPaint(p: PaintRec)
      requires p.id == nextId
      modifies this
      ensures State() == InsertPaintInto(old(State()), p) && deletions == old(deletions)
    {
      paints := paints + [p];
      nextId := nextId + 1;
    }

    /** `modelContext.insert(item)` for an item just made with the next id. */
    method InsertItem(it: ItemRec)
      requires it.id == nextId
      modifies this
      ensures State() == InsertItemInto(old(State()), it) && deletions == old(deletions)
    {
      items := items + [it];
      nextId := nextId + 1;
    }

    /** Field writes on a fetched paint. */
    method SetPaint(j: nat, p: PaintRec)
      requires j < |paints|
      modifies this
      ensures State() == ReplacePaint(old(State()), j, p) && deletions == old(deletions)
    {
      paints := paints[j := p];
    }

    /** `existing.quantity = q` on a fetched item. */
    method SetQuantity(i: nat, q: int)
      requires i < |items|
      modifies this
      ensures State() == ReplaceQuantity(old(State()), i, q) && deletions == old(deletions)
    {
      items := items[i := items[i].(quantity := q)];
    }

    /** `modelContext.delete(item)`. */
    method DeleteItem(id: nat)
      modifies this
      ensures State() == DeleteItemFrom(old(State()), id)
      ensures deletions == old(deletions) + [ItemRef(id)]
    {
      items := Filter(items, (it: ItemRec) => it.id != id);
      deletions := deletions + [ItemRef(id)];
    }

    /** `modelContext.delete(paint)`, with the cascade to its items. */
    method DeletePaint(id: nat)
      modifies this
      ensures State() == DeletePaintFrom(old(State()), id)
      ensures deletions == old(deletions) + CascadeRefs(old(State()), id) + [PaintRef(id)]
    {
      deletions := deletions + CascadeRefs(State(), id) + [PaintRef(id)];
      paints := Filter(paints, (p: PaintRec) => p.id != id);
      items := Filter(items, (it: ItemRec) => it.paintId != id);
    }
  }
}
