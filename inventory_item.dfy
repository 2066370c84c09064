/** An inventory entry (`InventoryItem`) and its status bucket. */
module InventoryItemModel {
  import opened Wrappers

  /** `InventoryStatus`: the two buckets an entry belongs to. */
  datatype InventoryStatus = Owned | Wishlist

  function RawValue(s: InventoryStatus): string {
    match s
    case Owned => "owned"
    case Wishlist => "wishlist"
  }

  /** The label shown in the status picker. */
  function Title(s: InventoryStatus): (t: string)
    ensures t == (if s == Owned then "Owned" else "Wishlist")
  {
    match s
    case Owned => "Owned"
    case Wishlist => "Wishlist"
  }

  /** The `status` getter: `InventoryStatus(rawValue:) ?? .owned`, so any
    * text other than the two raw values reads as owned. */
  function StatusFromRaw(raw: string): (s: InventoryStatus)
    ensures RawValue(s) == raw || s == Owned
    ensures s == Wishlist <==> raw == "wishlist"
  {
    if raw == "wishlist" then Wishlist else Owned
  }

  lemma StatusRoundTrip(s: InventoryStatus)
    ensures StatusFromRaw(RawValue(s)) == s
  {
  }

  /** The two raw values differ and the titles are distinct. */
  lemma StatusRawInjective(a: InventoryStatus, b: InventoryStatus)
    ensures RawValue(a) == RawValue(b) <==> a == b
    ensures Title(a) == Title(b) <==> a == b
  {
  }

  /** A stored `InventoryItem`; `paintId` is the id of the paint it refers to. */
  datatype ItemRec = ItemRec(
    id: nat,
    paintId: nat,
    statusRaw: string,
    quantity: int,
    notes: Option<string>,
    createdAt: int)

  function StatusOf(it: ItemRec): InventoryStatus {
    StatusFromRaw(it.statusRaw)
  }

  /** The `status` setter stores the raw value and nothing else. */
  function WithStatus(it: ItemRec, s: InventoryStatus): (r: ItemRec)
    ensures StatusOf(r) == s
    ensures r.id == it.id && r.paintId == it.paintId && r.quantity == it.quantity
    ensures r.notes == it.notes && r.createdAt == it.createdAt
  {
    it.(statusRaw := RawValue(s))
  }

  /** `InventoryItem(paint:status:quantity:notes:createdAt:)`: quantity 1 and
    * nil notes unless given; `createdAt` is the caller's clock reading. */
  function NewItem(id: nat, paintId: nat, status: InventoryStatus, createdAt: int,
                   quantity: int := 1, notes: Option<string> := None): (it: ItemRec)
    ensures it.id == id && it.paintId == paintId && StatusOf(it) == status
    ensures it.statusRaw == RawValue(status)
    ensures it.quantity == quantity && it.notes == notes && it.createdAt == createdAt
  {
    ItemRec(id, paintId, RawValue(status), quantity, notes, createdAt)
  }
}
