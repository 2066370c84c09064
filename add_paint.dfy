/**
 * The manual "Add Paint" form (`AddPaintView`): the save button's guard and
 * `save()`, which merges into an existing paint with its own policy (type
 * and name overwritten, barcode first-write-wins), or inserts a new paint,
 * and then always inserts a new inventory entry, without the reconciler.
 */
module AddPaint {
  import opened Wrappers
  import opened Text
  import opened PaintModel
  import opened InventoryItemModel
  import opened StoreModel
  import opened InventoryActions

  /** The form's state when Save is tapped. */
  datatype Form = Form(
    brand: PaintBrand,
    range: string,
    ptype: PaintType,
    code: string,
    name: string,
    barcode: string,
    status: InventoryStatus,
    quantity: int,
    notes: string)

  const LookupFailedMessage: string := "Could not check existing paints. Try again."

  /** Some character of `s` is not whitespace. */
  predicate HasText(s: string) {
    exists i :: 0 <= i < |s| && !IsWhitespace(s[i])
  }

  /** The Save button is enabled when range, code and name are not blank. */
  function CanSave(f: Form): bool {
    Trim(f.range) != "" && Trim(f.code) != "" && Trim(f.name) != ""
  }

  /** So Save is enabled exactly when each of the three fields holds a
    * character that is not whitespace. */
  lemma CanSaveIff(f: Form)
    ensures CanSave(f) <==> HasText(f.range) && HasText(f.code) && HasText(f.name)
  {
    TrimEmptyIff(f.range);
    TrimEmptyIff(f.code);
    TrimEmptyIff(f.name);
  }

  /** The stepper keeps the quantity within 1...99. */
  predicate StepperRange(q: int) {
    1 <= q <= 99
  }

  /** `s.isEmpty ? nil : s`. */
  function NilIfEmpty(s: string): (r: Option<string>)
    ensures r.None? <==> s == ""
    ensures r.Some? ==> r.value == s
  {
    if s == "" then None else Some(s)
  }

  /** The key `save()` looks up: trimmed range, trimmed and uppercased code. */
  function FormKey(f: Form): (k: Key)
    ensures k.brandRaw == BrandRaw(f.brand)
    ensures k.range == Trim(f.range) && IsTrimmed(k.range)
    ensures k.code == Upper(Trim(f.code))
    ensures forall i :: 0 <= i < |k.code| ==> !('a' <= k.code[i] <= 'z')
  {
    Key(BrandRaw(f.brand), Trim(f.range), Upper(Trim(f.code)))
  }

  /** The same paint typed with extra whitespace around range and code, or
    * with its code in lower case, is looked up under the same key. */
  lemma FormKeyIgnoresPaddingAndCase(f: Form, w1: string, w2: string)
    requires AllWhitespace(w1) && AllWhitespace(w2)
    ensures FormKey(f.(range := w1 + f.range + w2)) == FormKey(f)
    ensures FormKey(f.(code := w1 + f.code + w2)) == FormKey(f)
    ensures FormKey(f.(code := Lower(f.code))) == FormKey(f)
  {
    TrimPadded(w1, f.range, w2);
    TrimPadded(w1, f.code, w2);
    LowerTrimCommute(f.code);
    UpperOfLower(Trim(f.code));
  }

  /** An existing paint after the form's merge: type and name overwritten,
    * identity untouched, and a barcode only if none was stored. */
  function MergeForm(p: PaintRec, f: Form): (r: PaintRec)
    ensures r.id == p.id && KeyOf(r) == KeyOf(p)
    ensures TypeOf(r) == f.ptype && r.name == Trim(f.name)
  {
    TypeRoundTrip(f.ptype);
    var barcodeN := Trim(f.barcode);
    p.(typeRaw := TypeRaw(f.ptype), name := Trim(f.name),
       barcode := if barcodeN != "" && (p.barcode.None? || p.barcode.value == "") then Some(barcodeN) else p.barcode)
  }

  /** First write wins: a stored non-empty barcode is never replaced; an
    * absent or empty one takes the form's barcode when that is not blank. */
  lemma BarcodeFirstWriteWins(p: PaintRec, f: Form)
    ensures p.barcode.Some? && p.barcode.value != "" ==> MergeForm(p, f).barcode == p.barcode
    ensures (p.barcode.None? || p.barcode.value == "") && Trim(f.barcode) != "" ==>
      MergeForm(p, f).barcode == Some(Trim(f.barcode))
    ensures Trim(f.barcode) == "" ==> MergeForm(p, f).barcode == p.barcode
  {
  }

  /** The paint `save()` inserts when it finds none. */
  function FormPaint(id: nat, f: Form): (p: PaintRec)
    ensures p.id == id && KeyOf(p) == FormKey(f)
    ensures BrandOf(p) == f.brand && TypeOf(p) == f.ptype && p.name == Trim(f.name)
    ensures p.barcode.None? <==> !HasText(f.barcode)
    ensures p.barcode.Some? ==> p.barcode.value == Trim(f.barcode)
  {
    TrimEmptyIff(f.barcode);
    NewPaint(id, f.brand, Trim(f.range), f.ptype, Upper(Trim(f.code)), Trim(f.name), NilIfEmpty(Trim(f.barcode)))
  }

  /** The outcome of a save: the new state, the position of the saved paint,
    * and the error text the form shows. */
  datatype Saved = Saved(db: Db, at: nat, errorMessage: Option<string>)

  /** `save()`. A failing lookup shows its message and counts as "not found". */
  function Save(db: Db, f: Form, now: int, lookupFails: bool): (s: Saved)
    ensures s.at < |s.db.paints|
    ensures s.errorMessage == (if lookupFails then Some(LookupFailedMessage) else None)
  {
    var found := if lookupFails then None else FindPaint(db.paints, FormKey(f));
    var at := if found.Some? then found.value else |db.paints|;
    var mid := if found.Some? then ReplacePaint(db, at, MergeForm(db.paints[at], f)) else InsertPaintInto(db, FormPaint(db.nextId, f));
    var item := NewItem(mid.nextId, mid.paints[at].id, f.status, now, f.quantity, NilIfEmpty(Trim(f.notes)));
    Saved(InsertItemInto(mid, item), at, if lookupFails then Some(LookupFailedMessage) else None)
  }

  /** Whatever was found, the saved paint carries the normalised key, type
    * and name, and exactly one entry is appended for it with the form's
    * status and quantity, nil notes when blank, and the clock reading. */
  lemma SaveStoresForm(db: Db, f: Form, now: int, lookupFails: bool)
    ensures var s := Save(db, f, now, lookupFails);
      var p := s.db.paints[s.at];
      && KeyOf(p) == FormKey(f) && TypeOf(p) == f.ptype && p.name == Trim(f.name)
      && |s.db.items| == |db.items| + 1
      && s.db.items[..|db.items|] == db.items
      && var it := s.db.items[|db.items|];
         it.paintId == p.id && it.statusRaw == RawValue(f.status) && it.quantity == f.quantity &&
         it.notes == NilIfEmpty(Trim(f.notes)) && it.createdAt == now &&
         (it.notes.Some? ==> it.notes.value != "" && IsTrimmed(it.notes.value))
  {
    var s := Save(db, f, now, lookupFails);
    assert s.db.items[..|db.items|] == db.items;
  }

  /** A quantity set with the stepper is stored within 1...99. */
  lemma SavedQuantityInStepperRange(db: Db, f: Form, now: int, lookupFails: bool)
    requires StepperRange(f.quantity)
    ensures var s := Save(db, f, now, lookupFails); StepperRange(s.db.items[|s.db.items| - 1].quantity)
  {
    SaveStoresForm(db, f, now, lookupFails);
  }

  /** An existing paint with the form's key is updated in place: no paint is
    * inserted, every other paint is untouched. */
  lemma SaveUpdatesExisting(db: Db, f: Form, now: int)
    requires FindPaint(db.paints, FormKey(f)).Some?
    ensures var s := Save(db, f, now, false);
      var j := FindPaint(db.paints, FormKey(f)).value;
      && s.at == j && |s.db.paints| == |db.paints|
      && s.db.paints[j] == MergeForm(db.paints[j], f)
      && (forall i :: 0 <= i < |db.paints| && i != j ==> s.db.paints[i] == db.paints[i])
      && s.db.nextId == db.nextId + 1
  {
  }

  /** With no paint found, or a failing lookup, a new paint with the next id
    * and the normalised fields is appended; an empty barcode is stored as
    * nil. */
  lemma SaveInsertsNew(db: Db, f: Form, now: int, lookupFails: bool)
    requires lookupFails || FindPaint(db.paints, FormKey(f)).None?
    ensures var s := Save(db, f, now, lookupFails);
      && s.db.paints == db.paints + [FormPaint(db.nextId, f)]
      && s.at == |db.paints|
      && s.db.paints[s.at].barcode == NilIfEmpty(Trim(f.barcode))
      && s.db.nextId == db.nextId + 2
  {
  }

  /** A save keeps the store well formed. */
  lemma SaveKeeps(db: Db, f: Form, now: int, lookupFails: bool)
    requires WellFormed(db)
    ensures WellFormed(Save(db, f, now, lookupFails).db)
  {
    var found := if lookupFails then None else FindPaint(db.paints, FormKey(f));
    match found
    case Some(j) =>
      var mid := ReplacePaint(db, j, MergeForm(db.paints[j], f));
      ReplacePaintKeeps(db, j, MergeForm(db.paints[j], f));
      PaintByIdOfStored(mid.paints, mid.paints[j]);
      InsertItemKeeps(mid, NewItem(mid.nextId, mid.paints[j].id, f.status, now, f.quantity, NilIfEmpty(Trim(f.notes))));
    case None =>
      var p := FormPaint(db.nextId, f);
      var mid := InsertPaintInto(db, p);
      InsertPaintKeeps(db, p);
      PaintByIdOfStored(mid.paints, p);
      InsertItemKeeps(mid, NewItem(mid.nextId, p.id, f.status, now, f.quantity, NilIfEmpty(Trim(f.notes))));
  }

  /** No deduplication: when an entry for the key and status exists, a save
    * adds a second one, so "at most one entry per key and status", which
    * the reconciler keeps, no longer holds. */
  lemma SaveDuplicatesEntry(db: Db, f: Form, now: int)
    requires WellFormed(db) && HasMatch(db, FormKey(f), RawValue(f.status))
    ensures !AtMostOnePerKey(Save(db, f, now, false).db)
  {
    var k, raw := FormKey(f), RawValue(f.status);
    var i :| 0 <= i < |db.items| && Matches(db.paints, db.items[i], k, raw);
    var p := PaintById(db.paints, db.items[i].paintId).value;
    var t :| 0 <= t < |db.paints| && db.paints[t] == p;
    var j := FindPaint(db.paints, k).value;
    var s := Save(db, f, now, false);
    SaveUpdatesExisting(db, f, now);
    SaveKeeps(db, f, now, false);
    SaveStoresForm(db, f, now, false);
    var n := |db.items|;
    SaveSamePaints(db, f, now);
    PaintByIdOfStored(s.db.paints, s.db.paints[j]);
    assert ItemKey(s.db.paints, s.db.items[n]) == Some(k);
    ItemKeySame(s.db.paints, db.paints, db.items[i]);
    assert s.db.items[i] == db.items[i];
    TwoMatchesBreak(s.db, i, n, k, raw);
  }

  /** Updating an existing paint keeps every paint's id and key. */
  lemma SaveSamePaints(db: Db, f: Form, now: int)
    requires FindPaint(db.paints, FormKey(f)).Some?
    ensures SamePaints(Save(db, f, now, false).db.paints, db.paints)
  {
    var ps := Save(db, f, now, false).db.paints;
    var j := FindPaint(db.paints, FormKey(f)).value;
    assert ps == db.paints[j := MergeForm(db.paints[j], f)];
  }

  lemma TwoMatchesBreak(db: Db, i: nat, n: nat, k: Key, raw: string)
    requires i < n < |db.items|
    requires Matches(db.paints, db.items[i], k, raw) && Matches(db.paints, db.items[n], k, raw)
    ensures !AtMostOnePerKey(db)
  {
  }

  /** A failing lookup inserts a second paint with a key that is already
    * stored, which the importer's upsert never does. */
  lemma LookupFailureDuplicatesPaint(db: Db, f: Form, now: int)
    requires FindPaint(db.paints, FormKey(f)).Some?
    ensures var s := Save(db, f, now, true);
      var j := FindPaint(db.paints, FormKey(f)).value;
      j != s.at && KeyOf(s.db.paints[j]) == KeyOf(s.db.paints[s.at])
  {
  }

  /** `save()` on the shared context. */
  method SaveForm(store: Store, f: Form, now: int, lookupFails: bool) returns (errorMessage: Option<string>)
    modifies store
    ensures store.State() == Save(old(store.State()), f, now, lookupFails).db
    ensures errorMessage == Save(old(store.State()), f, now, lookupFails).errorMessage
    ensures store.deletions == old(store.deletions)
  {
    errorMessage := None;
    var found: Option<nat>;
    if lookupFails {
      errorMessage := Some(LookupFailedMessage);
      found := None;
    } else {
      found := FindPaint(store.paints, FormKey(f));
    }
    var at: nat;
    if found.Some? {
      at := found.value;
      store.SetPaint(at, MergeForm(store.paints[at], f));
    } else {
      at := |store.paints|;
      store.InsertPaint(FormPaint(store.nextId, f));
    }
    var item := NewItem(store.nextId, store.paints[at].id, f.status, now, f.quantity, NilIfEmpty(Trim(f.notes)));
    store.InsertItem(item);
  }
}
