/**
 * The home screen (`HomeView`): a search over name and manufacturer code
 * only, which shows nothing for a blank query, and swipe actions that add a
 * paint through the reconciler.
 */
module Home {
  import opened Wrappers
  import opened Text
  import opened Seqs
  import opened PaintModel
  import opened InventoryItemModel
  import opened StoreModel
  import opened InventoryActions
  import Catalog

  /** The query occurs in the lowercased name or manufacturer code. */
  predicate HomeMatches(p: PaintRec, q: string) {
    Contains(Lower(p.name), q) || Contains(Lower(p.code), q)
  }

  /** `filteredPaints`, over the name-sorted `allPaints`. */
  function FilteredPaints(allPaints: seq<PaintRec>, searchText: string): (r: seq<PaintRec>)
    ensures |r| <= |allPaints|
    ensures SearchQuery(searchText) == "" ==> r == []
    ensures forall i :: 0 <= i < |r| ==> r[i] in allPaints && HomeMatches(r[i], SearchQuery(searchText))
  {
    var q := SearchQuery(searchText);
    if q == "" then [] else Filter(allPaints, (p: PaintRec) => HomeMatches(p, q))
  }

  /** A paint is listed exactly when the query is not blank, the paint is in
    * the catalog, and its name or code contains the query. */
  lemma FilteredPaintsMembers(allPaints: seq<PaintRec>, searchText: string, p: PaintRec)
    ensures p in FilteredPaints(allPaints, searchText) <==>
      SearchQuery(searchText) != "" && p in allPaints && HomeMatches(p, SearchQuery(searchText))
  {
    var q := SearchQuery(searchText);
    if q != "" {
      FilterMembers(allPaints, (x: PaintRec) => HomeMatches(x, q), p);
    }
  }

  /** Brand, range, type and barcode are not searched. */
  lemma OnlyNameAndCodeSearched(p: PaintRec, q: string, brandRaw: string, range: string, typeRaw: string, barcode: Option<string>)
    ensures HomeMatches(p.(brandRaw := brandRaw, range := range, typeRaw := typeRaw, barcode := barcode), q) == HomeMatches(p, q)
  {
  }

  /** Every home result is also a catalog result for the same text. */
  lemma HomeWithinCatalog(paints: seq<PaintRec>, searchText: string, p: PaintRec)
    requires p in FilteredPaints(paints, searchText)
    ensures p in Catalog.Filtered(paints, searchText)
  {
    FilteredPaintsMembers(paints, searchText, p);
    Catalog.FilteredMembers(paints, searchText, p);
  }

  /** The results keep the name-sorted order of `allPaints`. */
  lemma FilteredPaintsOrdered(allPaints: seq<PaintRec>, searchText: string, before: (PaintRec, PaintRec) -> bool)
    requires Ordered(allPaints, before)
    ensures Ordered(FilteredPaints(allPaints, searchText), before)
  {
    var q := SearchQuery(searchText);
    if q != "" {
      FilterOrdered(allPaints, (p: PaintRec) => HomeMatches(p, q), before);
    }
  }

  /** The results are `allPaints` with some paints left out. */
  lemma FilteredPaintsSubsequence(allPaints: seq<PaintRec>, searchText: string)
    ensures exists pos :: Embeds(FilteredPaints(allPaints, searchText), allPaints, pos)
  {
    var q := SearchQuery(searchText);
    if q == "" {
      assert FilteredPaints(allPaints, searchText) == [];
      assert Embeds([], allPaints, []);
    } else {
      var pos := KeptPositions(allPaints, (p: PaintRec) => HomeMatches(p, q));
      assert Embeds(FilteredPaints(allPaints, searchText), allPaints, pos);
    }
  }

  /** The two swipe edges of a result row. */
  datatype SwipeEdge = Leading | Trailing

  /** A leading swipe adds to the collection, a trailing one to the wishlist. */
  function SwipeStatus(edge: SwipeEdge): (s: InventoryStatus)
    ensures s == Owned <==> edge == Leading
    ensures s == Wishlist <==> edge == Trailing
  {
    match edge
    case Leading => Owned
    case Trailing => Wishlist
  }

  /** `quickAdd(paint:status:)` from a swipe: the reconciler with the edge's
    * status; the toast it shows is not modelled. */
  method QuickAdd(store: Store, paint: PaintRec, edge: SwipeEdge, now: int, fetchFails: bool)
      returns (r: Result<AddInventoryOutcome, StorageError>)
    modifies store
    ensures fetchFails ==> r == Failure(FetchFailed) && store.State() == old(store.State())
    ensures !fetchFails ==>
      && r == Success(AddOrIncrement(old(store.State()), paint, SwipeStatus(edge), now).outcome)
      && store.State() == AddOrIncrement(old(store.State()), paint, SwipeStatus(edge), now).db
    ensures store.deletions == old(store.deletions)
  {
    r := AddOrIncrementInventoryItem(store, paint, SwipeStatus(edge), now, fetchFails);
  }
}
