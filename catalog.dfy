/**
 * The catalog browser's search (`CatalogView.filtered`): a blank query
 * shows every paint; otherwise a paint is shown when the query occurs in
 * any of its six text fields, all compared in lower case.
 */
module Catalog {
  import opened Wrappers
  import opened Text
  import opened Seqs
  import opened PaintModel

  /** `p.barcode ?? ""`. */
  function BarcodeText(p: PaintRec): (s: string)
    ensures p.barcode.None? ==> s == ""
    ensures p.barcode.Some? ==> s == p.barcode.value
  {
    match p.barcode
    case Some(b) => b
    case None => ""
  }

  /** The query occurs in the lowercased name, code, brand, range, type or
    * barcode. */
  predicate CatalogMatches(p: PaintRec, q: string) {
    Contains(Lower(p.name), q) || Contains(Lower(p.code), q) || Contains(Lower(p.brandRaw), q) ||
    Contains(Lower(p.range), q) || Contains(Lower(p.typeRaw), q) || Contains(Lower(BarcodeText(p)), q)
  }

  /** `filtered`, over the query's result `paints`. */
  function Filtered(paints: seq<PaintRec>, searchText: string): (r: seq<PaintRec>)
    ensures |r| <= |paints|
  {
    var q := SearchQuery(searchText);
    if q == "" then paints else Filter(paints, (p: PaintRec) => CatalogMatches(p, q))
  }

  /** A query of whitespace only lists the whole catalog. */
  lemma BlankQueryShowsAll(paints: seq<PaintRec>, searchText: string)
    requires forall i :: 0 <= i < |searchText| ==> IsWhitespace(searchText[i])
    ensures Filtered(paints, searchText) == paints
  {
  }

  /** Otherwise a paint is listed exactly when it is in the catalog and one
    * of its six fields contains the query. */
  lemma FilteredMembers(paints: seq<PaintRec>, searchText: string, p: PaintRec)
    requires SearchQuery(searchText) != ""
    ensures p in Filtered(paints, searchText) <==> p in paints && CatalogMatches(p, SearchQuery(searchText))
  {
    var q := SearchQuery(searchText);
    FilterMembers(paints, (x: PaintRec) => CatalogMatches(x, q), p);
  }

  /** A nil barcode is searched as the empty text. */
  lemma NilBarcodeSearchedAsEmpty(p: PaintRec, q: string)
    ensures CatalogMatches(p.(barcode := None), q) == CatalogMatches(p.(barcode := Some("")), q)
  {
  }

  /** The results keep the catalog's order, whatever order that is (the query
    * sorts by brand, range and code). */
  lemma FilteredOrdered(paints: seq<PaintRec>, searchText: string, before: (PaintRec, PaintRec) -> bool)
    requires Ordered(paints, before)
    ensures Ordered(Filtered(paints, searchText), before)
  {
    var q := SearchQuery(searchText);
    if q != "" {
      FilterOrdered(paints, (p: PaintRec) => CatalogMatches(p, q), before);
    }
  }

  /** The results are the catalog with some paints left out. */
  lemma FilteredSubsequence(paints: seq<PaintRec>, searchText: string)
    ensures exists pos :: Embeds(Filtered(paints, searchText), paints, pos)
  {
    var q := SearchQuery(searchText);
    if q == "" {
      var pos := seq(|paints|, i requires 0 <= i < |paints| => i);
      assert Filtered(paints, searchText) == paints;
      assert Embeds(paints, paints, pos);
    } else {
      var pos := KeptPositions(paints, (p: PaintRec) => CatalogMatches(p, q));
      assert Embeds(Filtered(paints, searchText), paints, pos);
    }
  }
}
