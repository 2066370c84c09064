/** Order-keeping filters over sequences: Swift's `Array.filter`. */
module Seqs {

  /** The elements of `s` that satisfy `p`, in the order of `s`. */
  function Filter<T>(s: seq<T>, p: T -> bool): (r: seq<T>)
    ensures |r| <= |s|
    ensures forall i :: 0 <= i < |r| ==> r[i] in s && p(r[i])
  {
    if s == [] then []
    else
      var rest := Filter(s[..|s| - 1], p);
      if p(s[|s| - 1]) then rest + [s[|s| - 1]] else rest
  }

  /** An element is kept exactly when it is in `s` and satisfies `p`. */
  lemma {:induction false} FilterMembers<T>(s: seq<T>, p: T -> bool, x: T)
    ensures x in Filter(s, p) <==> x in s && p(x)
  {
    if s != [] {
      FilterMembers(s[..|s| - 1], p, x);
      assert s == s[..|s| - 1] + [s[|s| - 1]];
    }
  }

  /** Filtering out only the first element leaves the rest. */
  lemma {:induction false} FilterDropsHead<T>(s: seq<T>, p: T -> bool)
    requires s != [] && !p(s[0])
    requires forall i :: 1 <= i < |s| ==> p(s[i])
    ensures Filter(s, p) == s[1..]
  {
    if |s| > 1 {
      FilterDropsHead(s[..|s| - 1], p);
      assert s[..|s| - 1][1..] + [s[|s| - 1]] == s[1..];
    }
  }

  /** `before` holds of every pair taken from `s` in order. */
  ghost predicate Ordered<T>(s: seq<T>, before: (T, T) -> bool) {
    forall i, j :: 0 <= i < j < |s| ==> before(s[i], s[j])
  }

  /** `r` is `s` with some elements left out and the rest in the same order:
    * `pos` gives, for each element of `r`, its increasing position in `s`. */
  ghost predicate Embeds<T>(r: seq<T>, s: seq<T>, pos: seq<nat>) {
    |pos| == |r| &&
    (forall i :: 0 <= i < |pos| ==> pos[i] < |s| && s[pos[i]] == r[i]) &&
    (forall i, j :: 0 <= i < j < |pos| ==> pos[i] < pos[j])
  }

  /** The positions in `s` of the elements that `Filter` keeps. */
  function KeptPositions<T>(s: seq<T>, p: T -> bool): (pos: seq<nat>)
    ensures Embeds(Filter(s, p), s, pos)
  {
    if s == [] then []
    else
      var rest := KeptPositions(s[..|s| - 1], p);
      if p(s[|s| - 1]) then rest + [|s| - 1] else rest
  }

  /** Every position whose element the filter keeps is among the kept
    * positions. */
  lemma {:induction false} KeptPositionsComplete<T>(s: seq<T>, p: T -> bool, i: nat)
    requires i < |s| && p(s[i])
    ensures exists m :: 0 <= m < |KeptPositions(s, p)| && KeptPositions(s, p)[m] == i
  {
    var init := s[..|s| - 1];
    var rest := KeptPositions(init, p);
    if i < |s| - 1 {
      assert init[i] == s[i];
      KeptPositionsComplete(init, p, i);
      var m :| 0 <= m < |rest| && rest[m] == i;
      var all := KeptPositions(s, p);
      assert all == if p(s[|s| - 1]) then rest + [|s| - 1] else rest;
      assert all[m] == i;
    } else {
      assert KeptPositions(s, p)[|rest|] == i;
    }
  }

  /** So a filter of an ordered sequence is ordered the same way. */
  lemma FilterOrdered<T>(s: seq<T>, p: T -> bool, before: (T, T) -> bool)
    requires Ordered(s, before)
    ensures Ordered(Filter(s, p), before)
  {
    var pos := KeptPositions(s, p);
    var r := Filter(s, p);
    forall i, j | 0 <= i < j < |r| ensures before(r[i], r[j]) {
      assert s[pos[i]] == r[i] && s[pos[j]] == r[j];
    }
  }

  /** A filter with a predicate that holds everywhere returns `s` itself. */
  lemma {:induction false} FilterAll<T>(s: seq<T>, p: T -> bool)
    requires forall i :: 0 <= i < |s| ==> p(s[i])
    ensures Filter(s, p) == s
  {
    if s != [] {
      FilterAll(s[..|s| - 1], p);
    }
  }

  /** A filter with a predicate that holds nowhere returns nothing. */
  lemma {:induction false} FilterNone<T>(s: seq<T>, p: T -> bool)
    requires forall i :: 0 <= i < |s| ==> !p(s[i])
    ensures Filter(s, p) == []
  {
    if s != [] {
      FilterNone(s[..|s| - 1], p);
    }
  }

  lemma FilterAppend<T>(s: seq<T>, x: T, p: T -> bool)
    ensures Filter(s + [x], p) == if p(x) then Filter(s, p) + [x] else Filter(s, p)
  {
    assert (s + [x])[..|s + [x]| - 1] == s;
  }

  /** The last element kept is the last one of `s` that satisfies `p`. */
  lemma {:induction false} FilterLast<T>(s: seq<T>, p: T -> bool, m: nat)
    requires m < |s| && p(s[m])
    requires forall n :: m < n < |s| ==> !p(s[n])
    ensures Filter(s, p) != [] && Filter(s, p)[|Filter(s, p)| - 1] == s[m]
  {
    var init := s[..|s| - 1];
    assert s == init + [s[|s| - 1]];
    FilterAppend(init, s[|s| - 1], p);
    if m < |s| - 1 {
      assert init[m] == s[m];
      forall n | m < n < |init| ensures !p(init[n]) {
        assert init[n] == s[n];
      }
      FilterLast(init, p, m);
    }
  }
}
