/**
 * The string operations the views and the importer rely on, over `seq<char>`
 * (one `char` per Unicode scalar):
 *  - `Trim` is `trimmingCharacters(in: .whitespacesAndNewlines)` (the
 *    `String.trimmed` extension of the add-paint form is the same call);
 *  - `Lower` / `Upper` are `lowercased()` / `uppercased()` restricted to ASCII;
 *  - `Contains` is `String.contains` with a string argument;
 *  - `ParseInt` is `Int(String)` for a 64-bit `Int`.
 */
module Text {
  import opened Wrappers

  /** Membership in `CharacterSet.whitespacesAndNewlines`: the space separators
    * (general category Zs), U+2028, U+2029, tab, and the newlines
    * U+000A-U+000D and U+0085. */
  predicate IsWhitespace(c: char) {
    c == '\t' || c == '\n' || c == '\U{B}' || c == '\U{C}' || c == '\r' ||
    c == ' ' || c == '\U{85}' || c == '\U{A0}' || c == '\U{1680}' ||
    ('\U{2000}' <= c <= '\U{200A}') || c == '\U{2028}' || c == '\U{2029}' ||
    c == '\U{202F}' || c == '\U{205F}' || c == '\U{3000}'
  }

  /** No whitespace at either end. */
  predicate IsTrimmed(s: string) {
    s == [] || (!IsWhitespace(s[0]) && !IsWhitespace(s[|s| - 1]))
  }

  /** The number of leading whitespace scalars of `s`. */
  function TrimLo(s: string): (lo: nat)
    ensures lo <= |s|
    ensures forall i :: 0 <= i < lo ==> IsWhitespace(s[i])
    ensures lo < |s| ==> !IsWhitespace(s[lo])
  {
    if |s| > 0 && IsWhitespace(s[0]) then 1 + TrimLo(s[1..]) else 0
  }

  /** The end of `s` once its trailing whitespace, down to `lo`, is cut off. */
  function TrimHi(s: string, lo: nat): (hi: nat)
    requires lo <= |s|
    ensures lo <= hi <= |s|
    ensures forall i :: hi <= i < |s| ==> IsWhitespace(s[i])
    ensures hi > lo ==> !IsWhitespace(s[hi - 1])
  {
    if |s| > lo && IsWhitespace(s[|s| - 1]) then TrimHi(s[..|s| - 1], lo) else |s|
  }

  /** `trimmingCharacters(in: .whitespacesAndNewlines)`. */
  function Trim(s: string): (r: string)
    ensures IsTrimmed(r)
    ensures |r| <= |s|
  {
    var lo := TrimLo(s);
    s[lo..TrimHi(s, lo)]
  }

  /** `TrimLo` is the position of the first non-whitespace scalar. */
  lemma {:induction false} TrimLoAt(s: string, lo: nat)
    requires lo <= |s|
    requires forall i :: 0 <= i < lo ==> IsWhitespace(s[i])
    requires lo < |s| ==> !IsWhitespace(s[lo])
    ensures TrimLo(s) == lo
  {
    if lo > 0 {
      TrimLoAt(s[1..], lo - 1);
    }
  }

  /** `TrimHi` is just past the last non-whitespace scalar at or after `lo`. */
  lemma {:induction false} TrimHiAt(s: string, lo: nat, hi: nat)
    requires lo <= hi <= |s|
    requires forall i :: hi <= i < |s| ==> IsWhitespace(s[i])
    requires hi > lo ==> !IsWhitespace(s[hi - 1])
    ensures TrimHi(s, lo) == hi
  {
    if hi < |s| {
      TrimHiAt(s[..|s| - 1], lo, hi);
    }
  }

  /** Trimming characterised: if `s` is whitespace, then a part that neither
    * starts nor ends with whitespace, then whitespace, `Trim` gives that part. */
  lemma TrimSlice(s: string, lo: nat, hi: nat)
    requires lo <= hi <= |s|
    requires forall i :: 0 <= i < lo ==> IsWhitespace(s[i])
    requires forall i :: hi <= i < |s| ==> IsWhitespace(s[i])
    requires IsTrimmed(s[lo..hi])
    ensures Trim(s) == s[lo..hi]
  {
    if lo == hi {
      TrimLoAt(s, |s|);
      TrimHiAt(s, |s|, |s|);
    } else {
      assert s[lo..hi][0] == s[lo];
      assert s[lo..hi][hi - lo - 1] == s[hi - 1];
      TrimLoAt(s, lo);
      TrimHiAt(s, lo, hi);
    }
  }

  /** A string without surrounding whitespace trims to itself, so `Trim` is
    * idempotent. */
  lemma TrimOfTrimmed(s: string)
    requires IsTrimmed(s)
    ensures Trim(s) == s
  {
    TrimSlice(s, 0, |s|);
  }

  lemma TrimIdempotent(s: string)
    ensures Trim(Trim(s)) == Trim(s)
  {
    TrimOfTrimmed(Trim(s));
  }

  predicate AllWhitespace(w: string) {
    forall i :: 0 <= i < |w| ==> IsWhitespace(w[i])
  }

  /** Whitespace added at either end is trimmed away again. */
  lemma TrimPadded(w1: string, s: string, w2: string)
    requires AllWhitespace(w1) && AllWhitespace(w2)
    ensures Trim(w1 + s + w2) == Trim(s)
  {
    var t := w1 + s + w2;
    var slo := TrimLo(s);
    var shi := TrimHi(s, slo);
    var lo, hi := |w1| + slo, |w1| + shi;
    assert t[lo..hi] == s[slo..shi];
    forall i | 0 <= i < lo ensures IsWhitespace(t[i]) {
      if i >= |w1| {
        assert t[i] == s[i - |w1|];
      }
    }
    forall i | hi <= i < |t| ensures IsWhitespace(t[i]) {
      if i < |w1| + |s| {
        assert t[i] == s[i - |w1|];
      } else {
        assert t[i] == w2[i - |w1| - |s|];
      }
    }
    TrimSlice(t, lo, hi);
  }

  /** Exactly the strings made only of whitespace trim to the empty string. */
  lemma TrimEmptyIff(s: string)
    ensures Trim(s) == [] <==> forall i :: 0 <= i < |s| ==> IsWhitespace(s[i])
  {
    if forall i :: 0 <= i < |s| ==> IsWhitespace(s[i]) {
      TrimSlice(s, |s|, |s|);
    }
  }

  // ---------------------------------------------------------------------
  // ASCII case mapping

  function LowerChar(c: char): char {
    if 'A' <= c <= 'Z' then (c as int + 32) as char else c
  }

  function UpperChar(c: char): char {
    if 'a' <= c <= 'z' then (c as int - 32) as char else c
  }

  /** `lowercased()` on ASCII letters; every other scalar is kept. */
  function Lower(s: string): (r: string)
    ensures |r| == |s|
    ensures forall i :: 0 <= i < |s| ==> !('A' <= r[i] <= 'Z')
  {
    seq(|s|, i requires 0 <= i < |s| => LowerChar(s[i]))
  }

  /** `uppercased()` on ASCII letters; every other scalar is kept. */
  function Upper(s: string): (r: string)
    ensures |r| == |s|
    ensures forall i :: 0 <= i < |s| ==> !('a' <= r[i] <= 'z')
  {
    seq(|s|, i requires 0 <= i < |s| => UpperChar(s[i]))
  }

  lemma LowerIdempotent(s: string)
    ensures Lower(Lower(s)) == Lower(s)
  {
  }

  lemma UpperIdempotent(s: string)
    ensures Upper(Upper(s)) == Upper(s)
  {
  }

  /** Two strings that agree up to ASCII case have the same lower-case form. */
  lemma LowerOfUpper(s: string)
    ensures Lower(Upper(s)) == Lower(s)
  {
  }

  /** A string without upper-case ASCII letters is its own lower-case form. */
  lemma LowerOfLowercase(s: string)
    requires forall i :: 0 <= i < |s| ==> !('A' <= s[i] <= 'Z')
    ensures Lower(s) == s
  {
  }

  lemma UpperOfLower(s: string)
    ensures Upper(Lower(s)) == Upper(s)
  {
  }

  lemma LowerAppend(a: string, b: string)
    ensures Lower(a + b) == Lower(a) + Lower(b)
  {
  }

  /** Case mapping never turns whitespace into non-whitespace or back, so it
    * commutes with trimming. */
  lemma LowerTrimCommute(s: string)
    ensures Lower(Trim(s)) == Trim(Lower(s))
  {
    var lo := TrimLo(s);
    var hi := TrimHi(s, lo);
    assert Trim(s) == s[lo..hi];
    LowerSlice(s, lo, hi);
    LowerKeepsTrimBounds(s, lo, hi);
    TrimSlice(Lower(s), lo, hi);
  }

  /** The whitespace margins of `s` are margins of `Lower(s)` too. */
  lemma LowerKeepsTrimBounds(s: string, lo: nat, hi: nat)
    requires lo <= hi <= |s|
    requires forall i :: 0 <= i < lo ==> IsWhitespace(s[i])
    requires forall i :: hi <= i < |s| ==> IsWhitespace(s[i])
    requires IsTrimmed(s[lo..hi])
    ensures forall i :: 0 <= i < lo ==> IsWhitespace(Lower(s)[i])
    ensures forall i :: hi <= i < |s| ==> IsWhitespace(Lower(s)[i])
    ensures IsTrimmed(Lower(s)[lo..hi])
  {
    var ls := Lower(s);
    forall i | 0 <= i < |s| ensures IsWhitespace(ls[i]) == IsWhitespace(s[i]) {
      LowerCharWhitespace(s[i]);
    }
    if lo < hi {
      assert s[lo..hi][0] == s[lo] && s[lo..hi][hi - lo - 1] == s[hi - 1];
      assert ls[lo..hi][0] == ls[lo] && ls[lo..hi][hi - lo - 1] == ls[hi - 1];
    }
  }

  /** Lowercasing keeps a string trimmed. */
  lemma LowerKeepsTrimmed(t: string)
    requires IsTrimmed(t)
    ensures IsTrimmed(Lower(t))
  {
    if t != [] {
      LowerCharWhitespace(t[0]);
      LowerCharWhitespace(t[|t| - 1]);
    }
  }

  lemma LowerSlice(s: string, lo: nat, hi: nat)
    requires lo <= hi <= |s|
    ensures Lower(s[lo..hi]) == Lower(s)[lo..hi]
  {
  }

  lemma LowerCharWhitespace(c: char)
    ensures IsWhitespace(LowerChar(c)) == IsWhitespace(c)
  {
  }

  // ---------------------------------------------------------------------
  // Substrings

  /** `s.contains(q)` for a string `q`: `q` occurs somewhere in `s`. */
  predicate Contains(s: string, q: string) {
    exists i | 0 <= i <= |s| - |q| :: OccursAt(s, q, i)
  }

  predicate OccursAt(s: string, q: string, i: nat)
    requires i + |q| <= |s|
  {
    s[i..i + |q|] == q
  }

  lemma ContainsItself(s: string)
    ensures Contains(s, s)
  {
    assert OccursAt(s, s, 0);
  }

  lemma ContainsInEmpty(q: string)
    requires q != []
    ensures !Contains([], q)
  {
  }

  /** A search field's query: trimmed, then lowercased. */
  function SearchQuery(searchText: string): (q: string)
    ensures q == "" <==> forall i :: 0 <= i < |searchText| ==> IsWhitespace(searchText[i])
    ensures IsTrimmed(q)
    ensures forall i :: 0 <= i < |q| ==> !('A' <= q[i] <= 'Z')
  {
    TrimEmptyIff(searchText);
    LowerKeepsTrimmed(Trim(searchText));
    Lower(Trim(searchText))
  }

  /** The query does not depend on the case of what was typed. */
  lemma SearchQueryIgnoresCase(s: string)
    ensures SearchQuery(Lower(s)) == SearchQuery(s)
    ensures SearchQuery(Upper(s)) == SearchQuery(s)
  {
    LowerTrimCommute(s);
    LowerTrimCommute(Lower(s));
    LowerTrimCommute(Upper(s));
    LowerIdempotent(s);
    LowerOfUpper(s);
  }

  /** Nor on whitespace typed before or after it. */
  lemma SearchQueryIgnoresPadding(w1: string, s: string, w2: string)
    requires AllWhitespace(w1) && AllWhitespace(w2)
    ensures SearchQuery(w1 + s + w2) == SearchQuery(s)
  {
    TrimPadded(w1, s, w2);
  }

  /** A query is its own query. */
  lemma SearchQueryIdempotent(s: string)
    ensures SearchQuery(SearchQuery(s)) == SearchQuery(s)
  {
    var q := SearchQuery(s);
    TrimOfTrimmed(q);
    LowerIdempotent(Trim(s));
  }

  // ---------------------------------------------------------------------
  // Int(String)

  const IntMin: int := -0x8000_0000_0000_0000
  const IntMax: int := 0x7FFF_FFFF_FFFF_FFFF

  predicate IsDigit(c: char) { '0' <= c <= '9' }

  predicate AllDigits(s: string) {
    forall i :: 0 <= i < |s| ==> IsDigit(s[i])
  }

  /** The value of a string of ASCII digits, most significant first. */
  function DigitsValue(s: string): (v: nat)
    requires AllDigits(s)
  {
    if s == [] then 0
    else DigitsValue(s[..|s| - 1]) * 10 + (s[|s| - 1] as int - '0' as int)
  }

  /** The text after an optional leading `+` or `-`. */
  function Unsigned(s: string): (ds: string)
    ensures |ds| <= |s|
  {
    if |s| > 0 && (s[0] == '+' || s[0] == '-') then s[1..] else s
  }

  /** The syntax `Int(String)` accepts: an optional sign, then one or more
    * ASCII digits. */
  predicate IsIntText(s: string) {
    Unsigned(s) != [] && AllDigits(Unsigned(s))
  }

  /** The value such a text denotes, before the range check. */
  function SignedValue(s: string): int
    requires IsIntText(s)
  {
    var m: int := DigitsValue(Unsigned(s));
    if s[0] == '-' then -m else m
  }

  /** `Int(s)`: an optional `+` or `-`, then one or more ASCII digits, and a
    * value that fits a 64-bit `Int`; anything else (blanks included) is nil. */
  function ParseInt(s: string): (r: Option<int>)
    ensures r.Some? ==> IntMin <= r.value <= IntMax
    ensures r.Some? ==> s != [] && (IsDigit(s[0]) || s[0] == '+' || s[0] == '-')
  {
    var neg := |s| > 0 && s[0] == '-';
    var ds := Unsigned(s);
    if ds == [] || !AllDigits(ds) then None
    else
      var m: int := DigitsValue(ds);
      var v := if neg then -m else m;
      if IntMin <= v <= IntMax then Some(v) else None
  }

  /** The decimal digits of `n`, without sign or leading zeros. */
  function DecimalString(n: nat): (s: string)
    ensures s != [] && AllDigits(s)
  {
    var d := ['0' + (n % 10) as char];
    if n < 10 then d else DecimalString(n / 10) + d
  }

  lemma {:induction false} DecimalValue(n: nat)
    ensures DigitsValue(DecimalString(n)) == n
  {
    var s := DecimalString(n);
    if n >= 10 {
      DecimalValue(n / 10);
      assert s[..|s| - 1] == DecimalString(n / 10);
    }
  }

  /** `Int` reads back every decimal rendering within range, with an optional
    * sign in front. */
  lemma ParseDecimal(n: nat)
    requires n <= IntMax
    ensures ParseInt(DecimalString(n)) == Some(n)
    ensures ParseInt("+" + DecimalString(n)) == Some(n)
    ensures n <= -IntMin ==> ParseInt("-" + DecimalString(n)) == Some(-(n as int))
  {
    DecimalValue(n);
    assert Unsigned("+" + DecimalString(n)) == DecimalString(n);
    assert Unsigned("-" + DecimalString(n)) == DecimalString(n);
  }

  lemma ParseRejectsBlank(s: string)
    requires s != [] && (IsWhitespace(s[0]) || IsWhitespace(s[|s| - 1]))
    ensures ParseInt(s) == None
  {
    var ds := if s[0] == '+' || s[0] == '-' then s[1..] else s;
    if ds != [] {
      if IsWhitespace(s[0]) {
        assert ds[0] == s[0];
      } else {
        assert ds[|ds| - 1] == s[|s| - 1];
      }
    }
  }

  /** What `Int(s)` reads, in both directions: a value exactly for a signed
    * digit string whose value fits 64 bits, and then that value. So leading
    * zeros are read ("007" is 7) and any other character is refused. */
  lemma ParseIntMeaning(s: string)
    ensures ParseInt(s).Some? <==> IsIntText(s) && IntMin <= SignedValue(s) <= IntMax
    ensures ParseInt(s).Some? ==> ParseInt(s).value == SignedValue(s)
  {
  }

  /** A character that is neither a digit nor a leading sign makes the whole
    * text unreadable: "1x", "3 pcs" and "1.5" give nil. */
  lemma ParseRejectsNonDigit(s: string, i: nat)
    requires i < |s| && !IsDigit(s[i])
    requires i > 0 || (s[0] != '+' && s[0] != '-')
    ensures ParseInt(s) == None
  {
    if s[0] == '+' || s[0] == '-' {
      assert Unsigned(s)[i - 1] == s[i];
    } else {
      assert Unsigned(s)[i] == s[i];
    }
  }

  /** Some concrete readings. */
  lemma ParseIntExamples()
    ensures ParseInt("007") == Some(7)
    ensures ParseInt("-12") == Some(-12)
    ensures ParseInt("") == None && ParseInt("+") == None && ParseInt("1x") == None
  {
    assert Unsigned("007") == "007" && Unsigned("-12") == "12";
    assert DigitsValue("0") == 0 && DigitsValue("00") == 0 && DigitsValue("007") == 7;
    assert DigitsValue("1") == 1 && DigitsValue("12") == 12;
    ParseRejectsNonDigit("1x", 1);
  }
}
