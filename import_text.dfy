/**
 * The text side of `importCatalogCSV`: cutting the file into lines, reading
 * the header (byte-order mark, delimiter, column index, required columns)
 * and decoding one data line into the values the store update uses.
 */
module ImportText {
  import opened Wrappers
  import opened Text
  import opened CsvLine
  import opened PaintModel

  // ---------------------------------------------------------------------
  // Lines

  predicate IsBreak(c: char) { c == '\r' || c == '\n' }

  /** `replacingOccurrences(of: "\r\n", with: "\n")`, left to right. */
  function ReplaceCRLF(s: string): (r: string)
    ensures |r| <= |s|
  {
    if s == [] then []
    else if |s| >= 2 && s[0] == '\r' && s[1] == '\n' then "\n" + ReplaceCRLF(s[2..])
    else [s[0]] + ReplaceCRLF(s[1..])
  }

  /** `replacingOccurrences(of: "\r", with: "\n")`. */
  function ReplaceCR(s: string): (r: string)
    ensures |r| == |s|
    ensures forall i :: 0 <= i < |r| ==> r[i] == (if s[i] == '\r' then '\n' else s[i])
  {
    if s == [] then [] else [if s[0] == '\r' then '\n' else s[0]] + ReplaceCR(s[1..])
  }

  /** `split(separator: "\n", omittingEmptySubsequences: true)`, with `cur`
    * the piece read so far. */
  function SplitFrom(t: string, cur: string): seq<string>
    decreases |t|
  {
    if t == [] then (if cur == [] then [] else [cur])
    else if t[0] == '\n' then (if cur == [] then [] else [cur]) + SplitFrom(t[1..], [])
    else SplitFrom(t[1..], cur + [t[0]])
  }

  /** The lines `importCatalogCSV` works on (ImportCSVView.swift:120-124). */
  function Lines(csv: string): (ls: seq<string>)
    ensures forall k :: 0 <= k < |ls| ==> IsLine(ls[k])
  {
    SplitFromLines(ReplaceCR(ReplaceCRLF(csv)), []);
    SplitFrom(ReplaceCR(ReplaceCRLF(csv)), [])
  }

  /** The text without its line breaks. */
  function Visible(s: string): string {
    if s == [] then [] else (if IsBreak(s[0]) then [] else [s[0]]) + Visible(s[1..])
  }

  function Concat(ls: seq<string>): string {
    if ls == [] then [] else ls[0] + Concat(ls[1..])
  }

  /** A proper line: not empty, and without CR or LF. */
  predicate IsLine(l: string) {
    l != [] && forall i :: 0 <= i < |l| ==> !IsBreak(l[i])
  }

  lemma VisibleAppend(a: string, b: string)
    ensures Visible(a + b) == Visible(a) + Visible(b)
  {
    if a != [] {
      assert (a + b)[0] == a[0];
      assert (a + b)[1..] == a[1..] + b;
      VisibleAppend(a[1..], b);
      var h := if IsBreak(a[0]) then [] else [a[0]];
      assert Visible(a + b) == h + (Visible(a[1..]) + Visible(b));
    } else {
      assert a + b == b;
    }
  }

  lemma ConcatAppend(a: seq<string>, b: seq<string>)
    ensures Concat(a + b) == Concat(a) + Concat(b)
  {
    if a != [] {
      assert (a + b)[0] == a[0];
      assert (a + b)[1..] == a[1..] + b;
      ConcatAppend(a[1..], b);
      assert Concat(a + b) == a[0] + (Concat(a[1..]) + Concat(b));
    } else {
      assert a + b == b;
    }
  }

  lemma {:induction false} ReplaceCRLFVisible(s: string)
    ensures Visible(ReplaceCRLF(s)) == Visible(s)
    decreases |s|
  {
    if s == [] {
    } else if |s| >= 2 && s[0] == '\r' && s[1] == '\n' {
      ReplaceCRLFVisible(s[2..]);
      VisibleAppend("\n", ReplaceCRLF(s[2..]));
      assert Visible(s) == Visible(s[1..]);
      assert s[1..][1..] == s[2..];
    } else {
      ReplaceCRLFVisible(s[1..]);
      VisibleAppend([s[0]], ReplaceCRLF(s[1..]));
    }
  }

  lemma {:induction false} ReplaceCRVisible(s: string)
    ensures Visible(ReplaceCR(s)) == Visible(s)
  {
    if s != [] {
      ReplaceCRVisible(s[1..]);
      VisibleAppend([ReplaceCR(s)[0]], ReplaceCR(s[1..]));
    }
  }

  /** The pieces are proper lines. */
  lemma {:induction false} SplitFromLines(t: string, cur: string)
    requires forall i :: 0 <= i < |t| ==> t[i] != '\r'
    requires forall i :: 0 <= i < |cur| ==> !IsBreak(cur[i])
    ensures forall k :: 0 <= k < |SplitFrom(t, cur)| ==> IsLine(SplitFrom(t, cur)[k])
    decreases |t|
  {
    if t != [] {
      assert forall i :: 0 <= i < |t[1..]| ==> t[1..][i] == t[i + 1];
      if t[0] == '\n' {
        SplitFromLines(t[1..], []);
      } else {
        var next := cur + [t[0]];
        assert forall i :: 0 <= i < |next| ==> next[i] == (if i < |cur| then cur[i] else t[0]);
        SplitFromLines(t[1..], next);
      }
    }
  }

  /** The pieces hold every visible character in order. */
  lemma {:induction false} SplitFromConcat(t: string, cur: string)
    requires forall i :: 0 <= i < |t| ==> t[i] != '\r'
    ensures Concat(SplitFrom(t, cur)) == cur + Visible(t)
    decreases |t|
  {
    if t == [] {
      assert cur + [] == cur;
    } else {
      var rest := t[1..];
      assert forall i :: 0 <= i < |rest| ==> rest[i] == t[i + 1];
      if t[0] == '\n' {
        SplitFromConcat(rest, []);
        ConcatBreakStep(t, cur);
      } else {
        SplitFromConcat(rest, cur + [t[0]]);
        ConcatCharStep(t, cur);
      }
    }
  }

  lemma ConcatBreakStep(t: string, cur: string)
    requires t != [] && t[0] == '\n'
    requires Concat(SplitFrom(t[1..], [])) == Visible(t[1..])
    ensures Concat(SplitFrom(t, cur)) == cur + Visible(t)
  {
    var tail := SplitFrom(t[1..], []);
    assert Visible(t) == Visible(t[1..]);
    if cur == [] {
      assert SplitFrom(t, cur) == [] + tail;
      assert [] + tail == tail;
    } else {
      assert SplitFrom(t, cur) == [cur] + tail;
      ConcatAppend([cur], tail);
      assert Concat([cur]) == cur;
    }
  }

  lemma ConcatCharStep(t: string, cur: string)
    requires t != [] && !IsBreak(t[0])
    requires Concat(SplitFrom(t[1..], cur + [t[0]])) == cur + [t[0]] + Visible(t[1..])
    ensures Concat(SplitFrom(t, cur)) == cur + Visible(t)
  {
    assert Visible(t) == [t[0]] + Visible(t[1..]);
    assert (cur + [t[0]]) + Visible(t[1..]) == cur + ([t[0]] + Visible(t[1..]));
  }

  /** Every line is proper, and together the lines are the file's text
    * without its line breaks: CRLF and CR read as LF, and empty lines are
    * dropped. */
  lemma LinesShape(csv: string)
    ensures forall k :: 0 <= k < |Lines(csv)| ==> IsLine(Lines(csv)[k])
    ensures Concat(Lines(csv)) == Visible(csv)
  {
    var t := ReplaceCR(ReplaceCRLF(csv));
    SplitFromLines(t, []);
    SplitFromConcat(t, []);
    ReplaceCRVisible(ReplaceCRLF(csv));
    ReplaceCRLFVisible(csv);
  }

  /** A file that is nothing but line breaks has no lines, and only such a
    * file. */
  lemma NoLinesIff(csv: string)
    ensures Lines(csv) == [] <==> forall i :: 0 <= i < |csv| ==> IsBreak(csv[i])
  {
    LinesShape(csv);
    VisibleEmptyIff(csv);
    if Lines(csv) != [] {
      ConcatAppend([Lines(csv)[0]], Lines(csv)[1..]);
      assert Lines(csv) == [Lines(csv)[0]] + Lines(csv)[1..];
    }
  }

  lemma {:induction false} VisibleEmptyIff(s: string)
    ensures Visible(s) == [] <==> forall i :: 0 <= i < |s| ==> IsBreak(s[i])
  {
    if s != [] {
      VisibleEmptyIff(s[1..]);
      assert forall i :: 1 <= i < |s| ==> s[i] == s[1..][i - 1];
    }
  }

  lemma {:induction false} SplitFromLine(l: string, rest: string, cur: string)
    requires forall i :: 0 <= i < |l| ==> l[i] != '\n'
    ensures SplitFrom(l + rest, cur) == SplitFrom(rest, cur + l)
    decreases |l|
  {
    if l == [] {
      assert l + rest == rest && cur + l == cur;
    } else {
      assert (l + rest)[1..] == l[1..] + rest;
      SplitFromLine(l[1..], rest, cur + [l[0]]);
      assert cur + [l[0]] + l[1..] == cur + l;
    }
  }

  lemma {:induction false} NoCRUnchanged(s: string)
    requires forall i :: 0 <= i < |s| ==> s[i] != '\r'
    ensures ReplaceCRLF(s) == s && ReplaceCR(s) == s
  {
    if s != [] {
      NoCRUnchanged(s[1..]);
    }
  }

  lemma {:induction false} SplitJoined(ls: seq<string>)
    requires |ls| >= 1
    requires forall k :: 0 <= k < |ls| ==> IsLine(ls[k])
    ensures SplitFrom(Join(ls, '\n'), []) == ls
    ensures forall i :: 0 <= i < |Join(ls, '\n')| ==> Join(ls, '\n')[i] != '\r'
    decreases |ls|
  {
    var l := ls[0];
    if |ls| == 1 {
      SplitFromLine(l, [], []);
      assert l + [] == l && [] + l == l;
    } else {
      var rest := "\n" + Join(ls[1..], '\n');
      SplitJoined(ls[1..]);
      assert Join(ls, '\n') == l + rest;
      SplitFromLine(l, rest, []);
      assert [] + l == l;
      assert rest[1..] == Join(ls[1..], '\n');
      assert ls == [l] + ls[1..];
    }
  }

  /** Proper lines joined with LF split back into the same lines. */
  lemma LinesOfJoined(ls: seq<string>)
    requires |ls| >= 1
    requires forall k :: 0 <= k < |ls| ==> IsLine(ls[k])
    ensures Lines(Join(ls, '\n')) == ls
  {
    SplitJoined(ls);
    NoCRUnchanged(Join(ls, '\n'));
  }

  // ---------------------------------------------------------------------
  // Header

  const ByteOrderMark: char := '\U{FEFF}'

  /** `replacingOccurrences(of: "\u{FEFF}", with: "")`. */
  function StripBOM(s: string): (r: string)
    ensures |r| <= |s|
    ensures forall i :: 0 <= i < |r| ==> r[i] != ByteOrderMark
    ensures forall c :: c in r <==> c in s && c != ByteOrderMark
  {
    if s == [] then []
    else (if s[0] == ByteOrderMark then [] else [s[0]]) + StripBOM(s[1..])
  }

  /** Removing marks from two pieces is removing them from the whole, so the
    * other scalars keep their order and number. */
  lemma {:induction false} StripBOMAppend(a: string, b: string)
    ensures StripBOM(a + b) == StripBOM(a) + StripBOM(b)
  {
    if a == [] {
      assert a + b == b;
    } else {
      assert (a + b)[1..] == a[1..] + b;
      StripBOMAppend(a[1..], b);
    }
  }

  /** One scalar: a mark goes, anything else stays. */
  lemma StripBOMChar(c: char)
    ensures StripBOM([c]) == if c == ByteOrderMark then [] else [c]
  {
  }

  /** A header line without a byte-order mark is left as it is. */
  lemma {:induction false} StripBOMUnchanged(s: string)
    requires forall i :: 0 <= i < |s| ==> s[i] != ByteOrderMark
    ensures StripBOM(s) == s
  {
    if s != [] {
      StripBOMUnchanged(s[1..]);
    }
  }

  /** ImportCSVView.swift:133-136: `;` exactly when the header has a
    * semicolon and no comma, otherwise `,`. */
  function Delimiter(header: string): (d: char)
    ensures d == ';' || d == ','
    ensures d == ';' <==> ';' in header && ',' !in header
  {
    if ';' in header && ',' !in header then ';' else ','
  }

  /** The header's column names: the fields of the header line, trimmed. */
  function HeaderNames(headerLine: string, d: char): (names: seq<string>)
    ensures |names| == |ParseLine(headerLine, d)|
    ensures forall i :: 0 <= i < |names| ==> names[i] == Trim(ParseLine(headerLine, d)[i]) && IsTrimmed(names[i])
  {
    var fields := ParseLine(headerLine, d);
    seq(|fields|, i requires 0 <= i < |fields| => Trim(fields[i]))
  }

  /** The dictionary `indexMap` builds: each lower-cased name mapped to its
    * column, a later column replacing an earlier one with the same name.
    * Every name is a key, lower-cased, and each key names a column with
    * that name. */
  function IndexOf(header: seq<string>): (m: map<string, nat>)
    ensures forall i :: 0 <= i < |header| ==> Lower(header[i]) in m
    ensures forall k :: k in m ==> m[k] < |header| && Lower(header[m[k]]) == k
  {
    if header == [] then map[]
    else
      var n := |header| - 1;
      IndexOf(header[..n])[Lower(header[n]) := n]
  }

  /** No column after the one an entry names has its name: the last one
    * wins. */
  lemma {:induction false} IndexOfLastWins(header: seq<string>)
    ensures forall k, j :: k in IndexOf(header) && IndexOf(header)[k] < j < |header| ==> Lower(header[j]) != k
  {
    if header != [] {
      var n := |header| - 1;
      var prev := header[..n];
      var pm := IndexOf(prev);
      var m := IndexOf(header);
      IndexOfLastWins(prev);
      assert m == pm[Lower(header[n]) := n];
      forall k, j | k in m && m[k] < j < |header| ensures Lower(header[j]) != k {
        if k != Lower(header[n]) && j < n {
          assert header[j] == prev[j];
        }
      }
    }
  }

  /** `indexMap(_:)`, ImportCSVView.swift:241-247. */
  method IndexMap(header: seq<string>) returns (m: map<string, nat>)
    ensures m == IndexOf(header)
  {
    m := map[];
    for i := 0 to |header|
      invariant m == IndexOf(header[..i])
    {
      assert header[..i + 1][..i] == header[..i];
      m := m[Lower(header[i]) := i];
    }
    assert header[..|header|] == header;
  }

  /** A name no other column shares, up to ASCII case, maps to its column. */
  lemma IndexOfUniqueName(header: seq<string>, i: nat)
    requires 0 <= i < |header|
    requires forall j :: 0 <= j < |header| && j != i ==> Lower(header[j]) != Lower(header[i])
    ensures Lower(header[i]) in IndexOf(header) && IndexOf(header)[Lower(header[i])] == i
  {
    IndexOfLastWins(header);
  }

  const RequiredColumns: seq<string> := ["brand", "range", "type", "manufacturercode", "name"]

  /** The position in `cols` of the first name the index lacks. */
  function FirstMissing(cols: seq<string>, index: map<string, nat>): (r: Option<nat>)
    ensures r.Some? ==> r.value < |cols| && cols[r.value] !in index
    ensures r.Some? ==> forall j :: 0 <= j < r.value ==> cols[j] in index
    ensures r.None? ==> forall j :: 0 <= j < |cols| ==> cols[j] in index
  {
    if cols == [] then None
    else if cols[0] !in index then Some(0)
    else match FirstMissing(cols[1..], index)
      case None => None
      case Some(j) => Some(j + 1)
  }

  /** The loop at ImportCSVView.swift:143-147: the first required column,
    * in the order brand, range, type, manufacturercode, name, that the
    * header lacks. */
  function FirstMissingColumn(index: map<string, nat>): (r: Option<string>)
    ensures r.Some? ==> r.value in RequiredColumns && r.value !in index
    ensures r.None? <==> forall c :: c in RequiredColumns ==> c in index
  {
    match FirstMissing(RequiredColumns, index)
    case None => None
    case Some(j) => Some(RequiredColumns[j])
  }

  /** The column reported missing comes before every other missing one. */
  lemma MissingColumnIsFirst(index: map<string, nat>, j: nat)
    requires j < |RequiredColumns| && RequiredColumns[j] !in index
    ensures FirstMissingColumn(index).Some?
    ensures forall i :: 0 <= i < |RequiredColumns| && RequiredColumns[i] == FirstMissingColumn(index).value ==> i <= j
  {
  }

  // ---------------------------------------------------------------------
  // One data line

  /** `value(_:_:_:)`: the trimmed cell of the named column, or "" when the
    * header has no such column or the row is too short. */
  function Value(cols: seq<string>, index: map<string, nat>, key: string): (r: string)
    ensures IsTrimmed(r)
    ensures (Lower(key) !in index || index[Lower(key)] >= |cols|) ==> r == ""
    ensures Lower(key) in index && index[Lower(key)] < |cols| ==> r == Trim(cols[index[Lower(key)]])
  {
    var k := Lower(key);
    if k in index && index[k] < |cols| then Trim(cols[index[k]]) else ""
  }

  /** `optionalValue(_:_:_:)`: nil in place of "". */
  function OptionalValue(cols: seq<string>, index: map<string, nat>, key: string): (r: Option<string>)
    ensures r.None? <==> Value(cols, index, key) == ""
    ensures r.Some? ==> r.value == Value(cols, index, key)
  {
    var v := Value(cols, index, key);
    if v == [] then None else Some(v)
  }

  /** What the loop body reads from one data line. */
  datatype Row = Row(
    brand: PaintBrand,
    range: string,
    ptype: PaintType,
    code: string,
    name: string,
    barcode: Option<string>,
    quantityText: Option<string>)

  /** The identity key a row is filed under. */
  function RowKey(r: Row): Key {
    Key(BrandRaw(r.brand), r.range, r.code)
  }

  /** ImportCSVView.swift:153-165. The code is upper-cased, and brand or type
    * text that is no label becomes `other` rather than an error. */
  function DecodeRow(line: string, d: char, index: map<string, nat>): (r: Row)
    ensures forall i :: 0 <= i < |r.code| ==> !('a' <= r.code[i] <= 'z')
    ensures IsTrimmed(r.range) && IsTrimmed(r.name)
    ensures r.barcode.Some? ==> r.barcode.value != "" && IsTrimmed(r.barcode.value)
  {
    RowOf(ParseLine(line, d), index)
  }

  /** No two column names are equal up to ASCII case. */
  predicate DistinctNames(names: seq<string>) {
    forall i, j :: 0 <= i < j < |names| ==> Lower(names[i]) != Lower(names[j])
  }

  /** The lower-cased name of a column reads that column's trimmed cell. */
  lemma ColumnValueAt(cells: seq<string>, names: seq<string>, j: nat)
    requires |cells| == |names| && DistinctNames(names) && j < |names|
    ensures Value(cells, IndexOf(names), Lower(names[j])) == Trim(cells[j])
  {
    LowerIdempotent(names[j]);
    forall i | 0 <= i < |names| && i != j ensures Lower(names[i]) != Lower(names[j]) {
      if i < j {
      } else {
      }
    }
    IndexOfUniqueName(names, j);
  }

  /** A lower-case key no column has reads "". */
  lemma ColumnMissing(cells: seq<string>, names: seq<string>, key: string)
    requires Lower(key) == key
    ensures (forall j :: 0 <= j < |names| ==> Lower(names[j]) != key) ==>
      Value(cells, IndexOf(names), key) == ""
  {
  }

  /** The column keys the importer looks up are already lower case. */
  lemma ColumnKeysAreLower()
    ensures Lower("brand") == "brand" && Lower("range") == "range" && Lower("type") == "type"
    ensures Lower("manufacturercode") == "manufacturercode" && Lower("name") == "name"
    ensures Lower("barcode") == "barcode" && Lower("collectionquantity") == "collectionquantity"
  {
    LowerOfLowercase("brand");
    LowerOfLowercase("range");
    LowerOfLowercase("type");
    LowerOfLowercase("manufacturercode");
    LowerOfLowercase("name");
    LowerOfLowercase("barcode");
    LowerOfLowercase("collectionquantity");
  }

  /** A data line written with enclosed cells reads back column by column:
    * each field of the row is the trimmed cell of the column named after
    * it, whatever column order the header uses, with the code upper-cased,
    * brand and type read as labels, and an empty barcode or quantity read
    * as absent; a field whose column the header lacks reads as "" or
    * absent. */
  lemma DecodeRowReadsBack(cells: seq<string>, names: seq<string>, d: char)
    requires d != Quote && |cells| == |names| >= 1 && DistinctNames(names)
    ensures var r := DecodeRow(JoinQuoted(cells, d), d, IndexOf(names));
      forall j :: 0 <= j < |names| ==>
        && (Lower(names[j]) == "brand" ==> r.brand == BrandFromRaw(Trim(cells[j])))
        && (Lower(names[j]) == "range" ==> r.range == Trim(cells[j]))
        && (Lower(names[j]) == "type" ==> r.ptype == TypeFromRaw(Trim(cells[j])))
        && (Lower(names[j]) == "manufacturercode" ==> r.code == Upper(Trim(cells[j])))
        && (Lower(names[j]) == "name" ==> r.name == Trim(cells[j]))
        && (Lower(names[j]) == "barcode" ==>
              r.barcode == if Trim(cells[j]) == "" then None else Some(Trim(cells[j])))
        && (Lower(names[j]) == "collectionquantity" ==>
              r.quantityText == if Trim(cells[j]) == "" then None else Some(Trim(cells[j])))
    ensures var r := DecodeRow(JoinQuoted(cells, d), d, IndexOf(names));
      && ((forall j :: 0 <= j < |names| ==> Lower(names[j]) != "range") ==> r.range == "")
      && ((forall j :: 0 <= j < |names| ==> Lower(names[j]) != "name") ==> r.name == "")
      && ((forall j :: 0 <= j < |names| ==> Lower(names[j]) != "barcode") ==> r.barcode == None)
      && ((forall j :: 0 <= j < |names| ==> Lower(names[j]) != "collectionquantity") ==> r.quantityText == None)
  {
    QuotedRoundTrip(cells, d);
    var index := IndexOf(names);
    RowOfColumns(cells, names);
    RowOfMissing(cells, names);
  }

  /** The row `DecodeRow` builds from a line's cells. */
  function RowOf(cols: seq<string>, index: map<string, nat>): Row {
    Row(BrandFromRaw(Value(cols, index, "brand")),
        Value(cols, index, "range"),
        TypeFromRaw(Value(cols, index, "type")),
        Upper(Value(cols, index, "manufacturercode")),
        Value(cols, index, "name"),
        OptionalValue(cols, index, "barcode"),
        OptionalValue(cols, index, "collectionquantity"))
  }

  /** Each field is the trimmed cell of the column named after it. */
  lemma RowOfColumns(cells: seq<string>, names: seq<string>)
    requires |cells| == |names| && DistinctNames(names)
    ensures var r := RowOf(cells, IndexOf(names));
      forall j :: 0 <= j < |names| ==>
        && (Lower(names[j]) == "brand" ==> r.brand == BrandFromRaw(Trim(cells[j])))
        && (Lower(names[j]) == "range" ==> r.range == Trim(cells[j]))
        && (Lower(names[j]) == "type" ==> r.ptype == TypeFromRaw(Trim(cells[j])))
        && (Lower(names[j]) == "manufacturercode" ==> r.code == Upper(Trim(cells[j])))
        && (Lower(names[j]) == "name" ==> r.name == Trim(cells[j]))
        && (Lower(names[j]) == "barcode" ==>
              r.barcode == if Trim(cells[j]) == "" then None else Some(Trim(cells[j])))
        && (Lower(names[j]) == "collectionquantity" ==>
              r.quantityText == if Trim(cells[j]) == "" then None else Some(Trim(cells[j])))
  {
    var r := RowOf(cells, IndexOf(names));
    forall j | 0 <= j < |names|
      ensures Lower(names[j]) == "brand" ==> r.brand == BrandFromRaw(Trim(cells[j]))
      ensures Lower(names[j]) == "range" ==> r.range == Trim(cells[j])
      ensures Lower(names[j]) == "type" ==> r.ptype == TypeFromRaw(Trim(cells[j]))
      ensures Lower(names[j]) == "manufacturercode" ==> r.code == Upper(Trim(cells[j]))
      ensures Lower(names[j]) == "name" ==> r.name == Trim(cells[j])
      ensures Lower(names[j]) == "barcode" ==>
        r.barcode == if Trim(cells[j]) == "" then None else Some(Trim(cells[j]))
      ensures Lower(names[j]) == "collectionquantity" ==>
        r.quantityText == if Trim(cells[j]) == "" then None else Some(Trim(cells[j]))
    {
      ColumnValueAt(cells, names, j);
    }
  }

  /** A field whose column the header lacks reads as "" or absent. */
  lemma RowOfMissing(cells: seq<string>, names: seq<string>)
    ensures var r := RowOf(cells, IndexOf(names));
      && ((forall j :: 0 <= j < |names| ==> Lower(names[j]) != "range") ==> r.range == "")
      && ((forall j :: 0 <= j < |names| ==> Lower(names[j]) != "name") ==> r.name == "")
      && ((forall j :: 0 <= j < |names| ==> Lower(names[j]) != "barcode") ==> r.barcode == None)
      && ((forall j :: 0 <= j < |names| ==> Lower(names[j]) != "collectionquantity") ==> r.quantityText == None)
  {
    ColumnKeysAreLower();
    ColumnMissing(cells, names, "range");
    ColumnMissing(cells, names, "name");
    ColumnMissing(cells, names, "barcode");
    ColumnMissing(cells, names, "collectionquantity");
  }

  /** The quantity the owned-quantity step sets: `collectionQuantity` read as
    * an `Int` after trimming, when it is greater than 0 (ImportCSVView.swift:189-191). */
  function PositiveQuantity(r: Row): (q: Option<int>)
    ensures q.Some? ==> 0 < q.value <= IntMax
    ensures q.Some? <==> r.quantityText.Some? && ParseInt(Trim(r.quantityText.value)).Some? &&
                         ParseInt(Trim(r.quantityText.value)).value > 0
    ensures q.Some? ==> q.value == ParseInt(Trim(r.quantityText.value)).value
  {
    match r.quantityText
    case None => None
    case Some(t) =>
      match ParseInt(Trim(t))
      case Some(n) => if n > 0 then Some(n) else None
      case None => None
  }

  /** An unknown brand never fails a row: it is filed under `Other`. */
  lemma UnknownBrandIsOther(line: string, d: char, index: map<string, nat>)
    requires var v := Value(ParseLine(line, d), index, "brand"); forall b :: BrandRaw(b) != v
    ensures RowKey(DecodeRow(line, d, index)).brandRaw == "Other"
  {
  }

  /** The header as the import reads it from the first line. */
  datatype Header = Header(delimiter: char, index: map<string, nat>)

  function ReadHeader(firstLine: string): (h: Header)
    ensures h.delimiter != Quote
    ensures h.delimiter == ';' <==> ';' in firstLine && ',' !in firstLine
    ensures forall i :: 0 <= i < |ReadHeaderLine(firstLine)| ==> Lower(ReadHeaderLine(firstLine)[i]) in h.index
  {
    var raw := StripBOM(firstLine);
    var d := Delimiter(raw);
    Header(d, IndexOf(ReadHeaderLine(firstLine)))
  }

  /** The trimmed column names of a header line. */
  function ReadHeaderLine(firstLine: string): seq<string> {
    var raw := StripBOM(firstLine);
    HeaderNames(raw, Delimiter(raw))
  }

  /** Every data line, decoded with the header's delimiter and index. */
  function DecodeRows(lines: seq<string>, h: Header): (rows: seq<Row>)
    ensures |rows| == |lines|
    ensures forall k :: 0 <= k < |lines| ==> rows[k] == DecodeRow(lines[k], h.delimiter, h.index)
  {
    seq(|lines|, k requires 0 <= k < |lines| => DecodeRow(lines[k], h.delimiter, h.index))
  }

  /** No field holds `c`. */
  predicate Lacks(fs: seq<string>, c: char) {
    forall i :: 0 <= i < |fs| ==> c !in fs[i]
  }

  /** A header written with enclosed names and commas is read back name by
    * name, whatever commas or quotes the names hold. */
  lemma QuotedHeaderReadsBack(names: seq<string>)
    requires |names| >= 1
    requires forall i :: 0 <= i < |names| ==> IsTrimmed(names[i])
    requires Lacks(names, ByteOrderMark) && Lacks(names, ';')
    ensures ReadHeaderLine(JoinQuoted(names, ',')) == names
  {
    var line := JoinQuoted(names, ',');
    JoinQuotedLacks(names, ',', ByteOrderMark);
    JoinQuotedLacks(names, ',', ';');
    StripBOMUnchanged(line);
    QuotedRoundTrip(names, ',');
    forall i | 0 <= i < |names| ensures Trim(names[i]) == names[i] {
      TrimOfTrimmed(names[i]);
    }
  }

  /** A character no field holds, other than the double quote and the
    * delimiter, is absent from the quoted join. */
  lemma {:induction false} JoinQuotedLacks(fs: seq<string>, d: char, c: char)
    requires |fs| >= 1 && Lacks(fs, c) && c != Quote && c != d
    ensures c !in JoinQuoted(fs, d)
    decreases |fs|
  {
    EscapeChars(fs[0]);
    if |fs| > 1 {
      JoinQuotedLacks(fs[1..], d, c);
    }
  }

  lemma {:induction false} EscapeChars(f: string)
    ensures forall c :: c in Escape(f) ==> c in f
  {
    if f != [] {
      EscapeChars(f[1..]);
    }
  }
}
