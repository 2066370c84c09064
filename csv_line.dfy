/**
 * The importer's one-line CSV field splitter, `parseCSVLine(_:delimiter:)`.
 * It follows rules 5 to 7 of section 2 of RFC 4180 loosely and within one
 * line: a double quote switches a "quoted" state on and off and is itself
 * dropped, two double quotes inside a quoted stretch stand for one literal
 * double quote, and the delimiter splits fields only outside quotes.
 */
module CsvLine {

  const Quote: char := '"'

  /** Adds `c` to the front of the first field. */
  function PrependChar(c: char, fs: seq<string>): (r: seq<string>)
    requires |fs| >= 1
    ensures |r| == |fs| && r[0] == [c] + fs[0] && r[1..] == fs[1..]
  {
    [[c] + fs[0]] + fs[1..]
  }

  /** The fields of `s` read from a state that is inside quotes or not: the
    * first element is the text the first field still receives. One case per
    * branch of the loop body at ImportCSVView.swift:269-294, in its order. */
  function Fields(s: string, d: char, inQuotes: bool): (r: seq<string>)
    ensures |r| >= 1
    decreases |s|
  {
    if s == [] then [""]
    else if s[0] == Quote then
      if inQuotes && |s| > 1 && s[1] == Quote then PrependChar(Quote, Fields(s[2..], d, inQuotes))
      else Fields(s[1..], d, !inQuotes)
    else if s[0] == d && !inQuotes then [""] + Fields(s[1..], d, inQuotes)
    else PrependChar(s[0], Fields(s[1..], d, inQuotes))
  }

  /** What `parseCSVLine(line, delimiter: d)` returns. */
  function ParseLine(line: string, d: char): (r: seq<string>)
    ensures |r| == 1 + SplittingDelimiters(line, d, false)
  {
    FieldCount(line, d, false);
    Fields(line, d, false)
  }

  /** The delimiters of `s` that split a field: those met outside quotes,
    * counted along the same left-to-right reading. */
  function SplittingDelimiters(s: string, d: char, inQuotes: bool): nat
    decreases |s|
  {
    if s == [] then 0
    else if s[0] == Quote then
      if inQuotes && |s| > 1 && s[1] == Quote then SplittingDelimiters(s[2..], d, inQuotes)
      else SplittingDelimiters(s[1..], d, !inQuotes)
    else if s[0] == d && !inQuotes then 1 + SplittingDelimiters(s[1..], d, inQuotes)
    else SplittingDelimiters(s[1..], d, inQuotes)
  }

  /** There is always a field, and exactly one more than the delimiters met
    * outside quotes. */
  lemma {:induction false} FieldCount(s: string, d: char, inQuotes: bool)
    ensures |Fields(s, d, inQuotes)| == 1 + SplittingDelimiters(s, d, inQuotes)
    decreases |s|
  {
    if s == [] {
    } else if s[0] == Quote {
      if inQuotes && |s| > 1 && s[1] == Quote {
        FieldCount(s[2..], d, inQuotes);
      } else {
        FieldCount(s[1..], d, !inQuotes);
      }
    } else if s[0] == d && !inQuotes {
      FieldCount(s[1..], d, inQuotes);
    } else {
      FieldCount(s[1..], d, inQuotes);
    }
  }

  // Writing fields out as CSV

  /** Every double quote doubled, as rule 7 of section 2 of RFC 4180 asks. */
  function Escape(f: string): (r: string)
    ensures |r| >= |f|
  {
    if f == [] then []
    else if f[0] == Quote then [Quote, Quote] + Escape(f[1..])
    else [f[0]] + Escape(f[1..])
  }

  /** A field enclosed in double quotes. */
  function Quoted(f: string): string {
    [Quote] + Escape(f) + [Quote]
  }

  /** Fields written as enclosed fields, separated by `d`. */
  function JoinQuoted(fs: seq<string>, d: char): string
    requires |fs| >= 1
  {
    if |fs| == 1 then Quoted(fs[0])
    else Quoted(fs[0]) + [d] + JoinQuoted(fs[1..], d)
  }

  /** Fields written as they are, separated by `d`. */
  function Join(fs: seq<string>, d: char): string
    requires |fs| >= 1
  {
    if |fs| == 1 then fs[0]
    else fs[0] + [d] + Join(fs[1..], d)
  }

  /** Adds `f` to the front of the first field. */
  function PrependText(f: string, fs: seq<string>): (r: seq<string>)
    requires |fs| >= 1
    ensures |r| == |fs| && r[0] == f + fs[0] && r[1..] == fs[1..]
  {
    [f + fs[0]] + fs[1..]
  }

  lemma PrependCharText(c: char, t: string, fs: seq<string>)
    requires |fs| >= 1
    ensures PrependChar(c, PrependText(t, fs)) == PrependText([c] + t, fs)
  {
    assert [c] + (t + fs[0]) == ([c] + t) + fs[0];
  }

  /** Inside quotes, an escaped field followed by its closing quote reads
    * back as the field, whatever delimiters and quotes it holds. */
  lemma {:induction false} EscapedReadsBack(f: string, rest: string, d: char)
    requires d != Quote
    requires rest == [] || rest[0] == d
    ensures Fields(Escape(f) + [Quote] + rest, d, true) == PrependText(f, Fields(rest, d, false))
    decreases |f|
  {
    var s := Escape(f) + [Quote] + rest;
    if f == [] {
      assert s == [Quote] + rest;
      assert s[1..] == rest;
    } else if f[0] == Quote {
      assert s == [Quote, Quote] + (Escape(f[1..]) + [Quote] + rest);
      assert s[2..] == Escape(f[1..]) + [Quote] + rest;
      EscapedReadsBack(f[1..], rest, d);
      PrependCharText(Quote, f[1..], Fields(rest, d, false));
      assert f == [Quote] + f[1..];
    } else {
      assert s == [f[0]] + (Escape(f[1..]) + [Quote] + rest);
      assert s[1..] == Escape(f[1..]) + [Quote] + rest;
      EscapedReadsBack(f[1..], rest, d);
      PrependCharText(f[0], f[1..], Fields(rest, d, false));
      assert f == [f[0]] + f[1..];
    }
  }

  /** Writing fields as enclosed fields and splitting the line gives the
    * fields back, for any delimiter other than the double quote. */
  lemma {:induction false} QuotedRoundTrip(fs: seq<string>, d: char)
    requires |fs| >= 1 && d != Quote
    ensures ParseLine(JoinQuoted(fs, d), d) == fs
    decreases |fs|
  {
    var f := fs[0];
    if |fs| == 1 {
      var s := Quoted(f);
      assert s == [Quote] + (Escape(f) + [Quote] + []);
      assert s[1..] == Escape(f) + [Quote] + [];
      EscapedReadsBack(f, [], d);
      assert f + "" == f;
      assert PrependText(f, [""]) == [f];
    } else {
      var tail := [d] + JoinQuoted(fs[1..], d);
      var s := JoinQuoted(fs, d);
      assert s == [Quote] + (Escape(f) + [Quote] + tail);
      assert s[1..] == Escape(f) + [Quote] + tail;
      EscapedReadsBack(f, tail, d);
      assert tail[1..] == JoinQuoted(fs[1..], d);
      QuotedRoundTrip(fs[1..], d);
      assert Fields(tail, d, false) == [""] + fs[1..];
      assert f + "" == f && ([""] + fs[1..])[1..] == fs[1..];
      assert PrependText(f, [""] + fs[1..]) == [f] + fs[1..];
      assert fs == [f] + fs[1..];
    }
  }

  /** Fields without double quotes and without the delimiter need no
    * enclosing: joining them with `d` and splitting gives them back. */
  lemma {:induction false} PlainRoundTrip(fs: seq<string>, d: char)
    requires |fs| >= 1 && d != Quote
    requires forall k, i :: 0 <= k < |fs| && 0 <= i < |fs[k]| ==> fs[k][i] != Quote && fs[k][i] != d
    ensures ParseLine(Join(fs, d), d) == fs
    decreases |fs|
  {
    if |fs| == 1 {
      PlainText(fs[0], [], d);
      assert fs[0] + [] == fs[0];
      assert fs[0] + "" == fs[0];
      assert PrependText(fs[0], [""]) == [fs[0]];
    } else {
      var tail := [d] + Join(fs[1..], d);
      assert Join(fs, d) == fs[0] + tail;
      PlainText(fs[0], tail, d);
      assert tail[1..] == Join(fs[1..], d);
      PlainRoundTrip(fs[1..], d);
      assert Fields(tail, d, false) == [""] + fs[1..];
      assert fs[0] + "" == fs[0] && ([""] + fs[1..])[1..] == fs[1..];
      assert PrependText(fs[0], [""] + fs[1..]) == [fs[0]] + fs[1..];
      assert fs == [fs[0]] + fs[1..];
    }
  }

  /** Outside quotes, text without quotes and delimiters joins the first field. */
  lemma {:induction false} PlainText(f: string, rest: string, d: char)
    requires forall i :: 0 <= i < |f| ==> f[i] != Quote && f[i] != d
    ensures Fields(f + rest, d, false) == PrependText(f, Fields(rest, d, false))
    decreases |f|
  {
    if f == [] {
      assert f + rest == rest;
      var later := Fields(rest, d, false);
      assert "" + later[0] == later[0] && [later[0]] + later[1..] == later;
      assert PrependText("", later) == later;
    } else {
      assert (f + rest)[1..] == f[1..] + rest;
      PlainText(f[1..], rest, d);
      PrependCharText(f[0], f[1..], Fields(rest, d, false));
      assert f == [f[0]] + f[1..];
    }
  }

  /** The worked example: `"a,b""c"` with a comma is the single field `a,b"c`. */
  lemma ExampleEscapedQuote()
    ensures ParseLine("\"a,b\"\"c\"", ',') == ["a,b\"c"]
  {
    QuotedRoundTrip(["a,b\"c"], ',');
    assert JoinQuoted(["a,b\"c"], ',') == "\"a,b\"\"c\"";
  }

  /** The loop state after the text consumed so far: the finished fields,
    * the field being built, and what the rest of the line yields. */
  function Resume(result: seq<string>, current: string, rest: seq<string>): seq<string>
    requires |rest| >= 1
  {
    result + PrependText(current, rest)
  }

  lemma ResumeStart(rest: seq<string>)
    requires |rest| >= 1
    ensures Resume([], "", rest) == rest
  {
    assert "" + rest[0] == rest[0] && [rest[0]] + rest[1..] == rest;
    assert PrependText("", rest) == rest;
  }

  lemma ResumeChar(result: seq<string>, current: string, c: char, rest: seq<string>)
    requires |rest| >= 1
    ensures Resume(result, current, PrependChar(c, rest)) == Resume(result, current + [c], rest)
  {
    assert current + ([c] + rest[0]) == (current + [c]) + rest[0];
  }

  lemma ResumeSplit(result: seq<string>, current: string, rest: seq<string>)
    requires |rest| >= 1
    ensures Resume(result, current, [""] + rest) == Resume(result + [current], "", rest)
  {
    assert current + "" == current;
    assert ([""] + rest)[1..] == rest;
    assert "" + rest[0] == rest[0] && [rest[0]] + rest[1..] == rest;
    assert PrependText("", rest) == rest;
  }

  /** `parseCSVLine(_:delimiter:)`, ImportCSVView.swift:261-298. */
  method ParseCSVLine(line: string, delimiter: char) returns (result: seq<string>)
    ensures result == ParseLine(line, delimiter)
    ensures |result| == 1 + SplittingDelimiters(line, delimiter, false)
  {
    result := [];
    var current: string := "";
    var inQuotes := false;
    var i := 0;
    ResumeStart(Fields(line, delimiter, false));
    while i < |line|
      invariant 0 <= i <= |line|
      invariant Resume(result, current, Fields(line[i..], delimiter, inQuotes)) == ParseLine(line, delimiter)
    {
      var ch := line[i];
      assert line[i..][1..] == line[i + 1..];
      if ch == Quote {
        if inQuotes && i + 1 < |line| && line[i + 1] == Quote {
          assert line[i..][2..] == line[i + 2..];
          ResumeChar(result, current, Quote, Fields(line[i + 2..], delimiter, inQuotes));
          current := current + [Quote];
          i := i + 2;
          continue;
        } else {
          inQuotes := !inQuotes;
          i := i + 1;
          continue;
        }
      }
      if ch == delimiter && !inQuotes {
        ResumeSplit(result, current, Fields(line[i + 1..], delimiter, inQuotes));
        result := result + [current];
        current := "";
        i := i + 1;
        continue;
      }
      ResumeChar(result, current, ch, Fields(line[i + 1..], delimiter, inQuotes));
      current := current + [ch];
      i := i + 1;
    }
    assert line[i..] == [];
    assert current + "" == current;
    assert PrependText(current, [""]) == [current];
    result := result + [current];
    FieldCount(line, delimiter, false);
  }
}
