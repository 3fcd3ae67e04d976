/** Properties of `parseCSV`: writing a table and parsing it back, CR LF against LF, blank
    and white-space lines, and what happens to a quote that is never closed. */
module CsvLaws {
  import opened Text
  import opened Csv

  predicate QuoteFree(s: string) {
    forall i :: 0 <= i < |s| ==> s[i] != '"'
  }

  /** A cell that needs no quoting: no comma, quote or line break in it. */
  predicate Plain(f: string) {
    forall i :: 0 <= i < |f| ==> f[i] != ',' && f[i] != '"' && !IsBreak(f[i])
  }

  /** Doubles every quote of the cell. */
  function Escape(f: string): string {
    if f == [] then []
    else (if f[0] == '"' then "\"\"" else [f[0]]) + Escape(f[1..])
  }

  /** A cell as a sheet export writes it: as it is, or, when `escape` is set and the cell holds
      a separator, between quotes with its own quotes doubled. */
  function FormatCell(f: string, escape: bool): string {
    if escape && !Plain(f) then "\"" + Escape(f) + "\"" else f
  }

  /** The cells of a row separated by commas. */
  function FormatRow(row: Row, escape: bool): string
    decreases |row|
  {
    if |row| == 0 then ""
    else if |row| == 1 then FormatCell(row[0], escape)
    else FormatCell(row[0], escape) + "," + FormatRow(row[1..], escape)
  }

  /** The rows of a table separated by line feeds, with no final line feed. */
  function Format(rows: seq<Row>, escape: bool): string
    decreases |rows|
  {
    if |rows| == 0 then ""
    else if |rows| == 1 then FormatRow(rows[0], escape)
    else FormatRow(rows[0], escape) + "\n" + Format(rows[1..], escape)
  }

  /** A cell the parser gives back unchanged: trimmed, and free of separators unless escaped. */
  predicate GoodCell(f: string, escape: bool) {
    IsTrimmed(f) && (escape || Plain(f))
  }

  /** A row that comes back: at least one cell, all of them good, and not one empty cell alone. */
  predicate FormattableRow(row: Row, escape: bool) {
    && |row| >= 1
    && row != [""]
    && forall i :: 0 <= i < |row| ==> GoodCell(row[i], escape)
  }

  predicate Formattable(rows: seq<Row>, escape: bool) {
    forall k :: 0 <= k < |rows| ==> FormattableRow(rows[k], escape)
  }

  // One step of the scan, for the text shapes the proofs below meet.

  lemma {:induction false} RunChar(c: char, t: string, s: Scanner)
    requires c != '"' && (s.inQuotes || (c != ',' && !IsBreak(c)))
    ensures Run([c] + t, s) == Run(t, s.(current := s.current + [c]))
  {
    var text := [c] + t;
    assert text[0] == c;
    assert Step(text, s) == (1, s.(current := s.current + [c]));
    assert text[1..] == t;
  }

  lemma {:induction false} RunComma(t: string, s: Scanner)
    requires !s.inQuotes
    ensures Run("," + t, s) == Run(t, EndField(s))
  {
    var text := "," + t;
    assert Step(text, s) == (1, EndField(s));
    assert text[1..] == t;
  }

  lemma {:induction false} RunLineFeed(t: string, s: Scanner)
    requires !s.inQuotes
    ensures Run("\n" + t, s) == Run(t, CloseRow(s))
  {
    var text := "\n" + t;
    assert Step(text, s) == (1, CloseRow(s));
    assert text[1..] == t;
  }

  lemma {:induction false} RunOpenQuote(t: string, s: Scanner)
    requires !s.inQuotes
    ensures Run("\"" + t, s) == Run(t, s.(inQuotes := true))
  {
    var text := "\"" + t;
    assert Step(text, s) == (1, s.(inQuotes := true));
    assert text[1..] == t;
  }

  lemma {:induction false} RunCloseQuote(t: string, s: Scanner)
    requires s.inQuotes && (t == [] || t[0] != '"')
    ensures Run("\"" + t, s) == Run(t, s.(inQuotes := false))
  {
    var text := "\"" + t;
    assert Step(text, s) == (1, s.(inQuotes := false));
    assert text[1..] == t;
  }

  lemma {:induction false} RunDoubledQuote(t: string, s: Scanner)
    requires s.inQuotes
    ensures Run("\"\"" + t, s) == Run(t, s.(current := s.current + "\""))
  {
    var text := "\"\"" + t;
    assert Step(text, s) == (2, s.(current := s.current + "\""));
    assert text[2..] == t;
  }

  // Cells, rows and tables.

  lemma {:induction false} PlainRun(f: string, t: string, s: Scanner)
    requires Plain(f)
    ensures Run(f + t, s) == Run(t, s.(current := s.current + f))
    decreases |f|
  {
    if f == [] {
      assert f + t == t;
      assert s.current + f == s.current;
    } else {
      var rest := f[1..] + t;
      var s1 := s.(current := s.current + [f[0]]);
      calc {
        Run(f + t, s);
        { assert f + t == [f[0]] + rest; }
        Run([f[0]] + rest, s);
        { RunChar(f[0], rest, s); }
        Run(rest, s1);
        { assert Plain(f[1..]); PlainRun(f[1..], t, s1); }
        Run(t, s1.(current := s1.current + f[1..]));
        { assert s1.current + f[1..] == s.current + f; }
        Run(t, s.(current := s.current + f));
      }
    }
  }

  /** Inside quotes, the first character of an escaped cell (a doubled quote for a quote) adds
      that character to the field. */
  lemma {:induction false} EscapedHead(f: string, t: string, s: Scanner)
    requires s.inQuotes && f != []
    ensures Run(Escape(f) + t, s) == Run(Escape(f[1..]) + t, s.(current := s.current + [f[0]]))
  {
    var rest := Escape(f[1..]) + t;
    var head := if f[0] == '"' then "\"\"" else [f[0]];
    assert Escape(f) + t == head + rest by {
      assert Escape(f) == head + Escape(f[1..]);
    }
    if f[0] == '"' {
      RunDoubledQuote(rest, s);
    } else {
      RunChar(f[0], rest, s);
    }
  }

  /** Inside quotes, an escaped cell adds exactly the cell to the field and stays inside quotes,
      whatever follows it. */
  lemma {:induction false} EscapedPrefixRun(f: string, t: string, s: Scanner)
    requires s.inQuotes
    ensures Run(Escape(f) + t, s) == Run(t, s.(current := s.current + f))
    decreases |f|
  {
    if f == [] {
      assert Escape(f) + t == t;
      assert s.current + f == s.current;
    } else {
      var s1 := s.(current := s.current + [f[0]]);
      calc {
        Run(Escape(f) + t, s);
      == { EscapedHead(f, t, s); }
        Run(Escape(f[1..]) + t, s1);
      == { EscapedPrefixRun(f[1..], t, s1); }
        Run(t, s1.(current := s1.current + f[1..]));
      == { assert s1.current + f[1..] == s.current + f; }
        Run(t, s.(current := s.current + f));
      }
    }
  }

  /** Inside quotes, the escaped cell and its closing quote add exactly the cell to the field. */
  lemma {:induction false} EscapedRun(f: string, t: string, s: Scanner)
    requires s.inQuotes
    requires t == [] || t[0] != '"'
    ensures Run(Escape(f) + "\"" + t, s) == Run(t, s.(current := s.current + f, inQuotes := false))
  {
    var s1 := s.(current := s.current + f);
    calc {
      Run(Escape(f) + "\"" + t, s);
    == { assert Escape(f) + "\"" + t == Escape(f) + ("\"" + t); }
      Run(Escape(f) + ("\"" + t), s);
    == { EscapedPrefixRun(f, "\"" + t, s); }
      Run("\"" + t, s1);
    == { RunCloseQuote(t, s1); }
      Run(t, s1.(inQuotes := false));
    }
  }

  lemma {:induction false} CellRun(f: string, escape: bool, t: string, s: Scanner)
    requires !s.inQuotes
    requires escape || Plain(f)
    requires t == [] || t[0] != '"'
    ensures Run(FormatCell(f, escape) + t, s) == Run(t, s.(current := s.current + f))
  {
    if escape && !Plain(f) {
      var body := Escape(f) + "\"" + t;
      assert FormatCell(f, escape) + t == "\"" + body;
      RunOpenQuote(body, s);
      EscapedRun(f, t, s.(inQuotes := true));
    } else {
      PlainRun(f, t, s);
    }
  }

  /** The first cell of a row and its comma: the cell joins the row. */
  lemma {:induction false} FirstCellRun(row: Row, escape: bool, t: string, s: Scanner)
    requires !s.inQuotes && s.current == ""
    requires |row| >= 2 && GoodCell(row[0], escape)
    ensures Run(FormatRow(row, escape) + t, s)
         == Run(FormatRow(row[1..], escape) + t, s.(row := s.row + [row[0]]))
  {
    var tail := FormatRow(row[1..], escape) + t;
    assert FormatRow(row, escape) + t == FormatCell(row[0], escape) + ("," + tail);
    CellRun(row[0], escape, "," + tail, s);
    var s1 := s.(current := row[0]);
    assert s.(current := s.current + row[0]) == s1;
    RunComma(tail, s1);
    TrimTrimmed(row[0]);
    assert EndField(s1) == s.(row := s.row + [row[0]]);
  }

  /** A formatted row leaves all but its last cell in the row and the last cell in the field. */
  lemma {:induction false} RowRun(row: Row, escape: bool, t: string, s: Scanner)
    requires !s.inQuotes && s.current == ""
    requires |row| >= 1 && forall i :: 0 <= i < |row| ==> GoodCell(row[i], escape)
    requires t == [] || t[0] == '\n'
    ensures Run(FormatRow(row, escape) + t, s)
         == Run(t, s.(row := s.row + row[..|row| - 1], current := row[|row| - 1]))
    decreases |row|
  {
    if |row| == 1 {
      CellRun(row[0], escape, t, s);
      assert s.row + row[..0] == s.row;
      assert s.current + row[0] == row[0];
    } else {
      var s1 := s.(row := s.row + [row[0]]);
      var tail := row[1..];
      calc {
        Run(FormatRow(row, escape) + t, s);
      == { FirstCellRun(row, escape, t, s); }
        Run(FormatRow(tail, escape) + t, s1);
      == { assert forall i :: 0 <= i < |tail| ==> tail[i] == row[i + 1];
           RowRun(tail, escape, t, s1); }
        Run(t, s1.(row := s1.row + tail[..|tail| - 1], current := tail[|tail| - 1]));
      == { assert tail[|tail| - 1] == row[|row| - 1];
           assert row[..|row| - 1] == [row[0]] + tail[..|tail| - 1];
           assert s1.row + tail[..|tail| - 1] == s.row + row[..|row| - 1]; }
        Run(t, s.(row := s.row + row[..|row| - 1], current := row[|row| - 1]));
      }
    }
  }

  /** At the end of a formatted row the parser emits exactly that row. */
  lemma {:induction false} RowEnd(row: Row, escape: bool, s: Scanner)
    requires Clean(s) && FormattableRow(row, escape)
    ensures CloseRow(s.(row := row[..|row| - 1], current := row[|row| - 1])) == s.(rows := s.rows + [row])
  {
    var last := row[|row| - 1];
    TrimTrimmed(last);
    assert row[..|row| - 1] + [last] == row;
    assert last != "" || |row| > 1;
  }

  /** The first row of a formatted table and its line feed: the row is emitted. */
  lemma {:induction false} FirstRowRun(rows: seq<Row>, escape: bool, s: Scanner)
    requires Clean(s) && |rows| >= 2 && FormattableRow(rows[0], escape)
    ensures Run(Format(rows, escape), s) == Run(Format(rows[1..], escape), s.(rows := s.rows + [rows[0]]))
  {
    var row := rows[0];
    var rest := Format(rows[1..], escape);
    var t := "\n" + rest;
    var s1 := s.(row := row[..|row| - 1], current := row[|row| - 1]);
    calc {
      Run(Format(rows, escape), s);
    == { assert Format(rows, escape) == FormatRow(row, escape) + t; }
      Run(FormatRow(row, escape) + t, s);
    == { RowRun(row, escape, t, s);
         assert s.row + row[..|row| - 1] == row[..|row| - 1]; }
      Run(t, s1);
    == { RunLineFeed(rest, s1); }
      Run(rest, CloseRow(s1));
    == { RowEnd(row, escape, s); }
      Run(rest, s.(rows := s.rows + [rows[0]]));
    }
  }

  lemma {:induction false} LastRowRun(row: Row, escape: bool, s: Scanner)
    requires Clean(s) && FormattableRow(row, escape)
    ensures CloseRow(Run(Format([row], escape), s)).rows == s.rows + [row]
  {
    assert Format([row], escape) == FormatRow(row, escape) + [];
    RowRun(row, escape, [], s);
    assert s.row + row[..|row| - 1] == row[..|row| - 1];
    var s1 := s.(row := row[..|row| - 1], current := row[|row| - 1]);
    assert Run(Format([row], escape), s) == s1;
    RowEnd(row, escape, s);
  }

  lemma {:induction false} FormattableTail(rows: seq<Row>, escape: bool)
    requires |rows| >= 1 && Formattable(rows, escape)
    ensures Formattable(rows[1..], escape)
  {
    forall k | 0 <= k < |rows| - 1
      ensures FormattableRow(rows[1..][k], escape)
    {
      assert rows[1..][k] == rows[k + 1];
    }
  }

  lemma {:induction false} TableRun(rows: seq<Row>, escape: bool, s: Scanner)
    requires Clean(s) && Formattable(rows, escape)
    ensures CloseRow(Run(Format(rows, escape), s)).rows == s.rows + rows
    decreases |rows|
  {
    if |rows| == 0 {
      assert s.rows + rows == s.rows;
    } else if |rows| == 1 {
      assert rows == [rows[0]];
      LastRowRun(rows[0], escape, s);
    } else {
      var s1 := s.(rows := s.rows + [rows[0]]);
      calc {
        CloseRow(Run(Format(rows, escape), s)).rows;
      == { FirstRowRun(rows, escape, s); }
        CloseRow(Run(Format(rows[1..], escape), s1)).rows;
      == { FormattableTail(rows, escape);
           TableRun(rows[1..], escape, s1); }
        s1.rows + rows[1..];
      == { assert [rows[0]] + rows[1..] == rows; }
        s.rows + rows;
      }
    }
  }

  /** Writing a table of trimmed cells with commas and line feeds and parsing it gives the table
      back. Unescaped, this holds when no cell contains a comma, quote or line break; escaped,
      it holds for any cells. A row that is one empty cell never comes back: the parser skips a
      line that left nothing in the field and had no comma. */
  lemma {:induction false} RoundTrip(rows: seq<Row>, escape: bool)
    requires Formattable(rows, escape)
    ensures Parse(Format(rows, escape)) == rows
  {
    var text := Format(rows, escape);
    assert Parse(text) == CloseRow(Run(text, Start)).rows;
    TableRun(rows, escape, Start);
    assert Start.rows + rows == rows;
  }

  /** A cell without quotes is its own escape. */
  lemma {:induction false} EscapeQuoteFree(f: string)
    requires QuoteFree(f)
    ensures Escape(f) == f
    decreases |f|
  {
    if f != [] {
      assert QuoteFree(f[1..]) by {
        assert forall i :: 0 <= i < |f| - 1 ==> f[1..][i] == f[i + 1];
      }
      EscapeQuoteFree(f[1..]);
      assert [f[0]] + f[1..] == f;
    }
  }

  lemma {:induction false} NotPlain(f: string, i: nat)
    requires i < |f| && (f[i] == ',' || f[i] == '"')
    ensures !Plain(f)
  {
  }

  lemma {:induction false} CommaCell()
    ensures FormatCell("b,c", true) == "\"b,c\"" && GoodCell("b,c", true)
  {
    var f := "b,c";
    assert !Plain(f) by {
      NotPlain(f, 1);
    }
    assert Escape(f) == f by {
      assert QuoteFree(f);
      EscapeQuoteFree(f);
    }
  }

  lemma {:induction false} QuoteCell()
    ensures FormatCell("x\"y", true) == "\"x\"\"y\"" && GoodCell("x\"y", true)
  {
    var f := "x\"y";
    assert !Plain(f) by {
      NotPlain(f, 1);
    }
    assert Escape(f) == "x\"\"y" by {
      assert Escape(f[2..]) == "y";
      assert Escape(f[1..]) == "\"\"y";
    }
  }

  /** A comma between quotes stays in the field. */
  lemma {:induction false} CommaInQuotesExample()
    ensures Parse("a,\"b,c\"") == [["a", "b,c"]]
  {
    var rows := [["a", "b,c"]];
    assert Format(rows, true) == "a,\"b,c\"" by {
      CommaCell();
      assert FormatCell("a", true) == "a";
      assert FormatRow(["a", "b,c"], true) == "a" + "," + "\"b,c\"";
    }
    assert Formattable(rows, true) by {
      CommaCell();
    }
    RoundTrip(rows, true);
  }

  /** A doubled quote between quotes is one literal quote. */
  lemma {:induction false} DoubledQuoteExample()
    ensures Parse("\"x\"\"y\"") == [["x\"y"]]
  {
    QuoteCell();
    assert Format([["x\"y"]], true) == "\"x\"\"y\"";
    RoundTrip([["x\"y"]], true);
  }

  // CR LF against LF.

  /** Replaces each CR LF pair by a single LF, scanning from the left. */
  function ReplaceCrlf(text: string): (r: string)
    ensures r == [] <==> text == []
    ensures text != [] ==> r[0] == (if |text| > 1 && text[0] == '\r' && text[1] == '\n' then '\n' else text[0])
    decreases |text|
  {
    if text == [] then []
    else if |text| > 1 && text[0] == '\r' && text[1] == '\n' then "\n" + ReplaceCrlf(text[2..])
    else [text[0]] + ReplaceCrlf(text[1..])
  }

  lemma {:induction false} CloseRowTwice(s: Scanner)
    ensures CloseRow(CloseRow(s)) == CloseRow(s)
  {
  }

  lemma {:induction false} CrlfRun(text: string, s: Scanner)
    requires QuoteFree(text) && !s.inQuotes
    ensures Run(ReplaceCrlf(text), s) == Run(text, s)
    decreases |text|
  {
    if text != [] {
      var r := ReplaceCrlf(text);
      if |text| > 1 && text[0] == '\r' && text[1] == '\n' {
        assert r[1..] == ReplaceCrlf(text[2..]);
        CrlfRun(text[2..], CloseRow(s));
      } else {
        var x := text[1..];
        var rx := ReplaceCrlf(x);
        assert r == [text[0]] + rx && r[1..] == rx;
        if text[0] == '\r' {
          if rx != [] && rx[0] == '\n' {
            assert |x| > 1 && x[0] == '\r' && x[1] == '\n';
            assert Step(r, s) == (2, CloseRow(s));
            assert r[2..] == rx[1..] == ReplaceCrlf(x[2..]);
            assert Step(text, s) == (1, CloseRow(s));
            assert Step(x, CloseRow(s)) == (2, CloseRow(CloseRow(s)));
            CloseRowTwice(s);
            CrlfRun(x[2..], CloseRow(s));
          } else {
            assert Step(r, s) == (1, CloseRow(s));
            assert Step(text, s) == (1, CloseRow(s));
            CrlfRun(x, CloseRow(s));
          }
        } else {
          assert Step(r, s) == Step(text, s);
          CrlfRun(x, Step(text, s).1);
        }
      }
    }
  }

  /** Without quotes in the text, CR LF line ends parse exactly like LF line ends. */
  lemma {:induction false} CrlfAsLf(text: string)
    requires QuoteFree(text)
    ensures Parse(ReplaceCrlf(text)) == Parse(text)
  {
    CrlfRun(text, Start);
  }

  /** Without quotes before the cut, and unless a CR ends `a` with an LF starting `b`, the scan
      of `a + b` is the scan of `a` followed by the scan of `b`. */
  lemma {:induction false} RunSplit(a: string, b: string, s: Scanner)
    requires QuoteFree(a) && !s.inQuotes
    requires a == [] || a[|a| - 1] != '\r' || b == [] || b[0] != '\n'
    ensures Run(a + b, s) == Run(b, Run(a, s))
    decreases |a|
  {
    if a == [] {
      assert a + b == b;
    } else {
      var (n, s1) := Step(a, s);
      SplitStep(a, b, s);
      RunSplit(a[n..], b, s1);
    }
  }

  /** One step of `RunSplit`: the first step on quote-free `a + b` is the first step on `a`,
      and what remains of `a` is quote-free, outside quotes and not split at a CR LF. */
  lemma {:induction false} SplitStep(a: string, b: string, s: Scanner)
    requires QuoteFree(a) && !s.inQuotes && a != []
    requires a[|a| - 1] != '\r' || b == [] || b[0] != '\n'
    ensures var (n, s1) := Step(a, s);
      && Run(a + b, s) == Run(a[n..] + b, s1)
      && QuoteFree(a[n..]) && !s1.inQuotes
      && (a[n..] == [] || a[n..][|a[n..]| - 1] != '\r' || b == [] || b[0] != '\n')
  {
    var (n, s1) := Step(a, s);
    var a' := a[n..];
    assert a[0] != '"' && (|a| == 1 ==> a[0] == a[|a| - 1]);
    StepRun(a, b, s);
    assert forall i :: 0 <= i < |a'| ==> a'[i] == a[i + n];
  }

  /** The scan of `a + b` continues from the first step on `a` when that step is the same. */
  lemma {:induction false} StepRun(a: string, b: string, s: Scanner)
    requires a != [] && a[0] != '"'
    requires |a| > 1 || a[0] != '\r' || b == [] || b[0] != '\n'
    ensures Run(a + b, s) == Run(a[Step(a, s).0..] + b, Step(a, s).1)
  {
    var (n, s1) := Step(a, s);
    StepPrefix(a, b, s);
    assert (a + b)[n..] == a[n..] + b;
  }

  /** The first step on `a + b` is the first step on `a` unless it looks past the end of `a`. */
  lemma {:induction false} StepPrefix(a: string, b: string, s: Scanner)
    requires a != [] && a[0] != '"'
    requires |a| > 1 || a[0] != '\r' || b == [] || b[0] != '\n'
    ensures Step(a + b, s) == Step(a, s)
  {
    var ab := a + b;
    assert ab[0] == a[0];
    assert |a| > 1 ==> ab[1] == a[1];
  }

  /** Without quotes, a text ending in a line break leaves the scanner between rows. */
  lemma {:induction false} EndsClean(p: string, s: Scanner)
    requires QuoteFree(p) && !s.inQuotes
    requires p != [] && IsBreak(p[|p| - 1])
    ensures Clean(Run(p, s))
    decreases |p|
  {
    var (n, s') := Step(p, s);
    if n < |p| {
      assert p[n..][|p[n..]| - 1] == p[|p| - 1];
      EndsClean(p[n..], s');
    } else {
      assert Run(p[n..], s') == s';
    }
  }

  // Lines.

  /** The three line terminators: LF, CR and CR LF. */
  predicate LineEnd(t: string) {
    t == "\n" || t == "\r" || t == "\r\n"
  }

  /** `t` ends a line in front of `b`: a lone CR is not followed by an LF, which would join it
      into one CR LF terminator. */
  predicate EndsLineBefore(t: string, b: string) {
    LineEnd(t) && (t == "\r" ==> b == [] || b[0] != '\n')
  }

  /** A text that leaves the scanner between rows: empty, or quote-free and ending in a line
      break. */
  predicate LinePrefix(a: string) {
    QuoteFree(a) && (a == [] || IsBreak(a[|a| - 1]))
  }

  /** A line terminator outside quotes closes the row, and nothing else. */
  lemma {:induction false} RunLineEnd(t: string, b: string, s: Scanner)
    requires !s.inQuotes && EndsLineBefore(t, b)
    ensures Run(t + b, s) == Run(b, CloseRow(s))
  {
    var text := t + b;
    if t == "\n" {
      RunLineFeed(b, s);
    } else if t == "\r" {
      assert text[0] == '\r' && (|text| > 1 ==> text[1] != '\n');
      assert Step(text, s) == (1, CloseRow(s));
      assert text[1..] == b;
    } else {
      assert text[0] == '\r' && text[1] == '\n';
      assert Step(text, s) == (2, CloseRow(s));
      assert text[2..] == b;
    }
  }

  /** A line terminator met between rows, that is at the start of the text or right after
      another line end, changes nothing: an empty line emits no row. */
  lemma {:induction false} BreakAtClean(t: string, b: string, s: Scanner)
    requires Clean(s) && EndsLineBefore(t, b)
    ensures Run(t + b, s) == Run(b, s)
  {
    RunLineEnd(t, b, s);
    assert CloseRow(s) == s;
  }

  /** An empty first line emits no row. */
  lemma {:induction false} BlankFirstLine(t: string, b: string)
    requires EndsLineBefore(t, b)
    ensures Parse(t + b) == Parse(b)
  {
    BreakAtClean(t, b, Start);
  }

  /** Closing a row does not look at the finished rows. */
  lemma {:induction false} CloseRowRows(s: Scanner, done: seq<Row>)
    ensures CloseRow(s.(rows := done + s.rows)) == CloseRow(s).(rows := done + CloseRow(s).rows)
  {
    if s.current != "" || |s.row| > 0 {
      var row := s.row + [Trim(s.current)];
      assert (done + s.rows) + [row] == done + (s.rows + [row]);
    }
  }

  lemma {:induction false} StepRows(text: string, s: Scanner, done: seq<Row>)
    requires text != []
    ensures Step(text, s.(rows := done + s.rows)).0 == Step(text, s).0
    ensures Step(text, s.(rows := done + s.rows)).1 == Step(text, s).1.(rows := done + Step(text, s).1.rows)
  {
    CloseRowRows(s, done);
  }

  /** The scan never reads the rows it has finished: starting it with more rows only puts those
      rows in front of the ones it emits. */
  lemma {:induction false} RunRows(text: string, s: Scanner, done: seq<Row>)
    ensures Run(text, s.(rows := done + s.rows)) == Run(text, s).(rows := done + Run(text, s).rows)
    decreases |text|
  {
    if text != [] {
      var (n, s') := Step(text, s);
      StepRows(text, s, done);
      RunRows(text[n..], s', done);
    }
  }

  /** Parsing `b` from a scanner between rows that has finished the rows `done`. */
  lemma {:induction false} ParseAfter(b: string, done: seq<Row>)
    ensures CloseRow(Run(b, Start.(rows := done))).rows == done + Parse(b)
  {
    assert Start.(rows := done) == Start.(rows := done + Start.rows);
    RunRows(b, Start, done);
    CloseRowRows(Run(b, Start), done);
  }

  /** Lines parse one by one: after a quote-free text that ends a line, the rest of the text is
      parsed on its own and its rows follow. */
  lemma {:induction false} ParseLines(a: string, b: string)
    requires LinePrefix(a)
    requires a != [] && a[|a| - 1] == '\r' ==> b == [] || b[0] != '\n'
    ensures Parse(a + b) == Parse(a) + Parse(b)
  {
    CleanPrefix(a);
    var c := Run(a, Start);
    assert c == Start.(rows := Parse(a));
    RunSplit(a, b, Start);
    ParseAfter(b, Parse(a));
  }

  /** An empty line (a line end right after the start of the text or after another line end)
      emits no row: the rows are those of the lines before it and of the lines after it. */
  lemma {:induction false} BlankLineSkipped(a: string, t: string, b: string)
    requires LinePrefix(a) && EndsLineBefore(t, b)
    requires a != [] && a[|a| - 1] == '\r' ==> t[0] != '\n'
    ensures Parse(a + t + b) == Parse(a) + Parse(b)
  {
    assert a + t + b == a + (t + b);
    ParseLines(a, t + b);
    BlankFirstLine(t, b);
  }

  /** White space holds no comma, quote or line break other than CR and LF. */
  lemma {:induction false} SpacePlain(w: string)
    requires AllSpace(w) && forall i :: 0 <= i < |w| ==> !IsBreak(w[i])
    ensures Plain(w)
  {
    assert !IsSpace(',') && !IsSpace('"');
  }

  /** A non-empty line of white space with no line break in it. */
  predicate SpaceLine(w: string) {
    w != [] && AllSpace(w) && forall i :: 0 <= i < |w| ==> !IsBreak(w[i])
  }

  /** A field of white space alone closes as a row of one empty cell. */
  lemma {:induction false} SpaceRowEnd(c: Scanner, w: string)
    requires Clean(c) && w != [] && Trim(w) == ""
    ensures CloseRow(c.(current := w)) == c.(rows := c.rows + [[""]])
  {
    assert c.row + [Trim(w)] == [""];
  }

  /** Between rows, a white-space line ended by a terminator or by the end of the text emits a
      row of one empty cell. */
  lemma {:induction false} SpaceLineRun(w: string, t: string, b: string, s: Scanner)
    requires Clean(s) && SpaceLine(w)
    requires EndsLineBefore(t, b) || (t == [] && b == [])
    ensures CloseRow(Run(w + t + b, s)) == CloseRow(Run(b, s.(rows := s.rows + [[""]])))
  {
    var s1 := s.(current := w);
    var s2 := s.(rows := s.rows + [[""]]);
    SpacePlain(w);
    TrimEmpty(w);
    assert w + t + b == w + (t + b);
    PlainRun(w, t + b, s);
    assert s.current + w == w;
    SpaceRowEnd(s, w);
    if t == [] {
      assert Run(w + t + b, s) == s1;
    } else {
      RunLineEnd(t, b, s1);
    }
  }

  /** A text that starts with a white-space line parses to one row `[""]` followed by the
      rows of what comes after the line. */
  lemma {:induction false} SpaceLineFirst(w: string, t: string, b: string)
    requires SpaceLine(w)
    requires EndsLineBefore(t, b) || (t == [] && b == [])
    ensures Parse(w + t + b) == [[""]] + Parse(b)
  {
    calc {
      Parse(w + t + b);
      CloseRow(Run(w + t + b, Start)).rows;
    == { SpaceLineRun(w, t, b, Start);
         assert Start.(rows := Start.rows + [[""]]) == Start.(rows := [[""]]); }
      CloseRow(Run(b, Start.(rows := [[""]]))).rows;
    == { ParseAfter(b, [[""]]); }
      [[""]] + Parse(b);
    }
  }

  /** A line that holds only white space is still a row: one empty field, between the rows of
      the lines before it and those of the lines after it. */
  lemma {:induction false} SpaceLineIsRow(a: string, w: string, t: string, b: string)
    requires LinePrefix(a) && SpaceLine(w)
    requires EndsLineBefore(t, b) || (t == [] && b == [])
    ensures Parse(a + w + t + b) == Parse(a) + [[""]] + Parse(b)
  {
    var line := w + t + b;
    assert a + w + t + b == a + line;
    assert line[0] == w[0];
    ParseLines(a, line);
    SpaceLineFirst(w, t, b);
    assert Parse(a) + ([[""]] + Parse(b)) == Parse(a) + [[""]] + Parse(b);
  }

  /** Inside quotes, text without quotes goes into the field as it is. */
  lemma {:induction false} InQuotesRun(t: string, s: Scanner)
    requires s.inQuotes && QuoteFree(t)
    ensures Run(t, s) == s.(current := s.current + t)
    decreases |t|
  {
    if t == [] {
      assert s.current + t == s.current;
    } else {
      var s1 := s.(current := s.current + [t[0]]);
      assert t == [t[0]] + t[1..];
      RunChar(t[0], t[1..], s);
      InQuotesRun(t[1..], s1);
      assert s1.current + t[1..] == s.current + t;
    }
  }

  /** Quote-free text never enters quotes. */
  lemma {:induction false} QuoteFreeOutside(p: string, s: Scanner)
    requires QuoteFree(p) && !s.inQuotes
    ensures !Run(p, s).inQuotes
    decreases |p|
  {
    if p != [] {
      var (n, s') := Step(p, s);
      assert QuoteFree(p[n..]);
      QuoteFreeOutside(p[n..], s');
    }
  }

  /** The scan of quote-free text that is empty or ends in a line break leaves a clean scanner
      whose rows are the parse of that text. */
  lemma {:induction false} CleanPrefix(p: string)
    requires LinePrefix(p)
    ensures Clean(Run(p, Start)) && Run(p, Start).rows == Parse(p)
  {
    if p != [] {
      EndsClean(p, Start);
    }
  }

  /** A quote that is never closed: everything after it, with doubled quotes read as one, goes
      into the field, and the scan stays inside quotes to the end. */
  lemma {:induction false} OpenQuoteRun(f: string, s: Scanner)
    requires !s.inQuotes
    ensures Run("\"" + Escape(f), s) == s.(current := s.current + f, inQuotes := true)
  {
    RunOpenQuote(Escape(f), s);
    assert Escape(f) + [] == Escape(f);
    EscapedPrefixRun(f, [], s.(inQuotes := true));
  }

  /** A quote that is never closed does not make the parse fail, wherever it opens after
      quote-free text: the rows finished before it stay, and the row under way gets one last
      field, the trimmed text read before the quote on that field followed by everything
      after the quote. Only a lone quote on an empty line leaves no row to flush. */
  lemma {:induction false} UnterminatedQuote(p: string, f: string)
    requires QuoteFree(p)
    requires f != [] || Run(p, Start).current != "" || Run(p, Start).row != []
    ensures var c := Run(p, Start);
      Parse(p + "\"" + Escape(f)) == c.rows + [c.row + [Trim(c.current + f)]]
  {
    var c := Run(p, Start);
    QuoteFreeOutside(p, Start);
    assert p + "\"" + Escape(f) == p + ("\"" + Escape(f));
    RunSplit(p, "\"" + Escape(f), Start);
    OpenQuoteRun(f, c);
    assert c.current + f != "" || |c.row| > 0;
  }

  /** At the start of a line the unterminated quote's text is the one field of the last row. */
  lemma {:induction false} UnterminatedQuoteLine(p: string, f: string)
    requires LinePrefix(p) && f != []
    ensures Parse(p + "\"" + Escape(f)) == Parse(p) + [[Trim(f)]]
  {
    var c := Run(p, Start);
    CleanPrefix(p);
    UnterminatedQuote(p, f);
    assert c.current + f == f;
    assert c.row + [Trim(f)] == [Trim(f)];
  }

  /** A lone quote at the start of the last line opens a quoted section that holds nothing,
      so it adds no row. */
  lemma {:induction false} LoneQuoteLine(p: string)
    requires LinePrefix(p)
    ensures Parse(p + "\"") == Parse(p)
  {
    var c := Run(p, Start);
    CleanPrefix(p);
    RunSplit(p, "\"", Start);
    assert "\"" == "\"" + [];
    RunOpenQuote([], c);
  }

  /** `a,"b` with the quote never closed is one row of two cells. */
  lemma {:induction false} UnterminatedQuoteExample()
    ensures Parse("a,\"b") == [["a", "b"]]
  {
    var f := "b";
    var last := ["a"] + [Trim("" + f)];
    assert last == ["a", "b"] by {
      assert "" + f == f;
      TrimTrimmed(f);
    }
    calc {
      Parse("a,\"b");
    == { assert Escape(f) == f;
         assert "a,\"b" == "a," + "\"" + Escape(f); }
      Parse("a," + "\"" + Escape(f));
    == { UnterminatedQuote("a,", f);
         FirstCellScan(); }
      [] + [last];
    }
  }

  lemma {:induction false} FirstCellScan()
    ensures Run("a,", Start) == Scanner("", ["a"], [], false)
  {
    var s1 := Start.(current := "a");
    calc {
      Run("a,", Start);
    == { assert "a," == ['a'] + ",";
         RunChar('a', ",", Start);
         assert Start.current + ['a'] == "a"; }
      Run(",", s1);
    == { assert "," == "," + [];
         RunComma([], s1); }
      Run([], EndField(s1));
    }
    TrimTrimmed("a");
  }
}
