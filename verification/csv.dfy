/** The storefront's `parseCSV`: a single pass over the characters of the sheet export that
    keeps the field being read, the fields of the current row, the finished rows and whether
    it is inside a quoted section. The pass is written here as a fold (`Run`) over the text
    that consumes one character per step, or two for a doubled quote inside quotes and for
    a CR LF pair outside quotes. */
module Csv {
  import opened Text

  type Row = seq<string>

  /** The four variables of the scan: `current`, `row`, `rows` and `inQuotes`. */
  datatype Scanner = Scanner(current: string, row: Row, rows: seq<Row>, inQuotes: bool)

  const Start := Scanner("", [], [], false)

  /** Between rows: nothing accumulated for the next row and not inside quotes. */
  predicate Clean(s: Scanner) {
    s.current == "" && s.row == [] && !s.inQuotes
  }

  predicate IsBreak(c: char) {
    c == '\n' || c == '\r'
  }

  /** A comma outside quotes: the trimmed field joins the row. */
  function EndField(s: Scanner): Scanner {
    s.(row := s.row + [Trim(s.current)], current := "")
  }

  /** A line break outside quotes (and the end of the text): the row is emitted only when
      something was read since the last row, that is a non-empty field or an earlier comma. */
  function CloseRow(s: Scanner): Scanner {
    if s.current != "" || |s.row| > 0 then
      Scanner("", [], s.rows + [s.row + [Trim(s.current)]], s.inQuotes)
    else
      s
  }

  /** One iteration of the scanning loop on the non-empty rest `text` of the input: how many
      characters it consumes and the scanner afterwards. */
  function Step(text: string, s: Scanner): (r: (nat, Scanner))
    requires text != []
    ensures 1 <= r.0 <= 2 && r.0 <= |text|
  {
    var c := text[0];
    if c == '"' then
      if s.inQuotes && |text| > 1 && text[1] == '"' then
        (2, s.(current := s.current + ['"']))
      else
        (1, s.(inQuotes := !s.inQuotes))
    else if c == ',' && !s.inQuotes then
      (1, EndField(s))
    else if IsBreak(c) && !s.inQuotes then
      (if c == '\r' && |text| > 1 && text[1] == '\n' then 2 else 1, CloseRow(s))
    else
      (1, s.(current := s.current + [c]))
  }

  /** The loop over the whole of `text`, starting from scanner `s`. */
  function Run(text: string, s: Scanner): Scanner
    decreases |text|
  {
    if text == [] then s
    else
      var (n, s') := Step(text, s);
      Run(text[n..], s')
  }

  /** Every field of the scanner is trimmed and every finished row holds at least one field. */
  predicate Shaped(s: Scanner) {
    && (forall i :: 0 <= i < |s.row| ==> IsTrimmed(s.row[i]))
    && (forall k :: 0 <= k < |s.rows| ==> WellFormedRow(s.rows[k]))
  }

  predicate WellFormedRow(row: Row) {
    |row| >= 1 && forall i :: 0 <= i < |row| ==> IsTrimmed(row[i])
  }

  lemma {:induction false} CloseRowShaped(s: Scanner)
    requires Shaped(s)
    ensures Shaped(CloseRow(s))
  {
    if s.current != "" || |s.row| > 0 {
      var row := s.row + [Trim(s.current)];
      forall i | 0 <= i < |row|
        ensures IsTrimmed(row[i])
      {
        if i < |s.row| {
          assert row[i] == s.row[i];
        }
      }
      var rows := s.rows + [row];
      forall k | 0 <= k < |rows|
        ensures WellFormedRow(rows[k])
      {
        if k < |s.rows| {
          assert rows[k] == s.rows[k];
        }
      }
      assert CloseRow(s).rows == rows && CloseRow(s).row == [];
    }
  }

  lemma {:induction false} RunShaped(text: string, s: Scanner)
    requires Shaped(s)
    ensures Shaped(Run(text, s))
    decreases |text|
  {
    if text != [] {
      var (n, s') := Step(text, s);
      if text[0] != '"' && IsBreak(text[0]) && !s.inQuotes {
        CloseRowShaped(s);
      }
      RunShaped(text[n..], s');
    }
  }

  /** `parseCSV(text)`: it never fails, every row it returns has at least one field, and every
      field is trimmed. */
  function Parse(text: string): (rows: seq<Row>)
    ensures forall k :: 0 <= k < |rows| ==> WellFormedRow(rows[k])
  {
    RunShaped(text, Start);
    CloseRowShaped(Run(text, Start));
    CloseRow(Run(text, Start)).rows
  }
}

/** The scanning loop of `parseCSV` written with the source's own variables and index, shown
    to compute the same rows as the fold `Csv.Parse`. */
module CsvLoop {
  import opened Text
  import opened Csv

  method ParseCsv(text: string) returns (rows: seq<Row>)
    ensures rows == Parse(text)
  {
    rows := [];
    var current := "";
    var row: Row := [];
    var inQuotes := false;
    var i := 0;
    while i < |text|
      invariant 0 <= i <= |text|
      invariant Run(text[i..], Scanner(current, row, rows, inQuotes)) == Run(text, Start)
    {
      ghost var before := Scanner(current, row, rows, inQuotes);
      ghost var rest := text[i..];
      var i' := i;
      i', current, row, rows, inQuotes := Advance(text, i, current, row, rows, inQuotes);
      assert Run(rest, before) == Run(rest[i' - i..], Scanner(current, row, rows, inQuotes));
      assert rest[i' - i..] == text[i'..];
      i := i';
    }
    if current != "" || |row| > 0 {
      row := row + [Trim(current)];
      rows := rows + [row];
    }
  }

  /** One iteration of the loop body, from the character at `i` to the index of the next one. */
  method Advance(text: string, i: nat, current: string, row: Row, rows: seq<Row>, inQuotes: bool)
    returns (i': nat, current': string, row': Row, rows': seq<Row>, inQuotes': bool)
    requires i < |text|
    ensures (i' - i, Scanner(current', row', rows', inQuotes')) == Step(text[i..], Scanner(current, row, rows, inQuotes))
    ensures i < i' <= |text|
  {
    ghost var rest := text[i..];
    assert rest[0] == text[i];
    assert |rest| > 1 ==> rest[1] == text[i + 1];
    current', row', rows', inQuotes' := current, row, rows, inQuotes;
    i' := i;
    var c := text[i];
    if c == '"' {
      if inQuotes && i + 1 < |text| && text[i + 1] == '"' {
        current' := current + ['"'];
        i' := i + 1;
      } else {
        inQuotes' := !inQuotes;
      }
    } else if c == ',' && !inQuotes {
      row' := row + [Trim(current)];
      current' := "";
    } else if (c == '\n' || c == '\r') && !inQuotes {
      if current != "" || |row| > 0 {
        row' := row + [Trim(current)];
        rows' := rows + [row'];
        row' := [];
        current' := "";
      }
      if c == '\r' && i + 1 < |text| && text[i + 1] == '\n' {
        i' := i + 1;
      }
    } else {
      current' := current + [c];
    }
    i' := i' + 1;
  }
}
