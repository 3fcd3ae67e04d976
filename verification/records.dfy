/** The load effect of the storefront: the parsed sheet's first row is the header, and every
    later row becomes a card, a map from trimmed header name to cell. */
module Records {
  import opened Text
  import opened Csv
  import CsvLaws

  /** A card: the plain object built for one data row. */
  type Record = map<string, string>

  /** Assigning a string to this key of a plain object changes nothing: the `__proto__`
      setter ignores values that are not objects. */
  const ProtoKey := "__proto__"

  /** `r[i] || ""`: the cell, or the empty string when the row is too short. */
  function Cell(cells: Row, i: nat): string {
    if i < |cells| then cells[i] else ""
  }

  /** The keys the columns write, in column order: `h.trim()` for each header cell `h`. */
  function Keys(header: Row): (keys: seq<string>)
    ensures |keys| == |header|
    ensures forall i :: 0 <= i < |header| ==> keys[i] == Trim(header[i])
  {
    if header == [] then [] else [Trim(header[0])] + Keys(header[1..])
  }

  /** Column `i` is the last of the first `n` columns with its key. */
  predicate LastWithKey(keys: seq<string>, i: nat, n: nat)
    requires i < n <= |keys|
  {
    forall j :: i < j < n ==> keys[j] != keys[i]
  }

  /** `header.forEach` over the first `n` columns: each column writes its cell under its key,
      overwriting an earlier column with the same key. */
  function Assign(keys: seq<string>, cells: Row, n: nat): Record
    requires n <= |keys|
    decreases n
  {
    if n == 0 then map[]
    else
      var o := Assign(keys, cells, n - 1);
      var k := keys[n - 1];
      if k == ProtoKey then o else o[k := Cell(cells, n - 1)]
  }

  /** The card's keys are the column keys, without `__proto__`, which is never an own key. */
  lemma {:induction false} AssignKeys(keys: seq<string>, cells: Row, n: nat)
    requires n <= |keys|
    ensures forall k :: k in Assign(keys, cells, n) <==> k != ProtoKey && exists i :: 0 <= i < n && keys[i] == k
    decreases n
  {
    if n > 0 {
      AssignKeys(keys, cells, n - 1);
      forall k | k != ProtoKey && exists i :: 0 <= i < n && keys[i] == k
        ensures k in Assign(keys, cells, n)
      {
        var i :| 0 <= i < n && keys[i] == k;
        if i < n - 1 {
          assert k in Assign(keys, cells, n - 1);
        }
      }
      forall k | k in Assign(keys, cells, n)
        ensures k != ProtoKey && exists i :: 0 <= i < n && keys[i] == k
      {
        if k !in Assign(keys, cells, n - 1) {
          assert keys[n - 1] == k;
        }
      }
    }
  }

  /** Under each key the card holds the cell of the last column with that key. */
  lemma {:induction false} AssignValues(keys: seq<string>, cells: Row, n: nat)
    requires n <= |keys|
    ensures forall i :: 0 <= i < n && keys[i] != ProtoKey && LastWithKey(keys, i, n) ==>
      keys[i] in Assign(keys, cells, n) && Assign(keys, cells, n)[keys[i]] == Cell(cells, i)
    decreases n
  {
    if n > 0 {
      AssignValues(keys, cells, n - 1);
      forall i | 0 <= i < n - 1 && keys[i] != ProtoKey && LastWithKey(keys, i, n)
        ensures LastWithKey(keys, i, n - 1) && keys[i] != keys[n - 1]
      {
      }
    }
  }

  /** The card built from one data row. */
  function RecordOf(header: Row, cells: Row): Record {
    Assign(Keys(header), cells, |header|)
  }

  /** Only the cells under a header column matter: two rows that agree there (a missing cell
      counting as empty) give the same card. */
  lemma {:induction false} AssignCells(keys: seq<string>, a: Row, b: Row, n: nat)
    requires n <= |keys|
    requires forall i :: 0 <= i < n ==> Cell(a, i) == Cell(b, i)
    ensures Assign(keys, a, n) == Assign(keys, b, n)
    decreases n
  {
    if n > 0 {
      AssignCells(keys, a, b, n - 1);
    }
  }

  /** Cells beyond the header are ignored. */
  lemma {:induction false} ExtraCellsIgnored(header: Row, cells: Row)
    requires |cells| > |header|
    ensures RecordOf(header, cells) == RecordOf(header, cells[..|header|])
  {
    var prefix := cells[..|header|];
    forall i | 0 <= i < |header|
      ensures Cell(cells, i) == Cell(prefix, i)
    {
      assert prefix[i] == cells[i];
    }
    AssignCells(Keys(header), cells, prefix, |header|);
  }

  /** Missing cells read as empty: padding a short row with empty cells changes nothing. */
  lemma {:induction false} MissingCellsEmpty(header: Row, cells: Row, pad: nat)
    ensures RecordOf(header, cells) == RecordOf(header, cells + seq(pad, _ => ""))
  {
    var padded := cells + seq(pad, _ => "");
    forall i | 0 <= i < |header|
      ensures Cell(cells, i) == Cell(padded, i)
    {
      if i < |padded| && i >= |cells| {
        assert padded[i] == seq(pad, _ => "")[i - |cells|];
      }
    }
    AssignCells(Keys(header), cells, padded, |header|);
  }

  /** `rows.map(...)`: one card per data row, in order. */
  function MapRows(header: Row, rows: seq<Row>): (cards: seq<Record>)
    ensures |cards| == |rows|
    ensures forall k :: 0 <= k < |rows| ==> cards[k] == RecordOf(header, rows[k])
    decreases |rows|
  {
    if rows == [] then [] else [RecordOf(header, rows[0])] + MapRows(header, rows[1..])
  }

  /** `const [header, ...rows] = data` followed by the map. With no rows at all the map never
      touches the missing header, so the result is empty rather than an error. */
  function ToRecords(data: seq<Row>): (cards: seq<Record>)
    ensures |cards| == if data == [] then 0 else |data| - 1
    ensures forall k :: 0 <= k < |cards| ==> cards[k] == RecordOf(data[0], data[k + 1])
  {
    if data == [] then [] else MapRows(data[0], data[1..])
  }

  /** What card `k` holds: for every header column that is not `__proto__` and not overridden
      by a later column with the same name, the cell of data row `k` under it, or "" when the
      row is short; and nothing under any other key. */
  lemma {:induction false} CardFields(data: seq<Row>, k: nat)
    requires |data| >= 1 && k < |data| - 1
    ensures var card := ToRecords(data)[k]; var keys := Keys(data[0]);
      && (forall key :: key in card <==> key != ProtoKey && exists i :: 0 <= i < |keys| && keys[i] == key)
      && (forall i :: 0 <= i < |keys| && keys[i] != ProtoKey && LastWithKey(keys, i, |keys|) ==>
            keys[i] in card && card[keys[i]] == Cell(data[k + 1], i))
  {
    var keys := Keys(data[0]);
    assert ToRecords(data)[k] == Assign(keys, data[k + 1], |keys|);
    AssignKeys(keys, data[k + 1], |keys|);
    AssignValues(keys, data[k + 1], |keys|);
  }

  /** Of two header columns with the same trimmed name the later one supplies the value. */
  lemma {:induction false} LaterDuplicateWins(header: Row, cells: Row, i: nat, j: nat)
    requires i < j < |header| && Trim(header[i]) == Trim(header[j]) != ProtoKey
    requires LastWithKey(Keys(header), j, |header|)
    ensures Trim(header[i]) in RecordOf(header, cells) && RecordOf(header, cells)[Trim(header[i])] == Cell(cells, j)
  {
    AssignValues(Keys(header), cells, |header|);
  }

  /** The whole load: parse the text, then build the cards. */
  function Load(text: string): seq<Record> {
    ToRecords(Parse(text))
  }

  /** The header cells the parser produces are trimmed already, so the card keys are exactly the
      header cells, `__proto__` aside. */
  lemma {:induction false} LoadKeys(text: string, k: nat)
    requires k + 1 < |Parse(text)|
    ensures forall key :: key in Load(text)[k] <==> key != ProtoKey && key in Parse(text)[0]
  {
    var data := Parse(text);
    var header := data[0];
    var keys := Keys(header);
    assert WellFormedRow(header);
    assert Load(text)[k] == Assign(keys, data[k + 1], |keys|);
    AssignKeys(keys, data[k + 1], |keys|);
    ParsedKeys(header);
    forall key
      ensures (exists i :: 0 <= i < |keys| && keys[i] == key) <==> key in header
    {
      if key in header {
        var i :| 0 <= i < |header| && header[i] == key;
        assert keys[i] == key;
      }
    }
  }

  /** Trimming a header that is trimmed already leaves its cells as they are. */
  lemma {:induction false} ParsedKeys(header: Row)
    requires WellFormedRow(header)
    ensures Keys(header) == header
  {
    forall i | 0 <= i < |header|
      ensures Keys(header)[i] == header[i]
    {
      TrimTrimmed(header[i]);
    }
  }

  /** A sheet written from a header and data rows loads as the cards of those rows. */
  lemma {:induction false} LoadFormatted(table: seq<Row>, escape: bool)
    requires CsvLaws.Formattable(table, escape)
    ensures Load(CsvLaws.Format(table, escape)) == ToRecords(table)
  {
    CsvLaws.RoundTrip(table, escape);
  }
}
