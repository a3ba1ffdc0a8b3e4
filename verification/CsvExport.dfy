/**
 The CSV export of the SQL console, and a reader for its data lines following
 section 2 of RFC 4180 with LF as the record separator.
 */
module CsvExport {
  import opened Prelude
  import opened Text
  import opened SqlText

  const NL := '\n'

  /** A result cell: null, or what String(cell) gives. */
  type Cell = Option<string>

  function Shown(cell: Cell): string {
    if cell == None then "NULL" else cell.value
  }

  function Field(cell: Cell): string {
    if cell == None then "NULL"
    else if ',' in cell.value || '"' in cell.value || NL in cell.value then "\"" + Double(cell.value, '"') + "\""
    else cell.value
  }

  function Fields(row: seq<Cell>): (r: seq<string>)
    ensures |r| == |row|
    ensures forall i :: 0 <= i < |r| ==> r[i] == Field(row[i])
  {
    seq(|row|, i requires 0 <= i < |row| => Field(row[i]))
  }

  function Records(rows: seq<seq<Cell>>): (r: seq<string>)
    ensures |r| == |rows|
    ensures forall i :: 0 <= i < |r| ==> r[i] == Join(Fields(rows[i]), ",")
  {
    seq(|rows|, i requires 0 <= i < |rows| => Join(Fields(rows[i]), ","))
  }

  function ExportCsv(columns: seq<string>, rows: seq<seq<Cell>>): string {
    Join([Join(columns, ",")] + Records(rows), "\n")
  }

  // ---------- Reading ----------

  predicate EndsField(s: string) {
    s == "" || s[0] == ',' || s[0] == NL
  }

  function PlainField(s: string): (r: string)
    ensures r <= s
  {
    if EndsField(s) then "" else [s[0]] + PlainField(s[1..])
  }

  /** escaped / non-escaped: a quote belongs at the ends of a quoted field, or doubled inside one. */
  function ReadField(s: string): (r: Option<(string, string)>)
    ensures r.Some? ==> |r.value.1| <= |s| && EndsField(r.value.1)
  {
    if s != "" && s[0] == '"' then
      match Unquote(s[1..], '"')
      case Some((text, rest)) => if EndsField(rest) then Some((text, rest)) else None
      case None => None
    else
      var text := PlainField(s);
      PlainFieldEnds(s);
      if '"' in text then None else Some((text, s[|text|..]))
  }

  lemma {:induction false} PlainFieldEnds(s: string)
    ensures EndsField(s[|PlainField(s)|..])
  {
    if !EndsField(s) {
      PlainFieldEnds(s[1..]);
      assert s[|PlainField(s)|..] == s[1..][|PlainField(s[1..])|..];
    }
  }

  function ReadRecord(s: string): (r: Option<(seq<string>, string)>)
    ensures r.Some? ==> |r.value.1| <= |s|
    decreases |s|
  {
    match ReadField(s)
    case None => None
    case Some((text, rest)) =>
      if rest != "" && rest[0] == ',' then
        match ReadRecord(rest[1..])
        case Some((texts, after)) => Some(([text] + texts, after))
        case None => None
      else Some(([text], rest))
  }

  /** The data lines, each introduced by a line feed. */
  function ReadData(s: string): Option<seq<seq<string>>>
    decreases |s|
  {
    if s == "" then Some([])
    else if s[0] != NL then None
    else
      match ReadRecord(s[1..])
      case None => None
      case Some((record, rest)) =>
        match ReadData(rest)
        case Some(records) => Some([record] + records)
        case None => None
  }

  // ---------- Round trip ----------

  lemma {:induction false} PlainFieldReads(text: string, rest: string)
    requires ',' !in text && NL !in text && EndsField(rest)
    ensures PlainField(text + rest) == text
    decreases |text|
  {
    if text == "" {
      assert text + rest == rest;
    } else {
      assert (text + rest)[1..] == text[1..] + rest;
      PlainFieldReads(text[1..], rest);
    }
  }

  lemma QuotedReads(inner: string, text: string, rest: string)
    requires EndsField(rest) && Unquote(inner, '"') == Some((text, rest))
    ensures ReadField("\"" + inner) == Some((text, rest))
  {
    assert ("\"" + inner)[1..] == inner;
  }

  lemma QuotedConcat(body: string, rest: string)
    ensures "\"" + body + "\"" + rest == "\"" + (body + ['"'] + rest)
  {
  }

  lemma UnquotedReads(text: string, rest: string)
    requires EndsField(rest) && ',' !in text && '"' !in text && NL !in text
    ensures ReadField(text + rest) == Some((text, rest))
  {
    PlainFieldReads(text, rest);
    assert (text + rest)[|text|..] == rest;
    assert text != "" ==> (text + rest)[0] == text[0];
  }

  lemma FieldReads(cell: Cell, rest: string)
    requires EndsField(rest)
    ensures ReadField(Field(cell) + rest) == Some((Shown(cell), rest))
  {
    var text := Shown(cell);
    if ',' in text || '"' in text || NL in text {
      UnquoteDoubled(text, '"', rest);
      QuotedReads(Double(text, '"') + ['"'] + rest, text, rest);
      QuotedConcat(Double(text, '"'), rest);
    } else {
      UnquotedReads(text, rest);
    }
  }

  function ShownRow(row: seq<Cell>): (r: seq<string>)
    ensures |r| == |row|
    ensures forall i :: 0 <= i < |r| ==> r[i] == Shown(row[i])
  {
    seq(|row|, i requires 0 <= i < |row| => Shown(row[i]))
  }

  function ShownGrid(rows: seq<seq<Cell>>): (r: seq<seq<string>>)
    ensures |r| == |rows|
    ensures forall i :: 0 <= i < |r| ==> r[i] == ShownRow(rows[i])
  {
    seq(|rows|, i requires 0 <= i < |rows| => ShownRow(rows[i]))
  }

  lemma RecordStep(cell: Cell, tail: string, texts: seq<string>, rest: string)
    requires ReadRecord(tail) == Some((texts, rest))
    ensures ReadRecord(Field(cell) + ("," + tail)) == Some(([Shown(cell)] + texts, rest))
  {
    FieldReads(cell, "," + tail);
    assert ("," + tail)[1..] == tail;
  }

  lemma JoinStep(row: seq<Cell>, rest: string)
    requires |row| > 1
    ensures Join(Fields(row), ",") + rest == Field(row[0]) + ("," + (Join(Fields(row[1..]), ",") + rest))
  {
    assert Fields(row)[1..] == Fields(row[1..]);
  }

  lemma LastField(cell: Cell, rest: string)
    requires rest == "" || rest[0] == NL
    ensures ReadRecord(Field(cell) + rest) == Some(([Shown(cell)], rest))
  {
    FieldReads(cell, rest);
  }

  lemma ShownSplit(row: seq<Cell>)
    requires row != []
    ensures ShownRow(row) == [Shown(row[0])] + ShownRow(row[1..])
    ensures |row| == 1 ==> ShownRow(row) == [Shown(row[0])]
  {
  }

  lemma {:induction false} RecordReads(row: seq<Cell>, rest: string)
    requires row != [] && (rest == "" || rest[0] == NL)
    ensures ReadRecord(Join(Fields(row), ",") + rest) == Some((ShownRow(row), rest))
    decreases |row|
  {
    ShownSplit(row);
    if |row| == 1 {
      LastField(row[0], rest);
    } else {
      var tail := Join(Fields(row[1..]), ",") + rest;
      RecordReads(row[1..], rest);
      RecordStep(row[0], tail, ShownRow(row[1..]), rest);
      JoinStep(row, rest);
    }
  }

  /** The lines after the first, each with its line feed. */
  function DataLines(records: seq<string>): string
    decreases |records|
  {
    if records == [] then "" else "\n" + (records[0] + DataLines(records[1..]))
  }

  lemma {:induction false} JoinIsLines(first: string, records: seq<string>)
    ensures Join([first] + records, "\n") == first + DataLines(records)
    decreases |records|
  {
    if records == [] {
      assert [first] + records == [first];
    } else {
      assert ([first] + records)[1..] == [records[0]] + records[1..];
      JoinIsLines(records[0], records[1..]);
    }
  }

  lemma DataStep(row: seq<Cell>, rest: string, records: seq<seq<string>>)
    requires row != [] && (rest == "" || rest[0] == NL) && ReadData(rest) == Some(records)
    ensures ReadData("\n" + (Join(Fields(row), ",") + rest)) == Some([ShownRow(row)] + records)
  {
    RecordReads(row, rest);
    NextRecord(Join(Fields(row), ",") + rest, ShownRow(row), rest, records);
  }

  lemma NextRecord(s: string, record: seq<string>, rest: string, records: seq<seq<string>>)
    requires ReadRecord(s) == Some((record, rest)) && ReadData(rest) == Some(records)
    ensures ReadData("\n" + s) == Some([record] + records)
  {
    assert ("\n" + s)[1..] == s;
  }

  lemma GridSplit(rows: seq<seq<Cell>>)
    requires rows != []
    ensures ShownGrid(rows) == [ShownRow(rows[0])] + ShownGrid(rows[1..])
    ensures DataLines(Records(rows)) == "\n" + (Join(Fields(rows[0]), ",") + DataLines(Records(rows[1..])))
  {
    assert Records(rows)[1..] == Records(rows[1..]);
  }

  lemma StartsLine(records: seq<string>)
    ensures DataLines(records) == "" || DataLines(records)[0] == NL
  {
  }

  lemma {:induction false} DataReads(rows: seq<seq<Cell>>)
    requires forall i :: 0 <= i < |rows| ==> rows[i] != []
    ensures ReadData(DataLines(Records(rows))) == Some(ShownGrid(rows))
    decreases |rows|
  {
    if rows != [] {
      DataReads(rows[1..]);
      StartsLine(Records(rows[1..]));
      DataStep(rows[0], DataLines(Records(rows[1..])), ShownGrid(rows[1..]));
      GridSplit(rows);
    }
  }

  ghost predicate IsGrid(columns: seq<string>, rows: seq<seq<Cell>>) {
    columns != [] && forall i :: 0 <= i < |rows| ==> |rows[i]| == |columns|
  }

  /** The data lines of the export read back as the grid, cell by cell, with null shown as NULL. */
  lemma CsvRoundTrip(columns: seq<string>, rows: seq<seq<Cell>>)
    requires IsGrid(columns, rows)
    ensures var csv := ExportCsv(columns, rows);
            var header := Join(columns, ",");
            header <= csv && ReadData(csv[|header|..]) == Some(ShownGrid(rows))
    ensures |ShownGrid(rows)| == |rows| && forall i :: 0 <= i < |rows| ==>
              && |ShownGrid(rows)[i]| == |rows[i]|
              && forall j :: 0 <= j < |rows[i]| ==>
                   ShownGrid(rows)[i][j] == if rows[i][j] == None then "NULL" else rows[i][j].value
  {
    var header := Join(columns, ",");
    JoinIsLines(header, Records(rows));
    DataReads(rows);
    assert (header + DataLines(Records(rows)))[|header|..] == DataLines(Records(rows));
  }

  lemma SameFields(a: seq<Cell>, b: seq<Cell>)
    requires ShownRow(a) == ShownRow(b)
    ensures Fields(a) == Fields(b)
  {
    assert |a| == |ShownRow(a)| == |b|;
    forall j | 0 <= j < |a|
      ensures Field(a[j]) == Field(b[j])
    {
      assert Shown(a[j]) == ShownRow(a)[j] == Shown(b[j]);
    }
  }

  lemma SameRecords(a: seq<seq<Cell>>, b: seq<seq<Cell>>)
    requires ShownGrid(a) == ShownGrid(b)
    ensures Records(a) == Records(b)
  {
    assert |a| == |ShownGrid(a)| == |b|;
    forall i | 0 <= i < |a|
      ensures Records(a)[i] == Records(b)[i]
    {
      assert ShownRow(a[i]) == ShownGrid(a)[i] == ShownRow(b[i]);
      SameFields(a[i], b[i]);
    }
  }

  /** Two grids export to the same text exactly when they show the same; only null and the text NULL collide. */
  lemma ExportIsInjective(columns: seq<string>, a: seq<seq<Cell>>, b: seq<seq<Cell>>)
    requires IsGrid(columns, a) && IsGrid(columns, b)
    ensures ExportCsv(columns, a) == ExportCsv(columns, b) <==> ShownGrid(a) == ShownGrid(b)
  {
    CsvRoundTrip(columns, a);
    CsvRoundTrip(columns, b);
    if ShownGrid(a) == ShownGrid(b) { SameRecords(a, b); }
  }
}
