/** `downloadAuditHubCsv`: the text it writes, and a reader for the quoting rules of section 2 of RFC 4180
    with a line feed as record break. */
module CsvExport {
  import opened Outcomes
  import opened Splitting
  import opened FirstUses

  /** A cell: nothing, or a value with the text that `String` or `JSON.stringify` gives it. */
  datatype Cell = Missing | Value(text: string)

  type Row = map<string, Cell>

  function CellText(row: Row, key: string): string {
    if key in row then (match row[key] case Missing => "" case Value(text) => text) else ""
  }

  // ----- the printer -----

  predicate NeedsQuotes(s: string) { exists c :: c in s && c in {'"', ',', '\n', '\r'} }

  /** Every quote doubled. */
  function Doubled(s: string): string {
    if s == "" then ""
    else (if s[0] == '"' then "\"\"" else [s[0]]) + Doubled(s[1..])
  }

  function Escaped(s: string): string {
    if NeedsQuotes(s) then "\"" + Doubled(s) + "\"" else s
  }

  function EscapedAll(cells: seq<string>): (escaped: seq<string>)
    ensures |escaped| == |cells|
  {
    if cells == [] then [] else [Escaped(cells[0])] + EscapedAll(cells[1..])
  }

  function Line(cells: seq<string>): string { Join(EscapedAll(cells), ',') }

  function Lines(records: seq<seq<string>>): (lines: seq<string>)
    ensures |lines| == |records|
  {
    if records == [] then [] else [Line(records[0])] + Lines(records[1..])
  }

  function CellsOf(row: Row, keys: seq<string>): seq<string> {
    if keys == [] then [] else [CellText(row, keys[0])] + CellsOf(row, keys[1..])
  }

  function Records(rows: seq<Row>, keys: seq<string>): seq<seq<string>> {
    if rows == [] then [] else [CellsOf(rows[0], keys)] + Records(rows[1..], keys)
  }

  const BYTE_ORDER_MARK := "\U{FEFF}"

  /** The file: the keys as header, then one line per row. */
  function File(rows: seq<Row>, keys: seq<string>): string {
    BYTE_ORDER_MARK + Join(Lines([keys] + Records(rows, keys)), '\n')
  }

  // ----- the reader -----

  /** A field read, with what follows it. */
  datatype Field = Field(text: string, rest: string)

  /** Inside quotes, up to the quote that is not doubled. */
  function ReadQuoted(s: string): Option<Field> {
    if s == "" then None
    else if s[0] != '"' then
      match ReadQuoted(s[1..])
      case None => None
      case Some(f) => Some(Field([s[0]] + f.text, f.rest))
    else if |s| > 1 && s[1] == '"' then
      match ReadQuoted(s[2..])
      case None => None
      case Some(f) => Some(Field("\"" + f.text, f.rest))
    else Some(Field("", s[1..]))
  }

  /** Outside quotes, up to a comma, a record break or the end; quotes and carriage returns are errors. */
  function ReadBare(s: string): Option<Field> {
    if s == "" || s[0] == ',' || s[0] == '\n' then Some(Field("", s))
    else if s[0] == '"' || s[0] == '\r' then None
    else
      match ReadBare(s[1..])
      case None => None
      case Some(f) => Some(Field([s[0]] + f.text, f.rest))
  }

  function ReadField(s: string): Option<Field> {
    if s != "" && s[0] == '"' then ReadQuoted(s[1..]) else ReadBare(s)
  }

  lemma {:induction false} QuotedShrinks(s: string)
    ensures ReadQuoted(s).Some? ==> |ReadQuoted(s).value.rest| < |s|
    decreases |s|
  {
    if s != "" {
      if s[0] != '"' {
        QuotedShrinks(s[1..]);
      } else if |s| > 1 && s[1] == '"' {
        QuotedShrinks(s[2..]);
      }
    }
  }

  lemma {:induction false} BareShrinks(s: string)
    ensures ReadBare(s).Some? ==> |ReadBare(s).value.rest| <= |s|
    decreases |s|
  {
    if s != "" && s[0] !in {',', '\n', '"', '\r'} {
      BareShrinks(s[1..]);
    }
  }

  lemma FieldShrinks(s: string)
    ensures ReadField(s).Some? ==> |ReadField(s).value.rest| <= |s|
  {
    if s != "" && s[0] == '"' {
      QuotedShrinks(s[1..]);
    } else {
      BareShrinks(s);
    }
  }

  /** The records of a text; every field must end at a comma, a record break or the end. */
  function ReadRecords(s: string): Option<seq<seq<string>>>
    decreases |s|
  {
    FieldShrinks(s);
    match ReadField(s)
    case None => None
    case Some(f) =>
      if f.rest == "" then Some([[f.text]])
      else if f.rest[0] == ',' then
        match ReadRecords(f.rest[1..])
        case None => None
        case Some(records) => if records == [] then None else Some([[f.text] + records[0]] + records[1..])
      else if f.rest[0] == '\n' then
        match ReadRecords(f.rest[1..])
        case None => None
        case Some(records) => Some([[f.text]] + records)
      else None
  }

  function ReadFile(file: string): Option<seq<seq<string>>> {
    if BYTE_ORDER_MARK <= file then ReadRecords(file[|BYTE_ORDER_MARK|..]) else None
  }

  // ----- what is printed reads back -----

  predicate EndsField(rest: string) { rest == "" || rest[0] == ',' || rest[0] == '\n' }

  lemma DoubledStep(s: string)
    requires s != ""
    ensures Doubled(s) == (if s[0] == '"' then "\"\"" else [s[0]]) + Doubled(s[1..])
  {}

  lemma QuotedStep(s: string)
    requires s != "" && (s[0] == '"' ==> |s| > 1 && s[1] == '"')
    ensures var rest := if s[0] == '"' then s[2..] else s[1..];
            ReadQuoted(rest).Some? ==>
              ReadQuoted(s) == Some(Field([s[0]] + ReadQuoted(rest).value.text, ReadQuoted(rest).value.rest))
  {
    assert s[0] == '"' ==> [s[0]] == "\"";
  }

  lemma {:induction false} DoubledReadsBack(s: string, rest: string)
    requires EndsField(rest)
    ensures ReadQuoted(Doubled(s) + "\"" + rest) == Some(Field(s, rest))
    decreases |s|
  {
    var printed := Doubled(s) + "\"" + rest;
    if s == "" {
      assert printed[1..] == rest;
    } else {
      hide ReadQuoted, Doubled, EndsField;
      DoubledReadsBack(s[1..], rest);
      DoubledStep(s);
      var tail := Doubled(s[1..]) + "\"" + rest;
      assert printed == (if s[0] == '"' then "\"\"" else [s[0]]) + tail;
      assert (if s[0] == '"' then printed[2..] else printed[1..]) == tail;
      QuotedStep(printed);
      assert [s[0]] + s[1..] == s;
    }
  }

  lemma {:induction false} BareReadsBack(s: string, rest: string)
    requires EndsField(rest) && forall c | c in s :: c !in {'"', ',', '\n', '\r'}
    ensures ReadBare(s + rest) == Some(Field(s, rest))
    decreases |s|
  {
    if s == "" {
      assert s + rest == rest;
    } else {
      assert s[0] in s && forall c | c in s[1..] :: c in s;
      assert (s + rest)[1..] == s[1..] + rest;
      BareReadsBack(s[1..], rest);
      assert [s[0]] + s[1..] == s;
    }
  }

  lemma EscapedReadsBack(s: string, rest: string)
    requires EndsField(rest)
    ensures ReadField(Escaped(s) + rest) == Some(Field(s, rest))
  {
    hide ReadQuoted, ReadBare, Doubled;
    var text := Escaped(s) + rest;
    if NeedsQuotes(s) {
      DoubledReadsBack(s, rest);
      assert text[0] == '"' && text[1..] == Doubled(s) + "\"" + rest;
    } else {
      BareReadsBack(s, rest);
      assert s != "" ==> s[0] in s;
    }
  }

  /** A cell is left as it is exactly when nothing in it needs quoting. */
  lemma EscapedOnlyWhenNeeded(s: string)
    ensures Escaped(s) == s <==> forall c | c in s :: c != '"' && c != ',' && c != '\n' && c != '\r'
  {
    if NeedsQuotes(s) {
      DoubledIsNoShorter(s);
    }
  }

  lemma {:induction false} DoubledIsNoShorter(s: string)
    ensures |Doubled(s)| >= |s|
  {
    if s != "" {
      DoubledIsNoShorter(s[1..]);
    }
  }

  lemma OneCellLine(cell: string)
    ensures Line([cell]) == Escaped(cell)
  {}

  lemma LineStep(cells: seq<string>, rest: string)
    requires |cells| > 1
    ensures Line(cells) + rest == Escaped(cells[0]) + ("," + (Line(cells[1..]) + rest))
  {}

  /** A line, followed by what reads as records, reads as its cells in front of them. */
  lemma {:induction false} LineReadsBack(cells: seq<string>, rest: string)
    requires cells != [] && (rest == "" || rest[0] == '\n')
    requires rest != "" ==> ReadRecords(rest[1..]).Some?
    ensures ReadRecords(Line(cells) + rest)
            == Some([cells] + if rest == "" then [] else ReadRecords(rest[1..]).value)
    decreases |cells|
  {
    hide ReadField, Escaped, Line;
    if |cells| == 1 {
      assert [cells[0]] == cells;
      OneCellLine(cells[0]);
      EscapedReadsBack(cells[0], rest);
      assert [cells] + [] == [cells];
    } else {
      var after := Line(cells[1..]) + rest;
      var tail := "," + after;
      LineReadsBack(cells[1..], rest);
      LineStep(cells, rest);
      EscapedReadsBack(cells[0], tail);
      assert tail[1..] == after;
      assert [cells[0]] + cells[1..] == cells;
      var records := ReadRecords(after).value;
      assert records[0] == cells[1..] && records[1..] == if rest == "" then [] else ReadRecords(rest[1..]).value;
    }
  }

  lemma LinesStep(records: seq<seq<string>>)
    requires |records| > 1
    ensures Join(Lines(records), '\n') == Line(records[0]) + ("\n" + Join(Lines(records[1..]), '\n'))
  {
    assert Lines(records)[1..] == Lines(records[1..]);
  }

  lemma OneLine(record: seq<string>)
    ensures Join(Lines([record]), '\n') == Line(record) + ""
  {}

  lemma {:induction false} LinesReadBack(records: seq<seq<string>>)
    requires records != [] && forall r | r in records :: r != []
    ensures ReadRecords(Join(Lines(records), '\n')) == Some(records)
    decreases |records|
  {
    hide ReadRecords, Lines, Line, Join;
    assert records[0] in records;
    if |records| == 1 {
      OneLine(records[0]);
      LineReadsBack(records[0], "");
      assert [records[0]] == records && [records[0]] + [] == records;
    } else {
      assert forall r | r in records[1..] :: r in records;
      LinesReadBack(records[1..]);
      var rest := "\n" + Join(Lines(records[1..]), '\n');
      assert rest[1..] == Join(Lines(records[1..]), '\n');
      LinesStep(records);
      LineReadsBack(records[0], rest);
      assert [records[0]] + records[1..] == records;
    }
  }

  lemma {:induction false} RecordsHaveCells(rows: seq<Row>, keys: seq<string>)
    requires keys != []
    ensures forall r | r in Records(rows, keys) :: r != []
  {
    if rows != [] {
      RecordsHaveCells(rows[1..], keys);
    }
  }

  lemma {:induction false} ReadRecordsHaveFields(s: string)
    requires ReadRecords(s).Some?
    ensures ReadRecords(s).value != [] && forall r | r in ReadRecords(s).value :: r != []
    decreases |s|
  {
    hide ReadField;
    FieldShrinks(s);
    var f := ReadField(s).value;
    if f.rest != "" {
      ReadRecordsHaveFields(f.rest[1..]);
    }
  }

  /** The file reads back as the header and every cell, whatever the cells hold, exactly when there is a
      column; without one, each empty line reads as one empty field. */
  lemma FileReadsBackExactlyWithAColumn(rows: seq<Row>, keys: seq<string>)
    ensures ReadFile(File(rows, keys)) == Some([keys] + Records(rows, keys)) <==> keys != []
    ensures File(rows, keys)[0] == '\U{FEFF}'
  {
    hide ReadRecords, Lines;
    var records := [keys] + Records(rows, keys);
    var text := Join(Lines(records), '\n');
    assert File(rows, keys)[|BYTE_ORDER_MARK|..] == text;
    if keys != [] {
      RecordsHaveCells(rows, keys);
      LinesReadBack(records);
    } else if ReadRecords(text).Some? {
      ReadRecordsHaveFields(text);
      assert records[0] == [] && records[0] in records;
    }
  }

  lemma {:induction false} RecordsAt(rows: seq<Row>, keys: seq<string>, i: nat, j: nat)
    requires i < |rows| && j < |keys|
    ensures |Records(rows, keys)| == |rows| && |CellsOf(rows[i], keys)| == |keys|
    ensures Records(rows, keys)[i] == CellsOf(rows[i], keys)
    ensures CellsOf(rows[i], keys)[j]
            == if keys[j] in rows[i] && rows[i][keys[j]].Value? then rows[i][keys[j]].text else ""
    decreases |rows|, |keys|
  {
    CellsAt(rows[i], keys, j);
    RecordCount(rows, keys, i);
  }

  lemma {:induction false} CellsAt(row: Row, keys: seq<string>, j: nat)
    requires j < |keys|
    ensures |CellsOf(row, keys)| == |keys| && CellsOf(row, keys)[j] == CellText(row, keys[j])
  {
    if j > 0 {
      CellsAt(row, keys[1..], j - 1);
    } else if |keys| > 1 {
      CellsAt(row, keys[1..], 0);
    }
  }

  lemma {:induction false} RecordCount(rows: seq<Row>, keys: seq<string>, i: nat)
    requires i < |rows|
    ensures |Records(rows, keys)| == |rows| && Records(rows, keys)[i] == CellsOf(rows[i], keys)
  {
    if i > 0 {
      RecordCount(rows[1..], keys, i - 1);
    } else if |rows| > 1 {
      RecordCount(rows[1..], keys, 0);
    }
  }

  // ----- gathering the columns -----

  /** The keys of a row in some order, as `Object.keys` lists them. */
  ghost predicate Lists(keys: seq<string>, row: Row) {
    (forall k :: k in keys <==> k in row) && forall i, j | 0 <= i < j < |keys| :: keys[i] != keys[j]
  }

  /** All keys of all rows, in the order they are met. */
  function AllKeys(orders: seq<seq<string>>): (keys: seq<string>)
    ensures forall k :: k in keys <==> exists i :: 0 <= i < |orders| && k in orders[i]
  {
    if orders == [] then []
    else
      var last := |orders| - 1;
      AllKeys(orders[..last]) + orders[last]
  }

  /** Every key of every row, once, in the order of first appearance: no column is lost and none printed twice.
      `orders[i]` is the key order of row `i`. */
  method Columns(rows: seq<Row>, orders: seq<seq<string>>) returns (keys: seq<string>)
    requires |orders| == |rows| && forall i | 0 <= i < |rows| :: Lists(orders[i], rows[i])
    ensures keys == Distinct(AllKeys(orders))
    ensures forall k :: k in keys <==> exists i :: 0 <= i < |rows| && k in rows[i]
    ensures forall i, j | 0 <= i < j < |keys| :: keys[i] != keys[j]
  {
    NoKeysYet();
    hide AllKeys, Distinct, Lists;
    keys := [];
    assert orders[..0] == [];
    for i := 0 to |rows|
      invariant keys == Distinct(AllKeys(orders[..i]))
    {
      var order, before := orders[i], AllKeys(orders[..i]);
      AllKeysStep(orders, i);
      assert before + order[..0] == before;
      for j := 0 to |order|
        invariant keys == Distinct(before + order[..j])
      {
        assert before + order[..j + 1] == (before + order[..j]) + [order[j]];
        DistinctOfAppended(before + order[..j], order[j]);
        if order[j] !in keys {
          keys := keys + [order[j]];
        }
      }
      assert order[..|order|] == order;
    }
    assert orders[..|rows|] == orders;
    AllKeysAreThoseOfTheRows(rows, orders);
  }

  lemma AllKeysAreThoseOfTheRows(rows: seq<Row>, orders: seq<seq<string>>)
    requires |orders| == |rows| && forall i | 0 <= i < |rows| :: Lists(orders[i], rows[i])
    ensures forall k :: k in AllKeys(orders) <==> exists i :: 0 <= i < |rows| && k in rows[i]
  {
    forall k
      ensures k in AllKeys(orders) <==> exists i :: 0 <= i < |rows| && k in rows[i]
    {
      if i :| 0 <= i < |rows| && k in rows[i] {
        assert Lists(orders[i], rows[i]);
      }
      if k in AllKeys(orders) {
        var i :| 0 <= i < |orders| && k in orders[i];
        assert Lists(orders[i], rows[i]);
      }
    }
  }

  lemma NoKeysYet()
    ensures Distinct(AllKeys([])) == []
  {}

  lemma AllKeysStep(orders: seq<seq<string>>, i: nat)
    requires i < |orders|
    ensures AllKeys(orders[..i + 1]) == AllKeys(orders[..i]) + orders[i]
  {
    assert orders[..i + 1][..i] == orders[..i];
  }

  /** The file for a nonempty list of rows. */
  method AuditHubCsv(rows: seq<Row>, orders: seq<seq<string>>) returns (file: string, keys: seq<string>)
    requires |orders| == |rows| && forall i | 0 <= i < |rows| :: Lists(orders[i], rows[i])
    ensures rows == [] ==> file == "\U{FEFF}"
    ensures keys == Distinct(AllKeys(orders))
    ensures rows != [] ==> file == File(rows, keys)
    ensures forall k :: k in keys <==> exists i :: 0 <= i < |rows| && k in rows[i]
    ensures keys != [] ==> ReadFile(file) == Some([keys] + Records(rows, keys))
  {
    if |rows| == 0 {
      return BYTE_ORDER_MARK, [];
    }
    keys := Columns(rows, orders);
    file := File(rows, keys);
    if keys != [] {
      FileReadsBackExactlyWithAColumn(rows, keys);
    }
  }
}
