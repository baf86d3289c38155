/** The CSV and TSV branch of the export writer in src/tools/query_surface.rs, against a reader of
    RFC 4180, section 2, whose records end in a line feed. */
module DelimitedExport {
  import opened Text
  import opened OutputNames

  const QUOTE: char := '"'

  /** The two formats separate with a comma and a tab. */
  predicate IsDelimiter(c: char) {
    c != QUOTE && c != '\n' && c != '\r'
  }

  // ---- Printing ----

  /** `value.replace('"', "\"\"")`. */
  function DoubleQuotes(s: string): string {
    if s == "" then ""
    else (if s[0] == QUOTE then [QUOTE, QUOTE] else [s[0]]) + DoubleQuotes(s[1..])
  }

  predicate NeedsQuotes(escaped: string, delimiter: char) {
    delimiter in escaped || '\n' in escaped || '\r' in escaped || QUOTE in escaped
  }

  function FieldText(value: string, delimiter: char): string {
    var escaped := DoubleQuotes(value);
    if NeedsQuotes(escaped, delimiter) then [QUOTE] + escaped + [QUOTE] else escaped
  }

  /** A record: the fields, separated, and a line feed. */
  function RecordText(values: seq<string>, delimiter: char): string {
    if values == [] then "\n"
    else if |values| == 1 then FieldText(values[0], delimiter) + "\n"
    else FieldText(values[0], delimiter) + ([delimiter] + RecordText(values[1..], delimiter))
  }

  function TableText(records: seq<seq<string>>, delimiter: char): string {
    if records == [] then "" else RecordText(records[0], delimiter) + TableText(records[1..], delimiter)
  }

  class ExportFile {
    var content: string

    constructor ()
      ensures content == ""
    {
      content := "";
    }

    method Write(text: string)
      modifies this
      ensures content == old(content) + text
    {
      content := content + text;
    }

    method WriteDelimitedRow(values: seq<string>, delimiter: char)
      modifies this
      ensures content == old(content) + RecordText(values, delimiter)
    {
      hide RecordText, Remaining, DoubleQuotes;
      var first := true;
      RemainingEnds(values, delimiter);
      assert values[0..] == values;
      for i := 0 to |values|
        invariant first == (i == 0)
        invariant content + Remaining(values[i..], first, delimiter) == old(content) + RecordText(values, delimiter)
      {
        ghost var before := content;
        assert values[i..][0] == values[i] && values[i..][1..] == values[i + 1..];
        if !first {
          Write([delimiter]);
        }
        first := false;
        var escaped := DoubleQuotes(values[i]);
        if NeedsQuotes(escaped, delimiter) {
          Write([QUOTE] + escaped + [QUOTE]);
        } else {
          Write(escaped);
        }
        RemainingStep(before, values[i..], i == 0, delimiter);
      }
      assert values[|values|..] == [];
      Write("\n");
    }
  }

  /** What is still to be printed of a record. */
  function Remaining(values: seq<string>, first: bool, delimiter: char): string {
    if first then RecordText(values, delimiter)
    else if values == [] then "\n"
    else [delimiter] + RecordText(values, delimiter)
  }

  lemma RemainingEnds(values: seq<string>, delimiter: char)
    ensures Remaining(values, true, delimiter) == RecordText(values, delimiter)
    ensures Remaining([], true, delimiter) == Remaining([], false, delimiter) == "\n"
  {
  }

  lemma RemainingStep(before: string, values: seq<string>, first: bool, delimiter: char)
    requires values != []
    ensures before + Remaining(values, first, delimiter)
         == before + (if first then "" else [delimiter]) + FieldText(values[0], delimiter)
             + Remaining(values[1..], false, delimiter)
  {
    hide RecordText, FieldText, Remaining;
    RecordStep(values, delimiter);
    RemainingUnfolds(values, first, delimiter);
    var mark := if first then "" else [delimiter];
    var field, rest := FieldText(values[0], delimiter), Remaining(values[1..], false, delimiter);
    assert before + (mark + (field + rest)) == before + mark + field + rest;
  }

  lemma RemainingUnfolds(values: seq<string>, first: bool, delimiter: char)
    requires values != []
    ensures Remaining(values, first, delimiter) == (if first then "" else [delimiter]) + RecordText(values, delimiter)
  {
  }

  lemma RecordStep(values: seq<string>, delimiter: char)
    requires values != []
    ensures RecordText(values, delimiter) == FieldText(values[0], delimiter) + Remaining(values[1..], false, delimiter)
  {
  }

  /** A cell of a row, rendered as text; a missing cell is empty. */
  function RenderExportCell<V>(row: map<string, V>, column: string, render: V -> string): string {
    if column in row then render(row[column]) else ""
  }

  lemma MissingCellIsEmpty<V>(row: map<string, V>, column: string, render: V -> string)
    ensures column !in row ==> RenderExportCell(row, column, render) == ""
    ensures column in row ==> RenderExportCell(row, column, render) == render(row[column])
  {
  }

  function RenderedRow<V>(row: map<string, V>, columns: seq<string>, render: V -> string): (r: seq<string>)
    ensures |r| == |columns| && forall i :: 0 <= i < |columns| ==> r[i] == RenderExportCell(row, columns[i], render)
  {
    seq(|columns|, i requires 0 <= i < |columns| => RenderExportCell(row, columns[i], render))
  }

  function ExportedTable<V>(columns: seq<string>, rows: seq<map<string, V>>, render: V -> string): (r: seq<seq<string>>)
    ensures |r| == |rows| + 1 && r[0] == columns
    ensures forall i :: 0 <= i < |rows| ==> r[i + 1] == RenderedRow(rows[i], columns, render)
  {
    [columns] + seq(|rows|, i requires 0 <= i < |rows| => RenderedRow(rows[i], columns, render))
  }

  lemma {:induction false} TableAppend(records: seq<seq<string>>, record: seq<string>, delimiter: char)
    ensures TableText(records + [record], delimiter) == TableText(records, delimiter) + RecordText(record, delimiter)
  {
    if records == [] {
      assert ([record])[1..] == [] && records + [record] == [record];
      assert RecordText(record, delimiter) + "" == RecordText(record, delimiter);
    } else {
      assert (records + [record])[1..] == records[1..] + [record];
      TableAppend(records[1..], record, delimiter);
    }
  }

  lemma NothingPrinted(delimiter: char)
    ensures TableText([], delimiter) == ""
  {
  }

  method WriteExportArtifact<V>(columns: seq<string>, rows: seq<map<string, V>>, render: V -> string, delimiter: char)
    returns (file: ExportFile)
    requires IsDelimiter(delimiter)
    ensures fresh(file) && file.content == TableText(ExportedTable(columns, rows, render), delimiter)
  {
    hide TableText, RecordText, RenderedRow, ExportedTable;
    file := new ExportFile();
    ghost var table := ExportedTable(columns, rows, render);
    file.WriteDelimitedRow(columns, delimiter);
    TableAppend([], columns, delimiter);
    NothingPrinted(delimiter);
    assert [] + [columns] == table[..1];
    assert "" + RecordText(columns, delimiter) == RecordText(columns, delimiter);
    for i := 0 to |rows|
      invariant fresh(file) && file.content == TableText(table[..i + 1], delimiter)
    {
      var values := [];
      for j := 0 to |columns|
        invariant values == RenderedRow(rows[i], columns, render)[..j]
      {
        values := values + [RenderExportCell(rows[i], columns[j], render)];
      }
      assert values == table[i + 1];
      file.WriteDelimitedRow(values, delimiter);
      TableAppend(table[..i + 1], values, delimiter);
      assert table[..i + 2] == table[..i + 1] + [values];
    }
    assert table[..|rows| + 1] == table;
  }

  // ---- Reading ----

  datatype State = FieldStart | Unquoted | Quoted | QuoteSeen

  /** What has been read: finished records, finished fields of the current record, and the current
      field. */
  datatype Reader = Reader(state: State, records: seq<seq<string>>, fields: seq<string>, field: string)

  const AT_START := Reader(FieldStart, [], [], "")

  function EndField(r: Reader): Reader {
    Reader(FieldStart, r.records, r.fields + [r.field], "")
  }

  function EndRecord(r: Reader): Reader {
    Reader(FieldStart, r.records + [r.fields + [r.field]], [], "")
  }

  /** One character. Quotes and carriage returns are refused outside quoted fields, and nothing but
      a delimiter or a record end may follow a closing quote. */
  function Feed(r: Reader, c: char, delimiter: char): Option<Reader> {
    match r.state
    case Quoted =>
      if c == QUOTE then Some(r.(state := QuoteSeen)) else Some(r.(field := r.field + [c]))
    case QuoteSeen =>
      if c == QUOTE then Some(r.(state := Quoted, field := r.field + [QUOTE]))
      else if c == delimiter then Some(EndField(r))
      else if c == '\n' then Some(EndRecord(r))
      else None
    case _ =>
      if c == QUOTE then (if r.state.FieldStart? then Some(r.(state := Quoted)) else None)
      else if c == delimiter then Some(EndField(r))
      else if c == '\n' then Some(EndRecord(r))
      else if c == '\r' then None
      else Some(r.(state := Unquoted, field := r.field + [c]))
  }

  function Read(r: Reader, text: string, delimiter: char): Option<Reader>
    decreases |text|
  {
    if text == "" then Some(r)
    else
      match Feed(r, text[0], delimiter)
      case None => None
      case Some(next) => Read(next, text[1..], delimiter)
  }

  /** A whole file: every record is ended. */
  function ReadTable(text: string, delimiter: char): Option<seq<seq<string>>> {
    match Read(AT_START, text, delimiter)
    case None => None
    case Some(r) => if r.state.FieldStart? && r.fields == [] && r.field == "" then Some(r.records) else None
  }

  lemma {:induction false} ReadConcat(r: Reader, a: string, b: string, delimiter: char)
    ensures Read(r, a + b, delimiter)
         == match Read(r, a, delimiter) case None => None case Some(next) => Read(next, b, delimiter)
    decreases |a|
  {
    if a == "" {
      assert a + b == b;
    } else {
      assert (a + b)[1..] == a[1..] + b;
      if Feed(r, a[0], delimiter).Some? {
        ReadConcat(Feed(r, a[0], delimiter).value, a[1..], b, delimiter);
      }
    }
  }

  lemma {:induction false} ReadQuotedBody(r: Reader, value: string, delimiter: char)
    requires IsDelimiter(delimiter) && r.state.Quoted?
    ensures Read(r, DoubleQuotes(value), delimiter) == Some(r.(field := r.field + value))
    decreases |value|
  {
    var text := DoubleQuotes(value);
    if value == "" {
      assert r.field + value == r.field;
    } else {
      var next := r.(field := r.field + [value[0]]);
      assert next.field + value[1..] == r.field + value;
      ReadQuotedBody(next, value[1..], delimiter);
      if value[0] == QUOTE {
        assert text[1..][1..] == DoubleQuotes(value[1..]);
        assert Feed(r, QUOTE, delimiter) == Some(r.(state := QuoteSeen));
        assert Feed(r.(state := QuoteSeen), QUOTE, delimiter) == Some(next);
        assert Read(r.(state := QuoteSeen), text[1..], delimiter) == Read(next, text[1..][1..], delimiter);
      } else {
        assert text[1..] == DoubleQuotes(value[1..]);
      }
    }
  }

  lemma {:induction false} PlainFieldIsItself(value: string, delimiter: char)
    requires !NeedsQuotes(DoubleQuotes(value), delimiter)
    ensures DoubleQuotes(value) == value
  {
    if value != "" {
      var rest := DoubleQuotes(value[1..]);
      assert DoubleQuotes(value) == (if value[0] == QUOTE then [QUOTE, QUOTE] else [value[0]]) + rest;
      assert forall c :: c in rest ==> c in DoubleQuotes(value);
      assert DoubleQuotes(value)[0] == value[0];
      PlainFieldIsItself(value[1..], delimiter);
    }
  }

  lemma {:induction false} ReadPlain(r: Reader, value: string, delimiter: char)
    requires !NeedsQuotes(value, delimiter) && (r.state.FieldStart? || r.state.Unquoted?)
    ensures Read(r, value, delimiter)
         == Some(r.(state := if value == "" then r.state else Unquoted, field := r.field + value))
    decreases |value|
  {
    if value == "" {
      assert r.field + value == r.field;
    } else {
      assert value[0] in value && forall c :: c in value[1..] ==> c in value;
      var next := r.(state := Unquoted, field := r.field + [value[0]]);
      assert next.field + value[1..] == r.field + value;
      ReadPlain(next, value[1..], delimiter);
    }
  }

  /** Reading a printed field from its start, up to its end. */
  lemma ReadField(r: Reader, value: string, delimiter: char) returns (next: Reader)
    requires IsDelimiter(delimiter) && r.state.FieldStart? && r.field == ""
    ensures Read(r, FieldText(value, delimiter), delimiter) == Some(next)
    ensures !next.state.Quoted? && next == r.(state := next.state, field := value)
  {
    hide Read;
    var escaped := DoubleQuotes(value);
    assert "" + value == value;
    if NeedsQuotes(escaped, delimiter) {
      var open := r.(state := Quoted);
      next := r.(state := QuoteSeen, field := value);
      ReadOne(r, QUOTE, delimiter);
      ReadQuotedBody(open, value, delimiter);
      ReadOne(open.(field := value), QUOTE, delimiter);
      ReadConcat(r, [QUOTE], escaped, delimiter);
      ReadConcat(r, [QUOTE] + escaped, [QUOTE], delimiter);
    } else {
      PlainFieldIsItself(value, delimiter);
      ReadPlain(r, value, delimiter);
      next := r.(state := if value == "" then r.state else Unquoted, field := value);
    }
  }

  lemma ReadOne(r: Reader, c: char, delimiter: char)
    ensures Read(r, [c], delimiter) == Feed(r, c, delimiter)
  {
  }

  lemma {:induction false} ReadRecord(r: Reader, values: seq<string>, delimiter: char)
    requires IsDelimiter(delimiter) && values != [] && r.state.FieldStart? && r.field == ""
    ensures Read(r, RecordText(values, delimiter), delimiter)
         == Some(Reader(FieldStart, r.records + [r.fields + values], [], ""))
    decreases |values|
  {
    hide Read, FieldText;
    var field := FieldText(values[0], delimiter);
    var next := ReadField(r, values[0], delimiter);
    if |values| == 1 {
      assert r.fields + values == r.fields + [values[0]];
      ReadOne(next, '\n', delimiter);
      ReadConcat(r, field, "\n", delimiter);
    } else {
      var rest := RecordText(values[1..], delimiter);
      var after := EndField(next);
      assert after.fields + values[1..] == r.fields + values;
      ReadOne(next, delimiter, delimiter);
      ReadConcat(r, field, [delimiter], delimiter);
      ReadConcat(r, field + [delimiter], rest, delimiter);
      assert field + [delimiter] + rest == field + ([delimiter] + rest);
      ReadRecord(after, values[1..], delimiter);
    }
  }

  lemma TableFirst(records: seq<seq<string>>, delimiter: char)
    requires records != []
    ensures TableText(records, delimiter) == RecordText(records[0], delimiter) + TableText(records[1..], delimiter)
  {
  }

  lemma {:induction false} ReadTableText(r: Reader, records: seq<seq<string>>, delimiter: char)
    requires IsDelimiter(delimiter) && r.state.FieldStart? && r.field == "" && r.fields == []
    requires forall i :: 0 <= i < |records| ==> records[i] != []
    ensures Read(r, TableText(records, delimiter), delimiter) == Some(r.(records := r.records + records))
    decreases |records|
  {
    if records == [] {
      assert r.records + records == r.records;
    } else {
      TableFirst(records, delimiter);
      hide RecordText, Read, TableText;
      var first := RecordText(records[0], delimiter);
      var next := Reader(FieldStart, r.records + [records[0]], [], "");
      ReadRecord(r, records[0], delimiter);
      assert [] + records[0] == records[0];
      assert next.records + records[1..] == r.records + records;
      ReadConcat(r, first, TableText(records[1..], delimiter), delimiter);
      ReadTableText(next, records[1..], delimiter);
    }
  }

  /** A record without fields is printed like one with a single empty field. */
  function AsPrinted(record: seq<string>): seq<string> {
    if record == [] then [""] else record
  }

  lemma {:induction false} EmptyRecordsPrintAsEmptyFields(records: seq<seq<string>>, delimiter: char)
    ensures TableText(records, delimiter)
        == TableText(seq(|records|, i requires 0 <= i < |records| => AsPrinted(records[i])), delimiter)
  {
    var printed := seq(|records|, i requires 0 <= i < |records| => AsPrinted(records[i]));
    if records != [] {
      EmptyRecordsPrintAsEmptyFields(records[1..], delimiter);
      assert printed[1..] == seq(|records[1..]|, i requires 0 <= i < |records[1..]| => AsPrinted(records[1..][i]));
      if records[0] == [] {
        assert FieldText("", delimiter) + "\n" == "\n";
      }
    }
  }

  /** Whatever the fields contain, the file reads back as the printed table, exactly if every record
      has a field; a record without any comes back with one empty field. */
  lemma TableRoundTrip(records: seq<seq<string>>, delimiter: char)
    requires IsDelimiter(delimiter)
    ensures ReadTable(TableText(records, delimiter), delimiter)
         == Some(seq(|records|, i requires 0 <= i < |records| => AsPrinted(records[i])))
    ensures ReadTable(TableText(records, delimiter), delimiter) == Some(records)
       <==> forall i :: 0 <= i < |records| ==> records[i] != []
  {
    hide TableText, Read;
    var printed := seq(|records|, i requires 0 <= i < |records| => AsPrinted(records[i]));
    EmptyRecordsPrintAsEmptyFields(records, delimiter);
    ReadTableText(AT_START, printed, delimiter);
    assert [] + printed == printed;
    if forall i :: 0 <= i < |records| ==> records[i] != [] {
      assert printed == records;
    } else {
      var i :| 0 <= i < |records| && records[i] == [];
      assert printed[i] != records[i];
    }
  }

  /** An exported file with at least one column reads back as its header and its rendered rows, and
      one without columns never does. */
  lemma ExportRoundTrip<V>(columns: seq<string>, rows: seq<map<string, V>>, render: V -> string, delimiter: char)
    requires IsDelimiter(delimiter)
    ensures var table := ExportedTable(columns, rows, render);
            ReadTable(TableText(table, delimiter), delimiter) == Some(table) <==> columns != []
  {
    var table := ExportedTable(columns, rows, render);
    TableRoundTrip(table, delimiter);
    if columns != [] {
      forall i | 0 <= i < |table|
        ensures table[i] != []
      {
        assert i > 0 ==> table[i] == RenderedRow(rows[i - 1], columns, render);
      }
    }
  }

  function RowMaps<V>(table: seq<seq<V>>, columns: seq<string>): (r: seq<map<string, V>>)
    requires forall i :: 0 <= i < |table| ==> |table[i]| == |columns|
    ensures |r| == |table| && forall i :: 0 <= i < |table| ==> r[i] == RowMap(table[i], columns)
  {
    seq(|table|, i requires 0 <= i < |table| => RowMap(table[i], columns))
  }

  /** From the database to the reader of the file: whatever the driver called the columns, repeated
      names included, record `i + 1` field `j` is the rendered value of row `i` column `j`. */
  lemma CellsReachTheFile<V>(names: seq<string>, columns: seq<string>, table: seq<seq<V>>, render: V -> string,
                             delimiter: char)
    requires IsDelimiter(delimiter) && Deduped(names, columns) && names != []
    requires forall i :: 0 <= i < |table| ==> |table[i]| == |columns|
    ensures var text := TableText(ExportedTable(columns, RowMaps(table, columns), render), delimiter);
            && ReadTable(text, delimiter).Some?
            && var records := ReadTable(text, delimiter).value;
               && |records| == |table| + 1 && records[0] == columns && Distinct(columns)
               && forall i, j :: 0 <= i < |table| && 0 <= j < |columns| ==>
                    |records[i + 1]| == |columns| && records[i + 1][j] == render(table[i][j])
  {
    hide TableText, ReadTable, RowMap, Deduped;
    var rows := RowMaps(table, columns);
    DedupedNames(names, columns);
    SameCount(names, columns);
    ExportRoundTrip(columns, rows, render, delimiter);
    forall i, j | 0 <= i < |table| && 0 <= j < |columns|
      ensures ExportedTable(columns, rows, render)[i + 1][j] == render(table[i][j])
    {
      RowMapAt(table[i], columns, j);
    }
  }

  /** The same from the driver's cells: a field is its rendered cell, or a rendered null where the cell
      is missing or NULL. */
  lemma DriverCellsReachTheFile<V>(names: seq<string>, columns: seq<string>, table: seq<seq<Option<string>>>,
                                   parse: string -> V, null_: V, render: V -> string, delimiter: char)
    requires IsDelimiter(delimiter) && Deduped(names, columns) && names != []
    ensures var rows := JsonRows(table, columns, parse, null_);
            var text := TableText(ExportedTable(columns, rows, render), delimiter);
            && ReadTable(text, delimiter).Some?
            && var records := ReadTable(text, delimiter).value;
               && |records| == |table| + 1 && records[0] == columns
               && forall i :: 0 <= i < |table| ==> IsRecordOf(records[i + 1], table[i], |columns|, parse, null_, render)
  {
    hide TableText, ReadTable, ExportedTable, RowMaps, JsonRows, ValueTable, CellValues, Deduped;
    SameCount(names, columns);
    var values := ValueTable(table, |columns|, parse, null_);
    ValuesAreCells(table, columns, parse, null_);
    CellsReachTheFile(names, columns, values, render, delimiter);
    var records := ReadTable(TableText(ExportedTable(columns, RowMaps(values, columns), render), delimiter),
                             delimiter).value;
    forall i | 0 <= i < |table|
      ensures IsRecordOf(records[i + 1], table[i], |columns|, parse, null_, render)
    {
      var first := values[i][0];
      assert |records[i + 1]| == |columns| && records[i + 1][0] == render(first);
      forall j | 0 <= j < |columns| ensures records[i + 1][j] == render(values[i][j]) {
        var value := values[i][j];
      }
      RecordOfValues(records[i + 1], table[i], |columns|, parse, null_, render);
    }
  }

  lemma RecordOfValues<V>(record: seq<string>, cells: seq<Option<string>>, n: nat, parse: string -> V, null_: V,
                          render: V -> string)
    requires |record| == n && forall j :: 0 <= j < n ==> record[j] == render(CellValues(cells, n, parse, null_)[j])
    ensures IsRecordOf(record, cells, n, parse, null_, render)
  {
  }

  /** One field for each of `n` columns: the rendered cell, or a rendered null. */
  ghost predicate IsRecordOf<V>(record: seq<string>, cells: seq<Option<string>>, n: nat, parse: string -> V,
                                      null_: V, render: V -> string) {
    && |record| == n
    && forall j :: 0 <= j < n ==>
         record[j] == render(if j < |cells| && cells[j].Some? then parse(cells[j].value) else null_)
  }

  function ValueTable<V>(table: seq<seq<Option<string>>>, n: nat, parse: string -> V, null_: V): (r: seq<seq<V>>)
    ensures |r| == |table| && forall i :: 0 <= i < |table| ==> r[i] == CellValues(table[i], n, parse, null_)
    ensures forall i :: 0 <= i < |table| ==> |r[i]| == n
  {
    seq(|table|, i requires 0 <= i < |table| => CellValues(table[i], n, parse, null_))
  }

  lemma ValuesAreCells<V>(table: seq<seq<Option<string>>>, columns: seq<string>, parse: string -> V, null_: V)
    ensures var values := ValueTable(table, |columns|, parse, null_);
            RowMaps(values, columns) == JsonRows(table, columns, parse, null_)
  {
    hide RowMap;
  }

  lemma SameCount(names: seq<string>, columns: seq<string>)
    requires Deduped(names, columns)
    ensures |columns| == |names|
  {
  }
}
