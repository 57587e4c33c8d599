/**
  The mock encoder: CSV records become row maps (`CSVToMap`), each cell a SQL
  literal (`mockEntryToSql`), each row one `SELECT`, and the rows their
  `UNION ALL` (`mockToSql`).

  File opening and CSV splitting are not modelled: a mock file is given by the
  records the CSV reader would deliver for it.
 */
module Encoder {

  import opened Wrappers
  import opened Types
  import opened Text

  /** One data row: column name to cell text. */
  type Row = map<string, string>

  // ----- Records to rows -----

  /** The map `header[i] -> record[i]` for every `i`, filled left to right, so
      a repeated column name keeps its last cell. */
  function RowMap(header: seq<string>, record: seq<string>): (r: Row)
    requires |header| <= |record|
    ensures forall c :: c in r <==> c in header
  {
    if |header| == 0 then map[]
    else
      var n := |header|;
      var r := RowMap(header[..n - 1], record[..n - 1])[header[n - 1] := record[n - 1]];
      assert forall c :: c in header <==> c in header[..n - 1] || c == header[n - 1] by {
        assert header == header[..n - 1] + [header[n - 1]];
      }
      r
  }

  /** Each column holds the cell of its last occurrence in the header. */
  lemma {:induction false} RowMapLastWins(header: seq<string>, record: seq<string>, i: nat)
    requires |header| <= |record| && i < |header| && LastOccurrence(header, i)
    ensures RowMap(header, record)[header[i]] == record[i]
  {
    var n := |header|;
    if i < n - 1 {
      assert header[i] != header[n - 1];
      assert header[..n - 1][i] == header[i] && record[..n - 1][i] == record[i];
      assert LastOccurrence(header[..n - 1], i);
      RowMapLastWins(header[..n - 1], record[..n - 1], i);
    }
  }

  /** With distinct column names, every column holds its own cell. */
  lemma RowMapDistinct(header: seq<string>, record: seq<string>, i: nat)
    requires |header| <= |record| && i < |header| && Distinct(header)
    ensures RowMap(header, record)[header[i]] == record[i]
  {
    RowMapLastWins(header, record, i);
  }

  /** No later column has the same name as column `i`. */
  predicate LastOccurrence(header: seq<string>, i: nat)
    requires i < |header|
  {
    forall j :: i < j < |header| ==> header[j] != header[i]
  }

  /** The rows of a file: the first record is the header and is not a row;
      every later record is one row, in file order. */
  function Rows(records: seq<seq<string>>): (rows: seq<Row>)
    requires Rectangular(records)
    ensures |rows| == if |records| == 0 then 0 else |records| - 1
    ensures forall i :: 0 <= i < |rows| ==> rows[i] == RowMap(records[0], records[i + 1])
  {
    if |records| <= 1 then []
    else
      var n := |records|;
      var init := records[..n - 1];
      assert Rectangular(init);
      Rows(init) + [RowMap(records[0], records[n - 1])]
  }

  /** `CSVToMap`, on the records the CSV reader delivers. */
  method CsvToMap(records: Records) returns (rows: seq<Row>)
    ensures rows == Rows(records)
  {
    rows := [];
    var header: Option<seq<string>> := None;
    var i := 0;
    while i < |records|
      invariant 0 <= i <= |records|
      invariant header == if i == 0 then None else Some(records[0])
      invariant Rectangular(records[..i]) && rows == Rows(records[..i])
    {
      var record := records[i];
      if header.None? {
        header := Some(record);
      } else {
        var keys := header.value;
        var dict: Row := map[];
        var j := 0;
        while j < |keys|
          invariant 0 <= j <= |keys| == |record|
          invariant dict == RowMap(keys[..j], record[..j])
        {
          assert keys[..j + 1][..j] == keys[..j] && record[..j + 1][..j] == record[..j];
          dict := dict[keys[j] := record[j]];
          j := j + 1;
        }
        assert keys[..j] == keys && record[..j] == record;
        CsvStep(records, i);
        rows := rows + [dict];
      }
      assert records[..i + 1][..i] == records[..i];
      i := i + 1;
    }
    assert records[..i] == records;
  }

  /** Reading record `i` (not the header) appends its row. */
  lemma CsvStep(records: Records, i: nat)
    requires 0 < i < |records|
    ensures Rectangular(records[..i]) && Rectangular(records[..i + 1])
    ensures Rows(records[..i + 1]) == Rows(records[..i]) + [RowMap(records[0], records[i])]
  {
    var p := records[..i + 1];
    assert p[..i] == records[..i];
    assert p[0] == records[0] && p[i] == records[i];
  }

  // ----- One cell -----

  /** The SQL literal of a cell: the empty cell is `null`, any other is double-quoted. */
  function Literal(value: string): (r: string)
    ensures |r| > 0 && (r[0] == 'n' || r[0] == '"')
  {
    if value == "" then "null" else "\"" + value + "\""
  }

  /** Distinct cells give distinct literals; in particular a cell holding the
      text `null` is not confused with an empty cell. */
  lemma LiteralInjective(a: string, b: string)
    requires Literal(a) == Literal(b)
    ensures a == b
  {
    assert "null"[0] == 'n';
    if a != "" && b != "" {
      var la, lb := Literal(a), Literal(b);
      assert a == la[1..|la| - 1] && b == lb[1..|lb| - 1];
    }
  }

  /** `mockEntryToSql`: one projected cell, cast when the column has a type. */
  function MockEntryToSql(columnName: string, value: string, columnType: string): string
  {
    if columnType != "" then "CAST(" + Literal(value) + " AS " + columnType + ")" + " AS " + columnName
    else Literal(value) + " AS " + columnName
  }

  /** A cell is cast exactly when its column has a type; the literal comes
      first (right after `CAST(` when cast), a cast names the column's type,
      and the cell is always named after its column. */
  lemma EntryShape(columnName: string, value: string, columnType: string)
    ensures var r := MockEntryToSql(columnName, value, columnType);
            && (columnType != "" <==> "CAST(" <= r)
            && (columnType == "" ==> Literal(value) <= r && r[|Literal(value)|..] == " AS " + columnName)
            && (columnType != "" ==> Literal(value) <= r[5..])
            && (columnType != "" ==> r[5 + |Literal(value)|..] == " AS " + columnType + ") AS " + columnName)
            && |r| >= 4 + |columnName| && r[|r| - |columnName| - 4..] == " AS " + columnName
  {
    var r := MockEntryToSql(columnName, value, columnType);
    var v := Literal(value);
    var named := " AS " + columnName;
    if columnType != "" {
      var cast := "CAST(" + v + " AS " + columnType + ")";
      var tail := " AS " + columnType + ")" + named;
      assert r == cast + named;
      assert r == "CAST(" + (v + tail);
      assert r[..5] == "CAST(";
      assert r[5..][..|v|] == v;
      assert r[5 + |v|..] == tail;
      assert tail == " AS " + columnType + ") AS " + columnName by {
        assert ")" + " AS " == ") AS ";
        Assoc(" AS " + columnType, ")", " AS ");
      }
      assert r[|cast|..] == named;
    } else {
      assert r == v + named;
      assert r[0] == v[0] && "CAST("[0] == 'C';
      assert r[..|v|] == v;
      assert r[|v|..] == named;
    }
  }

  /** The type of a column; a column absent from the mock's types has the empty type. */
  function TypeOf(types: map<string, string>, column: string): string
  {
    if column in types then types[column] else ""
  }

  /** A column the mock gives no type is projected without a cast. */
  lemma UntypedColumnIsNotCast(types: map<string, string>, column: string, value: string)
    requires column !in types
    ensures !("CAST(" <= MockEntryToSql(column, value, TypeOf(types, column)))
    ensures MockEntryToSql(column, value, TypeOf(types, column)) == Literal(value) + " AS " + column
  {
    EntryShape(column, value, "");
  }

  // ----- One row, and the whole mock -----

  /** The projected cells of `columns`, in that order. */
  function Entries(row: Row, columns: seq<string>, types: map<string, string>): seq<string>
    requires forall c :: c in columns ==> c in row
  {
    seq(|columns|, i requires 0 <= i < |columns| => MockEntryToSql(columns[i], row[columns[i]], TypeOf(types, columns[i])))
  }

  /** The `SELECT` of one row: its cells in ascending column order. */
  ghost function Statement(row: Row, types: map<string, string>): string
  {
    "\n SELECT " + Join(Entries(row, SortedKeys(row.Keys), types), ", ")
  }

  ghost function Statements(rows: seq<Row>, types: map<string, string>): (r: seq<string>)
    ensures |r| == |rows|
    ensures forall i :: 0 <= i < |rows| ==> r[i] == Statement(rows[i], types)
  {
    if |rows| == 0 then [] else
      var n := |rows|;
      Statements(rows[..n - 1], types) + [Statement(rows[n - 1], types)]
  }

  /** The columns of the first row that has any. */
  ghost function FirstColumns(rows: seq<Row>): seq<string>
  {
    if |rows| == 0 then []
    else
      var prev := FirstColumns(rows[..|rows| - 1]);
      if |prev| == 0 then SortedKeys(rows[|rows| - 1].Keys) else prev
  }

  /** Encoding row `i` appends its statement and keeps the first nonempty column list. */
  lemma MockStep(rows: seq<Row>, i: nat, types: map<string, string>)
    requires i < |rows|
    ensures Statements(rows[..i + 1], types) == Statements(rows[..i], types) + [Statement(rows[i], types)]
    ensures FirstColumns(rows[..i + 1])
         == if |FirstColumns(rows[..i])| == 0 then SortedKeys(rows[i].Keys) else FirstColumns(rows[..i])
  {
    var p := rows[..i + 1];
    assert p[..i] == rows[..i];
    assert p[i] == rows[i];
  }

  /** What `mockToSql` returns for a mock, given the files it can open. */
  ghost function Encoding(files: FileSystem, m: Mock): Result<SqlMock, Error>
  {
    if m.filepath !in files then Failure(MockFileMissing(m.filepath))
    else
      var rows := Rows(files[m.filepath]);
      Success(SqlMock(Join(Statements(rows, m.types), "\n UNION ALL \n"), FirstColumns(rows)))
  }

  /** The keys of a row, in ascending order (Go ranges over the map, then sorts). */
  method SortedColumns(row: Row) returns (columns: seq<string>)
    ensures columns == SortedKeys(row.Keys)
  {
    var listed: seq<string> := [];
    var rest := row.Keys;
    while rest != {}
      invariant Distinct(listed)
      invariant forall c :: c in listed ==> c in row && c !in rest
      invariant forall c :: c in row ==> c in listed || c in rest
      invariant rest <= row.Keys
      decreases |rest|
    {
      var k :| k in rest;
      listed := listed + [k];
      rest := rest - {k};
    }
    columns := InsertionSort(listed);
    SortedKeysUnique(row.Keys, columns);
  }

  /** The cells of one row in the given column order. */
  method RowEntries(row: Row, columns: seq<string>, types: map<string, string>) returns (values: seq<string>)
    requires forall c :: c in columns ==> c in row
    ensures values == Entries(row, columns, types)
  {
    values := [];
    var j := 0;
    while j < |columns|
      invariant 0 <= j <= |columns| && |values| == j
      invariant forall k :: 0 <= k < j ==> values[k] == Entries(row, columns, types)[k]
    {
      var column := columns[j];
      var value := row[column];
      var columnType := TypeOf(types, column);
      var entry := MockEntryToSql(column, value, columnType);
      values := values + [entry];
      j := j + 1;
    }
  }

  /** `mockToSql`. */
  method MockToSql(files: FileSystem, m: Mock) returns (r: Result<SqlMock, Error>)
    ensures r == Encoding(files, m)
  {
    var allColumns: seq<string> := [];
    if m.filepath !in files {
      return Failure(MockFileMissing(m.filepath));
    }
    var data := CsvToMap(files[m.filepath]);
    var sqlStatements: seq<string> := [];
    var i := 0;
    while i < |data|
      invariant 0 <= i <= |data|
      invariant sqlStatements == Statements(data[..i], m.types)
      invariant allColumns == FirstColumns(data[..i])
    {
      MockStep(data, i, m.types);
      var row := data[i];
      var columns := SortedColumns(row);
      if |allColumns| == 0 {
        allColumns := columns;
      }
      var columnsValues := RowEntries(row, columns, m.types);
      var statement := "\n SELECT " + Join(columnsValues, ", ");
      sqlStatements := sqlStatements + [statement];
      i := i + 1;
    }
    assert data[..i] == data;
    r := Success(SqlMock(Join(sqlStatements, "\n UNION ALL \n"), allColumns));
  }

  // ----- What the encoding promises -----

  /** Every row of a file has exactly the header's names as columns. */
  lemma RowColumns(records: seq<seq<string>>, i: nat)
    requires Rectangular(records) && i < |Rows(records)|
    ensures Rows(records)[i].Keys == set c | c in records[0]
  {
  }

  /** Rows that share one column set report that set, sorted, as the columns. */
  lemma {:induction false} FirstColumnsUniform(rows: seq<Row>, columns: set<string>)
    requires forall i :: 0 <= i < |rows| ==> rows[i].Keys == columns
    ensures FirstColumns(rows) == if |rows| == 0 || columns == {} then [] else SortedKeys(columns)
  {
    if |rows| > 0 {
      var init := rows[..|rows| - 1];
      FirstColumnsUniform(init, columns);
      if columns == {} {
        assert |SortedKeys(rows[|rows| - 1].Keys)| == 0;
      }
    }
  }

  /** The columns of an encoded file are its header's names in ascending order,
      or none when the file has no data row. */
  lemma EncodedColumns(files: FileSystem, m: Mock)
    requires m.filepath in files
    ensures Encoding(files, m).Success?
    ensures Encoding(files, m).value.columns
         == if |files[m.filepath]| <= 1 then [] else SortedKeys(set c | c in files[m.filepath][0])
  {
    var records := files[m.filepath];
    var rows := Rows(records);
    if |records| <= 1 { return; }
    var header := set c | c in records[0];
    forall i | 0 <= i < |rows| ensures rows[i].Keys == header {
      RowColumns(records, i);
    }
    FirstColumnsUniform(rows, header);
    if |records| > 1 && header == {} {
      assert |SortedKeys(header)| == 0;
    }
  }

  /** A file with a header and no data row encodes to no SQL and no columns. */
  lemma HeaderOnlyIsEmpty(files: FileSystem, m: Mock)
    requires m.filepath in files && |files[m.filepath]| <= 1
    ensures Encoding(files, m) == Success(SqlMock("", []))
  {
  }

  /** The SQL of a mock holds the `SELECT` of every one of its data rows. */
  lemma EveryRowIsSelected(files: FileSystem, m: Mock, k: nat)
    requires m.filepath in files && k < |Rows(files[m.filepath])|
    ensures Encoding(files, m).Success?
    ensures Contains(Encoding(files, m).value.sql, Statement(Rows(files[m.filepath])[k], m.types))
  {
    var rows := Rows(files[m.filepath]);
    JoinContains(Statements(rows, m.types), "\n UNION ALL \n", k);
  }

  /** The projected cells of a record whose header is already in ascending order. */
  function RecordEntries(header: seq<string>, record: seq<string>, types: map<string, string>): (r: seq<string>)
    requires |header| == |record|
    ensures |r| == |header|
  {
    seq(|header|, i requires 0 <= i < |header| => MockEntryToSql(header[i], record[i], TypeOf(types, header[i])))
  }

  /** When the header is sorted, a row's `SELECT` lists the record's cells in file order. */
  lemma SortedHeaderStatement(header: seq<string>, record: seq<string>, types: map<string, string>)
    requires |header| == |record| && StrictlySorted(header)
    ensures Statement(RowMap(header, record), types) == "\n SELECT " + Join(RecordEntries(header, record, types), ", ")
  {
    var row := RowMap(header, record);
    SortedKeysUnique(row.Keys, header);
    assert Distinct(header);
    var entries := Entries(row, header, types);
    forall i | 0 <= i < |header| ensures entries[i] == RecordEntries(header, record, types)[i] {
      RowMapDistinct(header, record, i);
    }
    assert entries == RecordEntries(header, record, types);
  }

  /** A text holds whatever a part of it holds. */
  lemma ContainsWithin(hay: string, pre: string, needle: string, post: string)
    requires Contains(hay, pre + needle + post)
    ensures Contains(hay, needle)
  {
    var whole := pre + needle + post;
    var i :| 0 <= i <= |hay| - |whole| && OccursAt(hay, whole, i);
    assert |whole| == |pre| + |needle| + |post|;
    forall j | 0 <= j < |needle| ensures hay[i + |pre| + j] == needle[j] {
      assert hay[i..i + |whole|][|pre| + j] == whole[|pre| + j];
    }
    assert OccursAt(hay, needle, i + |pre|);
  }

  // ----- The two unit tests of `mockToSql`, on the records of sample.csv -----

  /** The records of sample.csv: three data rows under a sorted header. */
  predicate SampleRecords(records: seq<seq<string>>)
  {
    records == [["column1", "column2", "column3"],
                ["something", "1.0", "100"],
                ["something2", "2.0", "200"],
                ["something3", "3.0", "300"]]
  }

  lemma SampleHeaderSorted(header: seq<string>)
    requires header == ["column1", "column2", "column3"]
    ensures StrictlySorted(header)
  {
    assert Less(header[0], header[1]) && Less(header[1], header[2]);
    LessTransitive(header[0], header[1], header[2]);
  }

  /** Row `k` of a file with a sorted three-column header, as projected with
      the given cell renderings. */
  lemma ThreeColumnRowSelected(files: FileSystem, m: Mock, k: nat, e1: string, e2: string, e3: string)
    requires m.filepath in files && k + 1 < |files[m.filepath]|
    requires |files[m.filepath][0]| == 3 && StrictlySorted(files[m.filepath][0])
    requires RecordEntries(files[m.filepath][0], files[m.filepath][k + 1], m.types) == [e1, e2, e3]
    ensures Encoding(files, m).Success?
    ensures Contains(Encoding(files, m).value.sql, "SELECT " + (e1 + ", " + e2 + ", " + e3))
  {
    var records := files[m.filepath];
    var sql := Encoding(files, m).value.sql;
    var line := e1 + ", " + e2 + ", " + e3;
    var statement := Statement(Rows(records)[k], m.types);
    EveryRowIsSelected(files, m, k);
    assert statement == "\n SELECT " + line by {
      SortedHeaderStatement(records[0], records[k + 1], m.types);
      JoinThree(e1, e2, e3, ", ");
    }
    SelectPrefix(line);
    assert Contains(sql, "\n " + ("SELECT " + line) + "");
    ContainsWithin(sql, "\n ", "SELECT " + line, "");
  }

  lemma JoinThree(a: string, b: string, c: string, sep: string)
    ensures Join([a, b, c], sep) == a + sep + b + sep + c
  {
    assert [a, b, c][..2] == [a, b];
    assert [a, b][..1] == [a];
  }

  lemma SelectPrefix(x: string)
    ensures "\n SELECT " + x == "\n " + ("SELECT " + x) + ""
  {
    assert "\n " + "SELECT " == "\n SELECT ";
  }

  /** The rows of sample.csv, as projected with the given cell renderings. */
  lemma SampleRowSelected(files: FileSystem, m: Mock, k: nat, e1: string, e2: string, e3: string)
    requires m.filepath in files && SampleRecords(files[m.filepath]) && k < 3
    requires e1 == MockEntryToSql("column1", files[m.filepath][k + 1][0], TypeOf(m.types, "column1"))
    requires e2 == MockEntryToSql("column2", files[m.filepath][k + 1][1], TypeOf(m.types, "column2"))
    requires e3 == MockEntryToSql("column3", files[m.filepath][k + 1][2], TypeOf(m.types, "column3"))
    ensures Encoding(files, m).Success?
    ensures Contains(Encoding(files, m).value.sql, "SELECT " + (e1 + ", " + e2 + ", " + e3))
  {
    var records := files[m.filepath];
    SampleHeaderSorted(records[0]);
    ThreeColumnRowSelected(files, m, k, e1, e2, e3);
  }

  /** `TestMockToSql`: without types every cell is a quoted literal; each
      expected `SELECT` is written as its three cells joined by `", "`. */
  lemma TestMockToSql(files: FileSystem, m: Mock)
    requires m.filepath in files && SampleRecords(files[m.filepath]) && m.types == map[]
    ensures Encoding(files, m).Success?
    ensures Contains(Encoding(files, m).value.sql,
                     "SELECT " + ("\"something\" AS column1" + ", " + "\"1.0\" AS column2" + ", " + "\"100\" AS column3"))
    ensures Contains(Encoding(files, m).value.sql,
                     "SELECT " + ("\"something2\" AS column1" + ", " + "\"2.0\" AS column2" + ", " + "\"200\" AS column3"))
    ensures Contains(Encoding(files, m).value.sql,
                     "SELECT " + ("\"something3\" AS column1" + ", " + "\"3.0\" AS column2" + ", " + "\"300\" AS column3"))
  {
    SampleCells1();
    SampleRowSelected(files, m, 0, "\"something\" AS column1", "\"1.0\" AS column2", "\"100\" AS column3");
    SampleCells2();
    SampleRowSelected(files, m, 1, "\"something2\" AS column1", "\"2.0\" AS column2", "\"200\" AS column3");
    SampleCells3();
    SampleRowSelected(files, m, 2, "\"something3\" AS column1", "\"3.0\" AS column2", "\"300\" AS column3");
  }

  /** `TestMockToSqlWithTypes`: the typed column is cast, the others are not. */
  lemma TestMockToSqlWithTypes(files: FileSystem, m: Mock)
    requires m.filepath in files && SampleRecords(files[m.filepath]) && m.types == map["column2" := "INT64"]
    ensures Encoding(files, m).Success?
    ensures Contains(Encoding(files, m).value.sql,
                     "SELECT " + ("\"something\" AS column1" + ", " + "CAST(\"1.0\" AS INT64) AS column2" + ", " + "\"100\" AS column3"))
    ensures Contains(Encoding(files, m).value.sql,
                     "SELECT " + ("\"something2\" AS column1" + ", " + "CAST(\"2.0\" AS INT64) AS column2" + ", " + "\"200\" AS column3"))
    ensures Contains(Encoding(files, m).value.sql,
                     "SELECT " + ("\"something3\" AS column1" + ", " + "CAST(\"3.0\" AS INT64) AS column2" + ", " + "\"300\" AS column3"))
  {
    assert TypeOf(m.types, "column1") == "" && TypeOf(m.types, "column3") == "";
    assert TypeOf(m.types, "column2") == "INT64";
    SampleCastCells();
    SampleCells1();
    SampleRowSelected(files, m, 0, "\"something\" AS column1", "CAST(\"1.0\" AS INT64) AS column2", "\"100\" AS column3");
    SampleCells2();
    SampleRowSelected(files, m, 1, "\"something2\" AS column1", "CAST(\"2.0\" AS INT64) AS column2", "\"200\" AS column3");
    SampleCells3();
    SampleRowSelected(files, m, 2, "\"something3\" AS column1", "CAST(\"3.0\" AS INT64) AS column2", "\"300\" AS column3");
  }

  // The cells of sample.csv; literal texts are concatenated one step at a time.

  lemma SampleCells1()
    ensures MockEntryToSql("column1", "something", "") == "\"something\" AS column1"
    ensures MockEntryToSql("column2", "1.0", "") == "\"1.0\" AS column2"
    ensures MockEntryToSql("column3", "100", "") == "\"100\" AS column3"
  {
    assert "\"" + "something" == "\"something";
    assert "\"something" + "\"" == "\"something\"";
    assert "\"something\"" + " AS " == "\"something\" AS ";
    assert "\"something\" AS " + "column1" == "\"something\" AS column1";
    assert "\"" + "1.0" == "\"1.0";
    assert "\"1.0" + "\"" == "\"1.0\"";
    assert "\"1.0\"" + " AS " == "\"1.0\" AS ";
    assert "\"1.0\" AS " + "column2" == "\"1.0\" AS column2";
    assert "\"" + "100" == "\"100";
    assert "\"100" + "\"" == "\"100\"";
    assert "\"100\"" + " AS " == "\"100\" AS ";
    assert "\"100\" AS " + "column3" == "\"100\" AS column3";
  }

  lemma SampleCells2()
    ensures MockEntryToSql("column1", "something2", "") == "\"something2\" AS column1"
    ensures MockEntryToSql("column2", "2.0", "") == "\"2.0\" AS column2"
    ensures MockEntryToSql("column3", "200", "") == "\"200\" AS column3"
  {
    assert "\"" + "something2" == "\"something2";
    assert "\"something2" + "\"" == "\"something2\"";
    assert "\"something2\"" + " AS " == "\"something2\" AS ";
    assert "\"something2\" AS " + "column1" == "\"something2\" AS column1";
    assert "\"" + "2.0" == "\"2.0";
    assert "\"2.0" + "\"" == "\"2.0\"";
    assert "\"2.0\"" + " AS " == "\"2.0\" AS ";
    assert "\"2.0\" AS " + "column2" == "\"2.0\" AS column2";
    assert "\"" + "200" == "\"200";
    assert "\"200" + "\"" == "\"200\"";
    assert "\"200\"" + " AS " == "\"200\" AS ";
    assert "\"200\" AS " + "column3" == "\"200\" AS column3";
  }

  lemma SampleCells3()
    ensures MockEntryToSql("column1", "something3", "") == "\"something3\" AS column1"
    ensures MockEntryToSql("column2", "3.0", "") == "\"3.0\" AS column2"
    ensures MockEntryToSql("column3", "300", "") == "\"300\" AS column3"
  {
    assert "\"" + "something3" == "\"something3";
    assert "\"something3" + "\"" == "\"something3\"";
    assert "\"something3\"" + " AS " == "\"something3\" AS ";
    assert "\"something3\" AS " + "column1" == "\"something3\" AS column1";
    assert "\"" + "3.0" == "\"3.0";
    assert "\"3.0" + "\"" == "\"3.0\"";
    assert "\"3.0\"" + " AS " == "\"3.0\" AS ";
    assert "\"3.0\" AS " + "column2" == "\"3.0\" AS column2";
    assert "\"" + "300" == "\"300";
    assert "\"300" + "\"" == "\"300\"";
    assert "\"300\"" + " AS " == "\"300\" AS ";
    assert "\"300\" AS " + "column3" == "\"300\" AS column3";
  }

  lemma SampleCastCells()
    ensures MockEntryToSql("column2", "1.0", "INT64") == "CAST(\"1.0\" AS INT64) AS column2"
    ensures MockEntryToSql("column2", "2.0", "INT64") == "CAST(\"2.0\" AS INT64) AS column2"
    ensures MockEntryToSql("column2", "3.0", "INT64") == "CAST(\"3.0\" AS INT64) AS column2"
  {
    assert "\"" + "1.0" == "\"1.0";
    assert "\"1.0" + "\"" == "\"1.0\"";
    assert "CAST(" + "\"1.0\"" == "CAST(\"1.0\"";
    assert "CAST(\"1.0\"" + " AS " == "CAST(\"1.0\" AS ";
    assert "CAST(\"1.0\" AS " + "INT64" == "CAST(\"1.0\" AS INT64";
    assert "CAST(\"1.0\" AS INT64" + ")" == "CAST(\"1.0\" AS INT64)";
    assert "CAST(\"1.0\" AS INT64)" + " AS " == "CAST(\"1.0\" AS INT64) AS ";
    assert "CAST(\"1.0\" AS INT64) AS " + "column2" == "CAST(\"1.0\" AS INT64) AS column2";
    assert "\"" + "2.0" == "\"2.0";
    assert "\"2.0" + "\"" == "\"2.0\"";
    assert "CAST(" + "\"2.0\"" == "CAST(\"2.0\"";
    assert "CAST(\"2.0\"" + " AS " == "CAST(\"2.0\" AS ";
    assert "CAST(\"2.0\" AS " + "INT64" == "CAST(\"2.0\" AS INT64";
    assert "CAST(\"2.0\" AS INT64" + ")" == "CAST(\"2.0\" AS INT64)";
    assert "CAST(\"2.0\" AS INT64)" + " AS " == "CAST(\"2.0\" AS INT64) AS ";
    assert "CAST(\"2.0\" AS INT64) AS " + "column2" == "CAST(\"2.0\" AS INT64) AS column2";
    assert "\"" + "3.0" == "\"3.0";
    assert "\"3.0" + "\"" == "\"3.0\"";
    assert "CAST(" + "\"3.0\"" == "CAST(\"3.0\"";
    assert "CAST(\"3.0\"" + " AS " == "CAST(\"3.0\" AS ";
    assert "CAST(\"3.0\" AS " + "INT64" == "CAST(\"3.0\" AS INT64";
    assert "CAST(\"3.0\" AS INT64" + ")" == "CAST(\"3.0\" AS INT64)";
    assert "CAST(\"3.0\" AS INT64)" + " AS " == "CAST(\"3.0\" AS INT64) AS ";
    assert "CAST(\"3.0\" AS INT64) AS " + "column2" == "CAST(\"3.0\" AS INT64) AS column2";
  }
}
