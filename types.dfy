/**
  The data model of the generation engine: the compiled manifest (nodes and
  sources), test descriptions with their mocks, and the transient values the
  engine produces (replacements, encoded mocks, errors).
 */
module Types {

  import opened Wrappers

  /** A compiled node (model or seed) of the manifest. `dependsOn` is the
      manifest's `depends_on.nodes` list; the other keys of `depends_on` are
      never read by the engine. */
  datatype Node = Node(
    compiledCode: string,
    dependsOn: seq<string>,
    alias: string,
    database: string,
    schema: string,
    name: string)

  /** A source leaf of the manifest; `unique_id` and `fqn` are not read by the engine. */
  datatype Source = Source(name: string, relationName: string)

  datatype Manifest = Manifest(nodes: map<string, Node>, sources: map<string, Source>)

  /** A CSV file and the SQL types of some of its columns. */
  datatype Mock = Mock(filepath: string, types: map<string, string>)

  datatype Test = Test(name: string, model: string, mocks: map<string, Mock>, output: Mock)

  /** One resolved node: the reference to look for and what to put in its place. */
  datatype Replacement = Replacement(tableFullName: string, replaceSql: string, tableShortName: string)

  /** Go's zero value `Replacement{}`. */
  const ZeroReplacement := Replacement("", "", "")

  /** A mock as SQL: the union of literal rows, and the columns in the order it projects them. */
  datatype SqlMock = SqlMock(sql: string, columns: seq<string>)

  /** CSV records as `encoding/csv` delivers them: every record has as many
      fields as the first one (the reader rejects any other file). */
  ghost predicate Rectangular(records: seq<seq<string>>)
  {
    forall k :: 0 <= k < |records| ==> |records[k]| == |records[0]|
  }

  type Records = records: seq<seq<string>> | Rectangular(records)

  /** The mock files the engine can open, by path, already split into records. */
  type FileSystem = map<string, Records>

  datatype Error =
    | NotMocked(id: string)
    | EmptyCompiledSql(id: string)
    | MockFileMissing(path: string)

  /** The error text, which names the offending id or path. */
  function Message(e: Error): (r: string)
    ensures e.NotMocked? ==> e.id <= r
    ensures e.EmptyCompiledSql? ==> "Node: " + e.id + " " <= r
    ensures e.MockFileMissing? ==> "open " + e.path + ": " <= r
  {
    match e
    case NotMocked(id) => id + " not mocked"
    case EmptyCompiledSql(id) =>
      "Node: " + id + " " + "has empty CompiledSql. Please make sure your manifest file is compiled by running `dbt compile`"
    case MockFileMissing(path) => "open " + path + ": no such file or directory"
  }

  /** The three-part, backtick-quoted name a node is referenced by. */
  function FullName(database: string, schema: string, name: string): (r: string)
    ensures QuotedName(r)
  {
    "`" + database + "`.`" + schema + "`.`" + name + "`"
  }

  /** Position of the first backtick of `s`, or `|s|` when there is none. */
  function TickIndex(s: string): (i: nat)
    ensures i <= |s|
    ensures i < |s| ==> s[i] == '`'
    ensures '`' !in s[..i]
  {
    if |s| == 0 then 0
    else if s[0] == '`' then 0
    else
      var i := 1 + TickIndex(s[1..]);
      assert s[..i] == [s[0]] + s[1..][..i - 1];
      i
  }

  /** Splits `s` at its first backtick, which must open the separator `` `.` ``. */
  function SplitAtSeparator(s: string): Option<(string, string)>
  {
    var i := TickIndex(s);
    if i + 3 <= |s| && s[i..i + 3] == "`.`" then Some((s[..i], s[i + 3..])) else None
  }

  /** Reads the database, schema and name back out of a three-part name. */
  function SplitFullName(r: string): Option<(string, string, string)>
  {
    if !QuotedName(r) then None
    else
      match SplitAtSeparator(r[1..|r| - 1])
      case None => None
      case Some((database, rest)) =>
        match SplitAtSeparator(rest)
        case None => None
        case Some((schema, name)) => Some((database, schema, name))
  }

  lemma {:induction false} TickIndexAfter(a: string, b: string)
    requires '`' !in a && |b| > 0 && b[0] == '`'
    ensures TickIndex(a + b) == |a|
  {
    if |a| == 0 {
      assert a + b == b;
    } else {
      assert a[0] in a;
      assert (a + b)[0] == a[0];
      assert '`' !in a[1..] by {
        forall c | c in a[1..] ensures c in a { }
      }
      assert (a + b)[1..] == a[1..] + b;
      TickIndexAfter(a[1..], b);
    }
  }

  lemma SplitAtSeparatorOf(a: string, b: string)
    requires '`' !in a
    ensures SplitAtSeparator(a + "`.`" + b) == Some((a, b))
  {
    var s := a + "`.`" + b;
    assert s == a + ("`.`" + b);
    TickIndexAfter(a, "`.`" + b);
    assert s[..|a|] == a && s[|a|..|a| + 3] == "`.`" && s[|a| + 3..] == b;
  }

  /** Parts free of backticks are recovered exactly from their three-part name. */
  lemma SplitFullNameRoundTrip(database: string, schema: string, name: string)
    requires '`' !in database && '`' !in schema && '`' !in name
    ensures SplitFullName(FullName(database, schema, name)) == Some((database, schema, name))
  {
    var r := FullName(database, schema, name);
    var rest := schema + "`.`" + name;
    assert r[1..|r| - 1] == database + "`.`" + rest;
    SplitAtSeparatorOf(database, rest);
    SplitAtSeparatorOf(schema, name);
  }

  /** A name that starts and ends with a backtick, as every three-part name does. */
  predicate QuotedName(name: string)
  {
    |name| >= 2 && name[0] == '`' && name[|name| - 1] == '`'
  }

  /** A model, seed or any other `model…`/`seed…` id; every other id is a source. */
  predicate IsModel(id: string)
  {
    "model" <= id || "seed" <= id
  }
}
