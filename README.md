# dbtmock generation engine, in Dafny

dbtmock unit-tests dbt models against BigQuery. A test names a model, mocks
some of the nodes it depends on with CSV files, and gives an expected-output
CSV file. The generation engine turns this into one SQL query. It resolves
the model's SQL from the compiled manifest and puts each mocked node's rows
in place of its table reference. It then compares the result with the
expected rows using `EXCEPT DISTINCT`. This project models that engine and
proves what it promises:

- `Rewriter`: the table-reference rewriter `Replace`. Pass 1 matches the
  full name followed by `\sas\s<alias>\s`, in any case, and keeps the alias.
  Pass 2 replaces each remaining literal occurrence, using the node's short
  name as the alias.
- `Encoder`: the mock encoder. `CSVToMap` turns records into row maps.
  `mockEntryToSql` renders one cell. `mockToSql` emits one `SELECT` per row,
  with the columns in sorted order, and joins the rows with `UNION ALL`.
- `Resolver`: the resolver `sql` / `sqlModel` / `sqlSource`, then
  `assertSQLCode` and `GenerateTestSQL`.
- `Types`: the manifest, test and replacement data, plus the error values.
- `Text`: `strings.Join`, Go's string order and sorting.
- `Wrappers`: `Option` and `Result`.

The repository has two copies of the engine: the library in
replacements.go and an older program in main.go. Both share the same
encoder, rewriter and assertion builder. Their resolvers differ in three
places:

- The older `sqlSource` resolves an unmocked source to the zero replacement
  instead of raising `<id> not mocked`.
- The older `sqlModel` has no check for empty compiled code.
- The older `GenerateTestSQL` turns a resolution error into an empty query
  with no error.

The resolver is therefore modelled once, with a `Variant` parameter
(`Library` or `Legacy`). Lemmas relate the two variants.

Each loop in the Go code is a Dafny `method` with a `while` loop. The method
is proved equal to a specification function: `Rows`, `Encoding`,
`Resolution`, `ModelResolution`, `DepsResolution`, `Substituted`, `Dedup`,
`Assertion` or `TestQuery`. The lemmas are stated over those functions.
Go's `(value, error)` results become `Result<_, Error>`. A Go error becomes
`Failure` with one of these error kinds:

- `NotMocked`
- `EmptyCompiledSql`
- `MockFileMissing`

The mock files are a map from path to the records the CSV reader would
deliver.

Go iterates the `node2sql` map in an unspecified order. The model fixes that
order: each dependency is visited in the order it first appears in
`depends_on.nodes`. The Go resolver has no cycle check. The model therefore
requires a `rank` on the ids being resolved: the resolved id is ranked, and
every ranked, unmocked node depends only on ranked ids of lower rank. Nodes
the resolution never visits need no rank, so a cycle among them is allowed
(`UnreachableCycleIsRanked`). `ResolutionRankFree` proves the result does
not depend on which rank is chosen.

### An alias at the end of the text

The pattern in pass 1 needs whitespace after the alias, so an alias that
ends the text is not matched. For the code ``SELECT * FROM `p`.`d`.`s1` AS x``,
pass 2 replaces the bare full name and adds the short name as an alias of
its own, giving `SELECT * FROM (<sql>) AS s1 AS x`.
`Rewriter.AliasAtEndIsDoubled` proves this outcome.

## Model

| member | source | states |
|---|---|---|
| Types.IsModel | replacements.go:58-60 | No contract of its own: an id is a model when it starts with `model` or `seed`. The dispatch on it is stated in `Resolver.Sql` and `Resolver.UnmockedSource`. |
| Types.FullName | replacements.go:109 | The three-part name starts and ends with a backtick. |
| Types.SplitFullNameRoundTrip | replacements.go:109 | The three-part name `` `db`.`schema`.`name` `` built for a node gives back its database, schema and name when none of them holds a backtick. |
| Types.Message | replacements.go:99 | The not-mocked error names the id. The empty-code error starts with `Node: <id> `. A missing file error names the path. |
| Rewriter.Replace | replacements.go:65-69 | The zero replacement returns the SQL unchanged. |
| Rewriter.ReplaceNoReference | replacements.go:65-78 | A text that mentions no backtick-quoted name is returned unchanged by both passes. |
| Rewriter.RewriteAliased | replacements.go:70-75 | No contract of its own: pass 1, the leftmost non-overlapping matches of the aliased pattern. Its properties are in `ReferenceReplaced`, `AliasedReferenceReplaced`, `OtherTablesKept` and the lemmas below. |
| Rewriter.ReplaceAll | replacements.go:76-77 | No contract of its own: pass 2, `strings.ReplaceAll`. Its properties are in the same lemmas. |
| Rewriter.ReferenceReplaced | replacements.go:70-77 | A full name with no alias clause at it becomes `(<ReplaceSql>) AS <TableShortName>`, whatever else the text holds. The text before it is kept and the text after it is rewritten on its own. It suffices that no aliased reference starts before the text after it, and that the name does not occur earlier. |
| Rewriter.AliasedReferenceReplaced | replacements.go:70-77 | A full name in any case, with an alias clause, becomes `(<ReplaceSql>) AS <alias> `, whatever else the text holds. The text before it is kept and the text after it is rewritten on its own. |
| Rewriter.OtherTablesKept | replacements.go:65-78 | A text that does not name the table at any position, in any case, is returned unchanged. References to every other table are kept. |
| Rewriter.BareReferenceGetsShortName | replacements.go:76-77 | The special case of `ReferenceReplaced` with no backtick before or after the reference: the full name becomes `(<ReplaceSql>) AS <TableShortName>` and the rest of the text is kept. |
| Rewriter.AliasedReferenceKeepsAlias | replacements.go:70-77 | The special case of `AliasedReferenceReplaced` with no backtick elsewhere: a full name in any case followed by whitespace, `as` in any case, whitespace, an alias made of `[A-z0-9_]` and whitespace becomes `(<ReplaceSql>) AS <alias> `. No second alias is added. |
| Rewriter.ReplaceWithoutPreviousAlias | dbtest_test.go:11-19 | The unit test: `` from `one`.`two`.`three` do something `` becomes `from (select * from x) AS new_table_name do something`. |
| Rewriter.ReplaceWithPreviousAlias | dbtest_test.go:21-29 | The unit test: `` from `one`.`two`.`three` AS ALIAS1 do something `` becomes `from (select * from x) AS ALIAS1 do something`. |
| Rewriter.AliasAtEndIsDoubled | replacements.go:70-77 | An alias at the very end of the text is not recognised, so the result carries two aliases: `(<sql>) AS s1 AS x`. |
| Encoder.RowMap | main.go:192-195 | A row has exactly the header's names as keys. |
| Encoder.RowMapLastWins | main.go:193-195 | A column holds the cell of its last occurrence in the header. |
| Encoder.RowMapDistinct | main.go:193-195 | With distinct header names, each column holds the cell at its own index. |
| Encoder.Rows | main.go:181-199 | The header record yields no row. Each later record yields one row, in file order. |
| Encoder.CsvToMap | main.go:176-200 | The loop's result is exactly `Rows(records)`. |
| Encoder.Literal | main.go:211-215 | Every literal starts with `n` (the bare `null`) or with a double quote. |
| Encoder.LiteralInjective | main.go:211-215 | Different cells give different literals, so an empty cell and a cell holding `null` stay apart. |
| Encoder.MockEntryToSql | main.go:210-222 | No contract of its own. Its properties are in `EntryShape`. |
| Encoder.EntryShape | main.go:210-222 | A cell is `CAST(`-wrapped exactly when its column type is nonempty. An untyped cell is its literal followed by ` AS <column>`. A typed cell is `CAST(`, its literal, then ` AS <type>) AS <column>`. Every cell ends in ` AS <column>`. |
| Encoder.UntypedColumnIsNotCast | main.go:216-220 | A column missing from the types map reads as the empty type, so it is rendered as `<literal> AS <column>`, with no `CAST`. |
| Encoder.SortedColumns | main.go:240-245 | The collected keys of a row end up in ascending order: exactly `SortedKeys(row.Keys)`. |
| Encoder.RowEntries | main.go:249-255 | The cells of a row in the given column order, one per column. |
| Encoder.Statements | main.go:237-258 | One statement per row, in row order: the i-th is `\n SELECT ` and the i-th row's cells in sorted column order. |
| Encoder.MockToSql | main.go:227-261 | The result is `Encoding(files, m)`. A missing file is `MockFileMissing(path)`. Otherwise the SQL is one `\n SELECT ` statement per row, joined by `\n UNION ALL \n`, and the columns are the first nonempty sorted key list. |
| Encoder.RowColumns | main.go:192-195 | Each row's key set is the header's set of names. |
| Encoder.FirstColumnsUniform | main.go:246-248 | Rows that share one column set report that set, sorted, as the columns. |
| Encoder.EncodedColumns | main.go:246-248 | A present file's columns are its header's names in ascending order (those of the first data row), or none when it has no data row. |
| Encoder.HeaderOnlyIsEmpty | main.go:259 | A file with no data row encodes to empty SQL and no columns. |
| Encoder.EveryRowIsSelected | main.go:237-259 | The mock's SQL contains the `SELECT` statement of every data row. |
| Encoder.SortedHeaderStatement | main.go:242-256 | With a sorted header, a row's statement is `\n SELECT ` followed by the record's cells in file order, joined by `, `. |
| Encoder.ThreeColumnRowSelected | main.go:237-259 | In a file with a sorted three-column header, the SQL contains `SELECT e1, e2, e3` for each data row. |
| Encoder.TestMockToSql | dbtest_test.go:31-41 | On the sample file without types, the SQL contains the three expected `SELECT` lines of quoted cells. |
| Encoder.TestMockToSqlWithTypes | dbtest_test.go:43-53 | With `column2` typed `INT64`, the SQL contains the three expected lines with `column2` cast and the other cells quoted. |
| Text.Join | main.go:256 | `strings.Join`: no parts give the empty text, and one part gives that part. |
| Text.JoinContains | main.go:259 | Every part of a `strings.Join` occurs in the joined text. |
| Text.InsertionSort | main.go:245 | `sort.Strings` on distinct keys: strictly ascending, with the same elements and the same length. |
| Text.SortedUnique | main.go:245 | A strictly sorted list is determined by its elements, so the sorted columns do not depend on the map's iteration order. |
| Resolver.Sql | replacements.go:153-160 | The result is `Resolution`. Ids starting with `model` or `seed` go to the model resolver and all others to the source resolver. |
| Resolver.SqlSource | replacements.go:85-100 | The result is `SourceResolution`. A mocked source becomes its mock under the relation name and name. A missing file is an error. An unmocked source is `NotMocked(id)` in the library, and the zero replacement with no error in the older program (main.go, lines 154-170). |
| Resolver.SqlModel | replacements.go:106-147 | The result is `ModelResolution`. A mocked model becomes its mock. Otherwise the dependencies resolve first, then empty code is rejected (library only), then `Replace` is applied once per resolved dependency. The older program (main.go, lines 109-148) has no empty-code check. |
| Resolver.ResolveDependencies | replacements.go:126-134 | The first loop: the result is `DepsResolution`, which resolves the dependencies in order and stops at the first error. |
| Resolver.ReplaceAllDependencies | replacements.go:140-143 | The second loop: the code with `Replace` applied once per distinct dependency, in order of first appearance. |
| Resolver.DedupOrder | replacements.go:133 | The keys of `node2sql` in insertion order: each dependency once, no others. |
| Resolver.Dedup | replacements.go:133 | Distinct, with the same elements as the dependency list. |
| Resolver.DedupKeepsDistinct | replacements.go:133 | A dependency list without repeats is visited as listed. |
| Resolver.DepsResolution | replacements.go:127-134 | A successful loop fills `node2sql` with exactly the dependency ids. |
| Resolver.ExceptQuery | replacements.go:172-173 | The query is `SELECT <cols> FROM( <sql> ) \n  EXCEPT DISTINCT \n SELECT <cols> FROM (<mock>)`, with the columns joined by `,`. The model's SQL can be read back from it verbatim. |
| Resolver.AssertSqlCode | replacements.go:166-174 | The result is `Assertion`: an error from encoding the expected mock is passed on; otherwise the result is the `EXCEPT DISTINCT` query. |
| Resolver.GenerateTestSql | replacements.go:180-191 | The result is `TestQuery`. In the library a resolution error is passed on, and in the older program (main.go, lines 336-347) it becomes an empty query with no error. Otherwise the assertion query is built. |
| Resolver.MockedIdShortCircuits | replacements.go:113-123 | A mocked model resolves to its mock under `` `db`.`schema`.`name` `` and its alias. A mocked source resolves under its relation name and name. No dependency is consulted. |
| Resolver.MockIgnoresManifest | replacements.go:88-97 | A mocked id resolves the same under any two manifests that agree on its own entry. |
| Resolver.UnmockedSource | replacements.go:99 | An unmocked source fails in the library with `NotMocked(id)`, whose text is `<id> not mocked`. In the older program it resolves to the zero replacement, which `Replace` ignores. |
| Resolver.FirstErrorWins | replacements.go:128-134 | The dependency loop fails with `e` exactly when some dependency fails with `e` after every earlier one succeeded. |
| Resolver.DepsFailurePersists | replacements.go:130-132 | Once a dependency fails, the loop's result is that failure. |
| Resolver.DepsSucceed | replacements.go:128-134 | If every dependency resolves, the loop succeeds. |
| Resolver.DepsAllSucceed | replacements.go:133 | After a successful loop, each dependency maps to its own resolution. |
| Resolver.ErrorOrder | replacements.go:126-139 | A failing dependency decides the result even when the compiled code is empty. With all dependencies resolved, empty code is an error exactly in the library. |
| Resolver.ResolvedModel | replacements.go:109-145 | A resolved unmocked model is named `` `db`.`schema`.`name` `` with its alias as short name. Its SQL is its code with `Replace` applied per distinct dependency, each dependency resolved on its own. In the library its code is nonempty. |
| Resolver.UnreachableCycleIsRanked | replacements.go:126-134 | A cycle between `model.a` and `model.b` leaves an independent `model.c` rankable. With nothing mocked, no rank holds `model.a`, whose resolution Go repeats without end. |
| Resolver.ResolutionRankFree | replacements.go:153-160 | Resolution does not depend on the rank used to justify termination. |
| Resolver.LegacyAgreesOnSuccess | main.go:109-170 | Wherever the library resolves an id, the older program resolves it to the same replacement. |
| Resolver.LegacyFailsOnlyOnMissingFiles | main.go:154-170 | The older resolver can fail only because a mock file is missing. |
| Resolver.ReachableSourcesAreMocked | replacements.go:85-160 | If a model resolves in the library, every source reachable from it through unmocked models is mocked. |
| Resolver.GeneratedQueryEmbedsModel | replacements.go:180-191 | For a resolved model with a present output file, the generated query succeeds and embeds exactly the model's resolved SQL. |
| Resolver.TestFailures | replacements.go:182-189 | A resolution error is passed on (library) or becomes an empty query (older program). A missing expected-output file is `MockFileMissing` in both. |

## Left out

- JSON parsing of the manifest and the tests is not modelled: `parseManifest`, `parseTest` and `parseFolder` (main.go), and parse.go. These are file reading plus `encoding/json`. The engine takes the parsed `Manifest` and `Test` values. Both `parseFolder` versions return an empty list whatever the folder holds; that is not modelled either.
- Opening files and CSV syntax are not modelled. A file system is a map from path to the records `encoding/csv` would deliver. Records are rectangular, since the reader rejects any other file. A path missing from the map is the `open` error, `MockFileMissing`. `log.Fatal` on a malformed CSV is not modelled.
- The library package's own `mockToSql` is not part of this model. `Resolver` uses main.go's encoder, which has the same signature and behaviour as far as the library's callers and tests show.
- Rewriter.Replace: pass 1 is a literal, ASCII case-insensitive match of the full name, so a weaker model of Go's regular expression. The name is not escaped in the Go code, so `.` there matches any character; that is not modelled. A name that does not compile makes Go panic; also not modelled. `$` in `ReplaceSql` is expanded by `ReplaceAllString`: not modelled, the SQL is inserted verbatim. Non-ASCII case folding under `(?i)` is not modelled.
- Rewriter.AliasedReferenceKeepsAlias: requires that the inserted SQL, the alias and the text around the reference hold no backtick. Otherwise pass 2 could find the name again inside text pass 1 produced. `AliasedReferenceReplaced` covers texts that name other tables.
- Rewriter.BareReferenceGetsShortName: covers only a text with no other backtick. `ReferenceReplaced` covers a reference among other references.
- Rewriter.AliasedReferenceReplaced: requires that the full name holds no space and does not occur in the text pass 1 writes before the rest. Otherwise pass 2 could find the name inside the inserted SQL or the alias.
- Rewriter.ReferenceReplaced and Rewriter.AliasedReferenceReplaced: only the leftmost reference is rewritten explicitly; the rest of the text is `Replace` of the rest, to which the lemmas apply again.
- Resolver.ReplaceAllDependencies: Go visits `node2sql` in an unspecified order. The model fixes first-appearance order, so results that depend on another order are not covered.
- Resolver.Resolution: a dependency cycle among unmocked models that the resolved id reaches makes the Go code recurse until the stack runs out. The model requires a rank on the ids it resolves, so it says nothing about such an id. A cycle that is reached only after an earlier dependency has already failed is excluded too, although Go would stop at that failure.
- The two-way `QueryMinusExpected` / `ExpectedMinusQuery` queries used by the BigQuery runner are not modelled. No builder for them is among the engine's files.
- bq.go, cmd/dbtmock, cmd/dbtest and cmd/other are not modelled: the BigQuery client, emulator, command line and saving of SQL files.
- `main()`, printing and logging are not modelled.
- Encoder.TestMockToSql and Encoder.TestMockToSqlWithTypes: sample.csv is not among the repository's files here. Its records are taken as the header `column1,column2,column3` and the three rows the tests' expected strings imply. The expected lines are stated as their cells joined by `", "` after `SELECT `, rather than as one string literal.
