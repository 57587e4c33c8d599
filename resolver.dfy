/**
  The dependency resolver and the test-query generator: `sql` dispatches an id
  to `sqlModel` or `sqlSource`; a mocked id is replaced by its mock, an
  unmocked model by its compiled SQL with every dependency substituted; the
  resolved SQL of the model under test is then compared against the expected
  mock with `EXCEPT DISTINCT`.

  Two variants of the engine exist: the library (replacements.go) and the
  older program (main.go). They differ only in error handling, so one model
  takes the variant as a parameter.
 */
module Resolver {

  import opened Wrappers
  import opened Types
  import opened Text
  import opened Rewriter
  import opened Encoder

  /** `Library` is replacements.go; `Legacy` is the older main.go. */
  datatype Variant = Library | Legacy

  /** Go's `manifest.Nodes[id]`: the zero node when the id is absent. */
  function NodeOf(m: Manifest, id: string): Node
  {
    if id in m.nodes then m.nodes[id] else Node("", [], "", "", "", "")
  }

  /** Go's `manifest.Sources[id]`: the zero source when the id is absent. */
  function SourceOf(m: Manifest, id: string): Source
  {
    if id in m.sources then m.sources[id] else Source("", "")
  }

  // ----- Termination -----

  /** The resolver has no cycle check; the model asks for a rank on the ids it
      resolves, under which every ranked, unmocked node depends only on ranked
      ids of lower rank. Ids outside the rank are never visited, so a cycle
      among nodes that the resolved id does not reach is allowed. */
  function RankOf(rank: map<string, nat>, id: string): nat
  {
    if id in rank then rank[id] else 0
  }

  ghost predicate Ranked(m: Manifest, mocks: map<string, Mock>, rank: map<string, nat>)
  {
    forall k, d :: k in rank && k !in mocks && d in NodeOf(m, k).dependsOn ==> d in rank && rank[d] < rank[k]
  }

  /** A cycle between two models that a third model does not reach leaves
      the third one rankable; with nothing mocked, no rank holds a model of
      the cycle, whose resolution Go would recurse on without end. */
  lemma UnreachableCycleIsRanked(m: Manifest, a: Node, b: Node, c: Node)
    requires a.dependsOn == ["model.b"] && b.dependsOn == ["model.a"] && c.dependsOn == []
    requires m.nodes == map["model.a" := a, "model.b" := b, "model.c" := c]
    ensures Ranked(m, map[], map["model.c" := 0])
    ensures forall rank :: "model.a" in rank ==> !Ranked(m, map[], rank)
  {
    assert NodeOf(m, "model.c").dependsOn == [];
    forall rank | "model.a" in rank ensures !Ranked(m, map[], rank) {
      assert "model.b" in NodeOf(m, "model.a").dependsOn && "model.a" in NodeOf(m, "model.b").dependsOn;
    }
  }

  /** The dependencies of a ranked, unmocked node are ranked below it. */
  lemma DepsRanked(m: Manifest, mocks: map<string, Mock>, rank: map<string, nat>, id: string)
    requires Ranked(m, mocks, rank) && id in rank && id !in mocks
    ensures forall d :: d in NodeOf(m, id).dependsOn ==> d in rank && RankOf(rank, d) < RankOf(rank, id)
  {
  }

  // ----- What the resolver computes -----

  /** A mocked id: its mock's SQL under the given names, or the encoder's error. */
  ghost function MockedReplacement(files: FileSystem, mock: Mock, fullName: string, shortName: string): Result<Replacement, Error>
  {
    match Encoding(files, mock)
    case Failure(e) => Failure(e)
    case Success(sm) => Success(Replacement(fullName, sm.sql, shortName))
  }

  /** `sqlSource`. */
  ghost function SourceResolution(v: Variant, files: FileSystem, m: Manifest, mocks: map<string, Mock>, id: string): Result<Replacement, Error>
  {
    var source := SourceOf(m, id);
    if id in mocks then MockedReplacement(files, mocks[id], source.relationName, source.name)
    else if v == Library then Failure(NotMocked(id))
    else Success(ZeroReplacement)
  }

  /** `sql`. */
  ghost function Resolution(v: Variant, files: FileSystem, m: Manifest, mocks: map<string, Mock>,
                            rank: map<string, nat>, id: string): Result<Replacement, Error>
    requires Ranked(m, mocks, rank) && id in rank
    decreases RankOf(rank, id), 2, 0
  {
    if IsModel(id) then ModelResolution(v, files, m, mocks, rank, id)
    else SourceResolution(v, files, m, mocks, id)
  }

  /** `sqlModel`. */
  ghost function ModelResolution(v: Variant, files: FileSystem, m: Manifest, mocks: map<string, Mock>,
                                 rank: map<string, nat>, id: string): Result<Replacement, Error>
    requires Ranked(m, mocks, rank) && id in rank
    decreases RankOf(rank, id), 1, 0
  {
    var node := NodeOf(m, id);
    var fullName := FullName(node.database, node.schema, node.name);
    if id in mocks then MockedReplacement(files, mocks[id], fullName, node.alias)
    else
      match DepsResolution(v, files, m, mocks, rank, id, node.dependsOn)
      case Failure(e) => Failure(e)
      case Success(node2sql) =>
        if v == Library && node.compiledCode == "" then Failure(EmptyCompiledSql(id))
        else Success(Replacement(fullName, Substituted(node.compiledCode, Dedup(node.dependsOn), node2sql), node.alias))
  }

  /** The first loop of `sqlModel`: resolves `deps` in order into `node2sql`,
      stopping at the first error. */
  ghost function DepsResolution(v: Variant, files: FileSystem, m: Manifest, mocks: map<string, Mock>,
                                rank: map<string, nat>, owner: string, deps: seq<string>): (r: Result<map<string, Replacement>, Error>)
    requires Ranked(m, mocks, rank)
    requires forall d :: d in deps ==> d in rank && RankOf(rank, d) < RankOf(rank, owner)
    ensures r.Success? ==> forall d :: d in r.value <==> d in deps
    decreases RankOf(rank, owner), 0, |deps|
  {
    if |deps| == 0 then Success(map[])
    else
      var n := |deps|;
      match DepsResolution(v, files, m, mocks, rank, owner, deps[..n - 1])
      case Failure(e) => Failure(e)
      case Success(node2sql) =>
        match Resolution(v, files, m, mocks, rank, deps[n - 1])
        case Failure(e) => Failure(e)
        case Success(r) =>
          assert deps == deps[..n - 1] + [deps[n - 1]];
          Success(node2sql[deps[n - 1] := r])
  }

  /** The ids of `deps` in order of first appearance: the order in which the
      model visits `node2sql` (Go leaves the map's order unspecified). */
  function Dedup(deps: seq<string>): (r: seq<string>)
    ensures Distinct(r)
    ensures forall d :: d in r <==> d in deps
  {
    if |deps| == 0 then []
    else
      var n := |deps|;
      var init := Dedup(deps[..n - 1]);
      assert forall d :: d in deps <==> d in deps[..n - 1] || d == deps[n - 1] by {
        assert deps == deps[..n - 1] + [deps[n - 1]];
      }
      if deps[n - 1] in init then init else init + [deps[n - 1]]
  }

  /** The second loop of `sqlModel`: `Replace` once per resolved dependency, in `order`. */
  function Substituted(code: string, order: seq<string>, node2sql: map<string, Replacement>): string
    requires forall d :: d in order ==> d in node2sql
  {
    if |order| == 0 then code
    else
      var n := |order|;
      Replace(Substituted(code, order[..n - 1], node2sql), node2sql[order[n - 1]])
  }

  // ----- The resolver itself -----

  /** `sql`. */
  method Sql(v: Variant, files: FileSystem, m: Manifest, mocks: map<string, Mock>,
             ghost rank: map<string, nat>, id: string) returns (r: Result<Replacement, Error>)
    requires Ranked(m, mocks, rank) && id in rank
    ensures r == Resolution(v, files, m, mocks, rank, id)
    decreases RankOf(rank, id), 2
  {
    if IsModel(id) {
      r := SqlModel(v, files, m, mocks, rank, id);
    } else {
      r := SqlSource(v, files, m, mocks, id);
    }
  }

  /** `sqlSource`. */
  method SqlSource(v: Variant, files: FileSystem, m: Manifest, mocks: map<string, Mock>, id: string)
    returns (r: Result<Replacement, Error>)
    ensures r == SourceResolution(v, files, m, mocks, id)
  {
    var source := SourceOf(m, id);
    if id in mocks {
      var mockSql := MockToSql(files, mocks[id]);
      if mockSql.Failure? {
        return Failure(mockSql.error);
      }
      return Success(Replacement(source.relationName, mockSql.value.sql, source.name));
    }
    if v == Library {
      return Failure(NotMocked(id));
    }
    return Success(ZeroReplacement);
  }

  /** `sqlModel`. */
  method SqlModel(v: Variant, files: FileSystem, m: Manifest, mocks: map<string, Mock>,
                  ghost rank: map<string, nat>, id: string) returns (r: Result<Replacement, Error>)
    requires Ranked(m, mocks, rank) && id in rank
    ensures r == ModelResolution(v, files, m, mocks, rank, id)
    decreases RankOf(rank, id), 1
  {
    var node := NodeOf(m, id);
    var fullname := FullName(node.database, node.schema, node.name);
    var shortname := node.alias;
    if id in mocks {
      var mockSql := MockToSql(files, mocks[id]);
      if mockSql.Failure? {
        return Failure(mockSql.error);
      }
      return Success(Replacement(fullname, mockSql.value.sql, shortname));
    }
    var dependencies := node.dependsOn;
    var resolved := ResolveDependencies(v, files, m, mocks, rank, id, dependencies);
    if resolved.Failure? {
      return Failure(resolved.error);
    }
    var node2sql := resolved.value;
    var sqlCode := node.compiledCode;
    if v == Library && sqlCode == "" {
      return Failure(EmptyCompiledSql(id));
    }
    sqlCode := ReplaceAllDependencies(sqlCode, dependencies, node2sql);
    return Success(Replacement(fullname, sqlCode, shortname));
  }

  /** The first loop of `sqlModel`: resolves every dependency in turn into
      `node2sql`; the first error ends the model's resolution. */
  method ResolveDependencies(v: Variant, files: FileSystem, m: Manifest, mocks: map<string, Mock>,
                             ghost rank: map<string, nat>, id: string, dependencies: seq<string>)
    returns (r: Result<map<string, Replacement>, Error>)
    requires Ranked(m, mocks, rank)
    requires forall d :: d in dependencies ==> d in rank && RankOf(rank, d) < RankOf(rank, id)
    ensures r == DepsResolution(v, files, m, mocks, rank, id, dependencies)
    decreases RankOf(rank, id), 0
  {
    var node2sql: map<string, Replacement> := map[];
    var i := 0;
    while i < |dependencies|
      invariant 0 <= i <= |dependencies|
      invariant DepsResolution(v, files, m, mocks, rank, id, dependencies[..i]) == Success(node2sql)
    {
      var otherNodeKey := dependencies[i];
      assert dependencies[..i + 1][..i] == dependencies[..i];
      var dep := Sql(v, files, m, mocks, rank, otherNodeKey);
      if dep.Failure? {
        DepsFailurePersists(v, files, m, mocks, rank, id, dependencies, i + 1, dep.error);
        return Failure(dep.error);
      }
      node2sql := node2sql[otherNodeKey := dep.value];
      i := i + 1;
    }
    assert dependencies[..i] == dependencies;
    return Success(node2sql);
  }

  /** The second loop of `sqlModel`: one `Replace` per key of `node2sql`.
      Go visits the map in an unspecified order; here the keys are visited
      in the order they were first inserted. */
  method ReplaceAllDependencies(code: string, dependencies: seq<string>, node2sql: map<string, Replacement>)
    returns (sqlCode: string)
    requires forall d :: d in dependencies ==> d in node2sql
    ensures sqlCode == Substituted(code, Dedup(dependencies), node2sql)
  {
    var visit := DedupOrder(dependencies);
    sqlCode := code;
    var j := 0;
    while j < |visit|
      invariant 0 <= j <= |visit|
      invariant sqlCode == Substituted(code, visit[..j], node2sql)
    {
      assert visit[..j + 1][..j] == visit[..j];
      sqlCode := Replace(sqlCode, node2sql[visit[j]]);
      j := j + 1;
    }
    assert visit[..j] == visit;
  }

  /** The keys of `node2sql` in the order they were first inserted. */
  method DedupOrder(deps: seq<string>) returns (order: seq<string>)
    ensures order == Dedup(deps)
  {
    order := [];
    var i := 0;
    while i < |deps|
      invariant 0 <= i <= |deps|
      invariant order == Dedup(deps[..i])
    {
      assert deps[..i + 1][..i] == deps[..i];
      if deps[i] !in order {
        order := order + [deps[i]];
      }
      i := i + 1;
    }
    assert deps[..i] == deps;
  }

  // ----- Facts about the dependency loop -----

  /** Once a dependency fails, the loop's result is that failure. */
  lemma {:induction false} DepsFailurePersists(v: Variant, files: FileSystem, m: Manifest, mocks: map<string, Mock>,
                                               rank: map<string, nat>, owner: string, deps: seq<string>, k: nat, e: Error)
    requires Ranked(m, mocks, rank)
    requires forall d :: d in deps ==> d in rank && RankOf(rank, d) < RankOf(rank, owner)
    requires 0 < k <= |deps|
    requires DepsResolution(v, files, m, mocks, rank, owner, deps[..k]) == Failure(e)
    ensures DepsResolution(v, files, m, mocks, rank, owner, deps) == Failure(e)
    decreases |deps| - k
  {
    if k < |deps| {
      var p := deps[..k + 1];
      assert p[..k] == deps[..k];
      assert DepsResolution(v, files, m, mocks, rank, owner, p) == Failure(e);
      DepsFailurePersists(v, files, m, mocks, rank, owner, deps, k + 1, e);
    } else {
      assert deps[..k] == deps;
    }
  }

  // ----- The assertion query -----

  /** The fixed text around the model's SQL in the assertion query. */
  function QueryHead(cols: string): string
  {
    "SELECT " + cols + " FROM( "
  }

  function QueryTail(cols: string, mockSql: string): string
  {
    " ) \n  EXCEPT DISTINCT \n SELECT " + cols + " FROM (" + mockSql + ")"
  }

  /** Reads the model's SQL back out of an assertion query. */
  function ModelSqlOf(q: string, cols: string, mockSql: string): Option<string>
  {
    var head, tail := QueryHead(cols), QueryTail(cols, mockSql);
    if |head| + |tail| <= |q| && q[..|head|] == head && q[|q| - |tail|..] == tail
    then Some(q[|head|..|q| - |tail|]) else None
  }

  /** The query `assertSQLCode` builds: the rows the model's SQL produces that
      the expected mock does not hold. The model's SQL is embedded verbatim
      and can be read back. */
  function ExceptQuery(sql: string, columns: seq<string>, mockSql: string): (q: string)
    ensures ModelSqlOf(q, Join(columns, ","), mockSql) == Some(sql)
  {
    var cols := Join(columns, ",");
    var q := "SELECT " + cols + " FROM( " + sql + " ) \n  EXCEPT DISTINCT \n SELECT " + cols + " FROM (" + mockSql + ")";
    var head, tail := QueryHead(cols), QueryTail(cols, mockSql);
    assert q == head + sql + tail;
    assert q[..|head|] == head && q[|q| - |tail|..] == tail && q[|head|..|q| - |tail|] == sql;
    q
  }

  /** What `assertSQLCode` returns. */
  ghost function Assertion(files: FileSystem, sql: string, output: Mock): Result<string, Error>
  {
    match Encoding(files, output)
    case Failure(e) => Failure(e)
    case Success(expected) => Success(ExceptQuery(sql, expected.columns, expected.sql))
  }

  /** `assertSQLCode`. */
  method AssertSqlCode(files: FileSystem, sql: string, output: Mock) returns (r: Result<string, Error>)
    ensures r == Assertion(files, sql, output)
  {
    var mockedSql := MockToSql(files, output);
    if mockedSql.Failure? {
      return Failure(mockedSql.error);
    }
    return Success(ExceptQuery(sql, mockedSql.value.columns, mockedSql.value.sql));
  }

  // ----- The generated test -----

  /** What `GenerateTestSQL` returns. The library reports a resolution error;
      the older program reports success with an empty query instead. */
  ghost function TestQuery(v: Variant, files: FileSystem, m: Manifest, t: Test, rank: map<string, nat>): Result<string, Error>
    requires Ranked(m, t.mocks, rank) && t.model in rank
  {
    match Resolution(v, files, m, t.mocks, rank, t.model)
    case Failure(e) => if v == Library then Failure(e) else Success("")
    case Success(replacement) => Assertion(files, replacement.replaceSql, t.output)
  }

  /** `GenerateTestSQL`. */
  method GenerateTestSql(v: Variant, files: FileSystem, t: Test, m: Manifest, ghost rank: map<string, nat>)
    returns (r: Result<string, Error>)
    requires Ranked(m, t.mocks, rank) && t.model in rank
    ensures r == TestQuery(v, files, m, t, rank)
  {
    var replacement := Sql(v, files, m, t.mocks, rank, t.model);
    if replacement.Failure? {
      if v == Library {
        return Failure(replacement.error);
      }
      return Success("");
    }
    r := AssertSqlCode(files, replacement.value.replaceSql, t.output);
  }

  // ----- Dispatch, mocks and errors -----

  /** A mocked id is replaced by its mock under the id's own names; nothing
      else of the manifest is consulted, so no dependency is visited. */
  lemma MockedIdShortCircuits(v: Variant, files: FileSystem, m: Manifest, mocks: map<string, Mock>,
                              rank: map<string, nat>, id: string)
    requires Ranked(m, mocks, rank) && id in mocks && id in rank
    ensures IsModel(id) ==>
              Resolution(v, files, m, mocks, rank, id)
              == MockedReplacement(files, mocks[id],
                                   FullName(NodeOf(m, id).database, NodeOf(m, id).schema, NodeOf(m, id).name),
                                   NodeOf(m, id).alias)
    ensures !IsModel(id) ==>
              Resolution(v, files, m, mocks, rank, id)
              == MockedReplacement(files, mocks[id], SourceOf(m, id).relationName, SourceOf(m, id).name)
  {
  }

  /** Two manifests that agree on a mocked id's own entry resolve it alike. */
  lemma MockIgnoresManifest(v: Variant, files: FileSystem, m1: Manifest, m2: Manifest, mocks: map<string, Mock>,
                            rank1: map<string, nat>, rank2: map<string, nat>, id: string)
    requires Ranked(m1, mocks, rank1) && Ranked(m2, mocks, rank2) && id in mocks && id in rank1 && id in rank2
    requires NodeOf(m1, id) == NodeOf(m2, id) && SourceOf(m1, id) == SourceOf(m2, id)
    ensures Resolution(v, files, m1, mocks, rank1, id) == Resolution(v, files, m2, mocks, rank2, id)
  {
    MockedIdShortCircuits(v, files, m1, mocks, rank1, id);
    MockedIdShortCircuits(v, files, m2, mocks, rank2, id);
  }

  /** Ids starting with `model` or `seed` are models; any other unmocked id is a
      source, which the library rejects with `<id> not mocked` and the older
      program resolves to the zero replacement (which `Replace` ignores). */
  lemma UnmockedSource(files: FileSystem, m: Manifest, mocks: map<string, Mock>, rank: map<string, nat>, id: string)
    requires Ranked(m, mocks, rank) && !IsModel(id) && id !in mocks && id in rank
    ensures Resolution(Library, files, m, mocks, rank, id) == Failure(NotMocked(id))
    ensures Message(NotMocked(id)) == id + " not mocked"
    ensures Resolution(Legacy, files, m, mocks, rank, id) == Success(ZeroReplacement)
    ensures forall sql :: Replace(sql, ZeroReplacement) == sql
  {
  }

  /** The dependency loop fails exactly when some dependency fails after all
      earlier ones succeeded, and then with that dependency's error. */
  ghost predicate FirstFailureAt(v: Variant, files: FileSystem, m: Manifest, mocks: map<string, Mock>,
                                 rank: map<string, nat>, deps: seq<string>, k: nat, e: Error)
    requires Ranked(m, mocks, rank) && k < |deps| && (forall d :: d in deps ==> d in rank)
  {
    (forall j :: 0 <= j < k ==> Resolution(v, files, m, mocks, rank, deps[j]).Success?)
    && Resolution(v, files, m, mocks, rank, deps[k]) == Failure(e)
  }

  lemma FirstErrorWins(v: Variant, files: FileSystem, m: Manifest, mocks: map<string, Mock>,
                       rank: map<string, nat>, owner: string, deps: seq<string>, e: Error)
    requires Ranked(m, mocks, rank)
    requires forall d :: d in deps ==> d in rank && RankOf(rank, d) < RankOf(rank, owner)
    ensures DepsResolution(v, files, m, mocks, rank, owner, deps) == Failure(e)
        <==> exists k :: 0 <= k < |deps| && FirstFailureAt(v, files, m, mocks, rank, deps, k, e)
  {
    if DepsResolution(v, files, m, mocks, rank, owner, deps) == Failure(e) {
      FailureHasCause(v, files, m, mocks, rank, owner, deps, e);
    }
    if exists k :: 0 <= k < |deps| && FirstFailureAt(v, files, m, mocks, rank, deps, k, e) {
      var k :| 0 <= k < |deps| && FirstFailureAt(v, files, m, mocks, rank, deps, k, e);
      CauseDecides(v, files, m, mocks, rank, owner, deps, k, e);
    }
  }

  lemma {:induction false} FailureHasCause(v: Variant, files: FileSystem, m: Manifest, mocks: map<string, Mock>,
                                           rank: map<string, nat>, owner: string, deps: seq<string>, e: Error)
    requires Ranked(m, mocks, rank)
    requires forall d :: d in deps ==> d in rank && RankOf(rank, d) < RankOf(rank, owner)
    requires DepsResolution(v, files, m, mocks, rank, owner, deps) == Failure(e)
    ensures exists k :: 0 <= k < |deps| && FirstFailureAt(v, files, m, mocks, rank, deps, k, e)
  {
    var n := |deps|;
    var init := deps[..n - 1];
    if DepsResolution(v, files, m, mocks, rank, owner, init).Failure? {
      assert DepsResolution(v, files, m, mocks, rank, owner, init) == Failure(e);
      FailureHasCause(v, files, m, mocks, rank, owner, init, e);
      var k :| 0 <= k < n - 1 && FirstFailureAt(v, files, m, mocks, rank, init, k, e);
      assert FirstFailureAt(v, files, m, mocks, rank, deps, k, e) by {
        assert forall j :: 0 <= j <= k ==> init[j] == deps[j];
      }
    } else {
      assert Resolution(v, files, m, mocks, rank, deps[n - 1]) == Failure(e);
      assert FirstFailureAt(v, files, m, mocks, rank, deps, n - 1, e) by {
        DepsAllSucceed(v, files, m, mocks, rank, owner, init);
        assert forall j :: 0 <= j < n - 1 ==> init[j] == deps[j];
      }
    }
  }

  lemma CauseDecides(v: Variant, files: FileSystem, m: Manifest, mocks: map<string, Mock>,
                     rank: map<string, nat>, owner: string, deps: seq<string>, k: nat, e: Error)
    requires Ranked(m, mocks, rank)
    requires forall d :: d in deps ==> d in rank && RankOf(rank, d) < RankOf(rank, owner)
    requires k < |deps| && FirstFailureAt(v, files, m, mocks, rank, deps, k, e)
    ensures DepsResolution(v, files, m, mocks, rank, owner, deps) == Failure(e)
  {
    var p := deps[..k + 1];
    assert p[..k] == deps[..k] && p[k] == deps[k];
    assert DepsResolution(v, files, m, mocks, rank, owner, deps[..k]).Success? by {
      assert forall j :: 0 <= j < k ==> deps[..k][j] == deps[j];
      DepsSucceed(v, files, m, mocks, rank, owner, deps[..k]);
    }
    assert DepsResolution(v, files, m, mocks, rank, owner, p) == Failure(e);
    DepsFailurePersists(v, files, m, mocks, rank, owner, deps, k + 1, e);
  }

  /** The dependency loop succeeds when every dependency resolves. */
  lemma {:induction false} DepsSucceed(v: Variant, files: FileSystem, m: Manifest, mocks: map<string, Mock>,
                                       rank: map<string, nat>, owner: string, deps: seq<string>)
    requires Ranked(m, mocks, rank)
    requires forall d :: d in deps ==> d in rank && RankOf(rank, d) < RankOf(rank, owner)
    requires forall j :: 0 <= j < |deps| ==> Resolution(v, files, m, mocks, rank, deps[j]).Success?
    ensures DepsResolution(v, files, m, mocks, rank, owner, deps).Success?
  {
    if |deps| > 0 {
      var n := |deps|;
      assert forall j :: 0 <= j < n - 1 ==> deps[..n - 1][j] == deps[j];
      DepsSucceed(v, files, m, mocks, rank, owner, deps[..n - 1]);
    }
  }

  /** A successful dependency loop has resolved every dependency, each to its own resolution. */
  lemma {:induction false} DepsAllSucceed(v: Variant, files: FileSystem, m: Manifest, mocks: map<string, Mock>,
                                          rank: map<string, nat>, owner: string, deps: seq<string>)
    requires Ranked(m, mocks, rank)
    requires forall d :: d in deps ==> d in rank && RankOf(rank, d) < RankOf(rank, owner)
    requires DepsResolution(v, files, m, mocks, rank, owner, deps).Success?
    ensures forall j :: 0 <= j < |deps| ==>
              Resolution(v, files, m, mocks, rank, deps[j])
              == Success(DepsResolution(v, files, m, mocks, rank, owner, deps).value[deps[j]])
  {
    if |deps| > 0 {
      var n := |deps|;
      var init := deps[..n - 1];
      DepsAllSucceed(v, files, m, mocks, rank, owner, init);
      forall j | 0 <= j < n - 1
        ensures Resolution(v, files, m, mocks, rank, deps[j])
             == Success(DepsResolution(v, files, m, mocks, rank, owner, deps).value[deps[j]])
      {
        assert init[j] == deps[j];
      }
    }
  }

  /** For an unmocked model, a failing dependency decides the result even when
      the compiled code is empty: the empty-code error comes only after every
      dependency has resolved, and only in the library. */
  lemma ErrorOrder(v: Variant, files: FileSystem, m: Manifest, mocks: map<string, Mock>,
                   rank: map<string, nat>, id: string)
    requires Ranked(m, mocks, rank) && IsModel(id) && id !in mocks && id in rank
    ensures var deps := DepsResolution(v, files, m, mocks, rank, id, NodeOf(m, id).dependsOn);
            && (deps.Failure? ==> Resolution(v, files, m, mocks, rank, id) == Failure(deps.error))
            && (deps.Success? && NodeOf(m, id).compiledCode == "" ==>
                  (Resolution(v, files, m, mocks, rank, id) == Failure(EmptyCompiledSql(id)) <==> v == Library))
  {
  }

  /** An unmocked model that resolves is named by its three-part name and its
      alias, and its SQL is its compiled code with `Replace` applied once per
      distinct dependency, each dependency resolved on its own. */
  lemma ResolvedModel(v: Variant, files: FileSystem, m: Manifest, mocks: map<string, Mock>,
                      rank: map<string, nat>, id: string)
    requires Ranked(m, mocks, rank) && IsModel(id) && id !in mocks && id in rank
    requires Resolution(v, files, m, mocks, rank, id).Success?
    ensures DepsResolution(v, files, m, mocks, rank, id, NodeOf(m, id).dependsOn).Success?
    ensures var node := NodeOf(m, id);
            var node2sql := DepsResolution(v, files, m, mocks, rank, id, node.dependsOn).value;
            var r := Resolution(v, files, m, mocks, rank, id).value;
            && r.tableFullName == FullName(node.database, node.schema, node.name)
            && r.tableShortName == node.alias
            && (forall d :: d in node2sql <==> d in node.dependsOn)
            && (forall j :: 0 <= j < |node.dependsOn| ==>
                  Resolution(v, files, m, mocks, rank, node.dependsOn[j]) == Success(node2sql[node.dependsOn[j]]))
            && r.replaceSql == Substituted(node.compiledCode, Dedup(node.dependsOn), node2sql)
    ensures v == Library ==> NodeOf(m, id).compiledCode != ""
  {
    DepsAllSucceed(v, files, m, mocks, rank, id, NodeOf(m, id).dependsOn);
  }

  /** The first-appearance order lists each dependency once. */
  lemma DedupKeepsDistinct(deps: seq<string>)
    requires Distinct(deps)
    ensures Dedup(deps) == deps
  {
    if |deps| > 0 {
      var n := |deps|;
      assert Distinct(deps[..n - 1]);
      DedupKeepsDistinct(deps[..n - 1]);
      assert deps[n - 1] !in deps[..n - 1];
      assert deps == deps[..n - 1] + [deps[n - 1]];
    }
  }

  // ----- Independence from the rank -----

  /** The rank only justifies termination: any two ranks give the same result. */
  lemma ResolutionRankFree(v: Variant, files: FileSystem, m: Manifest, mocks: map<string, Mock>,
                           rank1: map<string, nat>, rank2: map<string, nat>, id: string)
    requires Ranked(m, mocks, rank1) && Ranked(m, mocks, rank2) && id in rank1 && id in rank2
    ensures Resolution(v, files, m, mocks, rank1, id) == Resolution(v, files, m, mocks, rank2, id)
    decreases RankOf(rank1, id), 2, 0
  {
    if IsModel(id) {
      ModelRankFree(v, files, m, mocks, rank1, rank2, id);
    }
  }

  lemma ModelRankFree(v: Variant, files: FileSystem, m: Manifest, mocks: map<string, Mock>,
                      rank1: map<string, nat>, rank2: map<string, nat>, id: string)
    requires Ranked(m, mocks, rank1) && Ranked(m, mocks, rank2) && id in rank1 && id in rank2
    ensures ModelResolution(v, files, m, mocks, rank1, id) == ModelResolution(v, files, m, mocks, rank2, id)
    decreases RankOf(rank1, id), 1, 0
  {
    if id !in mocks {
      DepsRanked(m, mocks, rank1, id);
      DepsRanked(m, mocks, rank2, id);
      DepsRankFree(v, files, m, mocks, rank1, rank2, id, NodeOf(m, id).dependsOn);
    }
  }

  lemma DepsRankFree(v: Variant, files: FileSystem, m: Manifest, mocks: map<string, Mock>,
                     rank1: map<string, nat>, rank2: map<string, nat>, owner: string, deps: seq<string>)
    requires Ranked(m, mocks, rank1) && Ranked(m, mocks, rank2)
    requires forall d :: d in deps ==> d in rank1 && RankOf(rank1, d) < RankOf(rank1, owner)
    requires forall d :: d in deps ==> d in rank2 && RankOf(rank2, d) < RankOf(rank2, owner)
    ensures DepsResolution(v, files, m, mocks, rank1, owner, deps) == DepsResolution(v, files, m, mocks, rank2, owner, deps)
    decreases RankOf(rank1, owner), 0, |deps|
  {
    if |deps| > 0 {
      var n := |deps|;
      DepsRankFree(v, files, m, mocks, rank1, rank2, owner, deps[..n - 1]);
      ResolutionRankFree(v, files, m, mocks, rank1, rank2, deps[n - 1]);
    }
  }

  // ----- The two variants -----

  /** Wherever the library resolves an id, the older program resolves it to the same replacement. */
  lemma LegacyAgreesOnSuccess(files: FileSystem, m: Manifest, mocks: map<string, Mock>, rank: map<string, nat>, id: string)
    requires Ranked(m, mocks, rank) && id in rank
    requires Resolution(Library, files, m, mocks, rank, id).Success?
    ensures Resolution(Legacy, files, m, mocks, rank, id) == Resolution(Library, files, m, mocks, rank, id)
    decreases RankOf(rank, id), 2, 0
  {
    if IsModel(id) {
      ModelLegacyAgrees(files, m, mocks, rank, id);
    }
  }

  lemma ModelLegacyAgrees(files: FileSystem, m: Manifest, mocks: map<string, Mock>, rank: map<string, nat>, id: string)
    requires Ranked(m, mocks, rank) && id in rank
    requires ModelResolution(Library, files, m, mocks, rank, id).Success?
    ensures ModelResolution(Legacy, files, m, mocks, rank, id) == ModelResolution(Library, files, m, mocks, rank, id)
    decreases RankOf(rank, id), 1, 0
  {
    if id !in mocks {
      DepsRanked(m, mocks, rank, id);
      DepsLegacyAgrees(files, m, mocks, rank, id, NodeOf(m, id).dependsOn);
    }
  }

  lemma DepsLegacyAgrees(files: FileSystem, m: Manifest, mocks: map<string, Mock>, rank: map<string, nat>,
                         owner: string, deps: seq<string>)
    requires Ranked(m, mocks, rank)
    requires forall d :: d in deps ==> d in rank && RankOf(rank, d) < RankOf(rank, owner)
    requires DepsResolution(Library, files, m, mocks, rank, owner, deps).Success?
    ensures DepsResolution(Legacy, files, m, mocks, rank, owner, deps) == DepsResolution(Library, files, m, mocks, rank, owner, deps)
    decreases RankOf(rank, owner), 0, |deps|
  {
    if |deps| > 0 {
      var n := |deps|;
      DepsLegacyAgrees(files, m, mocks, rank, owner, deps[..n - 1]);
      LegacyAgreesOnSuccess(files, m, mocks, rank, deps[n - 1]);
    }
  }

  /** The older program fails only when a mock file is missing. */
  lemma LegacyFailsOnlyOnMissingFiles(files: FileSystem, m: Manifest, mocks: map<string, Mock>, rank: map<string, nat>, id: string)
    requires Ranked(m, mocks, rank) && id in rank
    requires Resolution(Legacy, files, m, mocks, rank, id).Failure?
    ensures Resolution(Legacy, files, m, mocks, rank, id).error.MockFileMissing?
    decreases RankOf(rank, id), 2, 0
  {
    if IsModel(id) {
      ModelLegacyFails(files, m, mocks, rank, id);
    }
  }

  lemma ModelLegacyFails(files: FileSystem, m: Manifest, mocks: map<string, Mock>, rank: map<string, nat>, id: string)
    requires Ranked(m, mocks, rank) && id in rank
    requires ModelResolution(Legacy, files, m, mocks, rank, id).Failure?
    ensures ModelResolution(Legacy, files, m, mocks, rank, id).error.MockFileMissing?
    decreases RankOf(rank, id), 1, 0
  {
    if id !in mocks {
      DepsRanked(m, mocks, rank, id);
      DepsLegacyFails(files, m, mocks, rank, id, NodeOf(m, id).dependsOn);
    }
  }

  lemma DepsLegacyFails(files: FileSystem, m: Manifest, mocks: map<string, Mock>, rank: map<string, nat>,
                        owner: string, deps: seq<string>)
    requires Ranked(m, mocks, rank)
    requires forall d :: d in deps ==> d in rank && RankOf(rank, d) < RankOf(rank, owner)
    requires DepsResolution(Legacy, files, m, mocks, rank, owner, deps).Failure?
    ensures DepsResolution(Legacy, files, m, mocks, rank, owner, deps).error.MockFileMissing?
    decreases RankOf(rank, owner), 0, |deps|
  {
    var n := |deps|;
    if DepsResolution(Legacy, files, m, mocks, rank, owner, deps[..n - 1]).Failure? {
      DepsLegacyFails(files, m, mocks, rank, owner, deps[..n - 1]);
    } else {
      LegacyFailsOnlyOnMissingFiles(files, m, mocks, rank, deps[n - 1]);
    }
  }

  // ----- Reachable unmocked sources -----

  /** A chain of dependencies from `path[0]` through unmocked models. */
  ghost predicate UnmockedChain(m: Manifest, mocks: map<string, Mock>, path: seq<string>)
  {
    forall i :: 0 <= i < |path| - 1 ==>
      IsModel(path[i]) && path[i] !in mocks && path[i + 1] in NodeOf(m, path[i]).dependsOn
  }

  lemma UnmockedChainTail(m: Manifest, mocks: map<string, Mock>, path: seq<string>)
    requires |path| > 1 && UnmockedChain(m, mocks, path)
    ensures UnmockedChain(m, mocks, path[1..])
  {
    forall i | 0 <= i < |path[1..]| - 1
      ensures IsModel(path[1..][i]) && path[1..][i] !in mocks && path[1..][i + 1] in NodeOf(m, path[1..][i]).dependsOn
    {
      assert path[1..][i] == path[i + 1] && path[1..][i + 1] == path[i + 2];
    }
  }

  /** In the library, a model resolves only if every source reachable from it
      through unmocked models is mocked. */
  lemma {:induction false} ReachableSourcesAreMocked(files: FileSystem, m: Manifest, mocks: map<string, Mock>,
                                                      rank: map<string, nat>, path: seq<string>)
    requires Ranked(m, mocks, rank) && |path| > 0 && UnmockedChain(m, mocks, path) && path[0] in rank
    requires Resolution(Library, files, m, mocks, rank, path[0]).Success?
    ensures !IsModel(path[|path| - 1]) ==> path[|path| - 1] in mocks
  {
    if |path| == 1 {
      if !IsModel(path[0]) && path[0] !in mocks {
        UnmockedSource(files, m, mocks, rank, path[0]);
      }
    } else {
      var id, next := path[0], path[1];
      var deps := NodeOf(m, id).dependsOn;
      assert IsModel(id) && id !in mocks && next in deps;
      DepsRanked(m, mocks, rank, id);
      ResolvedModel(Library, files, m, mocks, rank, id);
      DepsAllSucceed(Library, files, m, mocks, rank, id, deps);
      var j :| 0 <= j < |deps| && deps[j] == next;
      assert Resolution(Library, files, m, mocks, rank, next).Success?;
      UnmockedChainTail(m, mocks, path);
      assert path[1..][0] == next;
      ReachableSourcesAreMocked(files, m, mocks, rank, path[1..]);
      assert path[1..][|path[1..]| - 1] == path[|path| - 1];
    }
  }

  // ----- The generated test -----

  /** A test whose model resolves yields the assertion query, from which the
      model's resolved SQL can be read back. */
  lemma GeneratedQueryEmbedsModel(v: Variant, files: FileSystem, m: Manifest, t: Test, rank: map<string, nat>)
    requires Ranked(m, t.mocks, rank) && t.model in rank
    requires Resolution(v, files, m, t.mocks, rank, t.model).Success?
    requires t.output.filepath in files
    ensures TestQuery(v, files, m, t, rank).Success?
    ensures var expected := Encoding(files, t.output).value;
            ModelSqlOf(TestQuery(v, files, m, t, rank).value, Join(expected.columns, ","), expected.sql)
            == Some(Resolution(v, files, m, t.mocks, rank, t.model).value.replaceSql)
  {
    EncodedColumns(files, t.output);
  }

  /** Failures of a test: the library passes on the resolver's error, the older
      program hides it behind an empty query; a missing expected-output file is
      an error in both. */
  lemma TestFailures(v: Variant, files: FileSystem, m: Manifest, t: Test, rank: map<string, nat>)
    requires Ranked(m, t.mocks, rank) && t.model in rank
    ensures Resolution(v, files, m, t.mocks, rank, t.model).Failure? ==>
              TestQuery(v, files, m, t, rank)
              == if v == Library then Failure(Resolution(v, files, m, t.mocks, rank, t.model).error) else Success("")
    ensures Resolution(v, files, m, t.mocks, rank, t.model).Success? && t.output.filepath !in files ==>
              TestQuery(v, files, m, t, rank) == Failure(MockFileMissing(t.output.filepath))
  {
  }
}
