/** What the generator writes for given statements and blocks, in letters, from the input text to the output texts. */
module OutputInWriting {
  import opened Wrappers
  import opened Sql
  import opened Segments
  import opened SegmentLaws
  import opened SchemaModel
  import opened FoldLaws
  import opened Rendering
  import opened RenderingLaws
  import opened Generate
  import opened SchemaText
  import opened SchemaParser
  import opened EndToEnd
  import Text

  // ----- A migration with both kinds of blocks -----

  /** The columns as they are written for a backend: the promised name of each type, and nothing else changed. */
  function WrittenColumns(columns: seq<ColumnDef>, b: Backend): (r: seq<ColumnDef>)
    requires forall i :: 0 <= i < |columns| ==> Promised(columns[i].dataType).Some?
    ensures |r| == |columns|
    ensures forall i :: 0 <= i < |r| ==>
              var letters := Promised(columns[i].dataType).value;
              var name := if b == Postgres then letters.pg else letters.sqlite;
              r[i] == columns[i].(dataType := Custom([Ident(name, None)], []))
  {
    seq(|columns|, i requires 0 <= i < |columns| =>
      var letters := Promised(columns[i].dataType).value;
      columns[i].(dataType := Custom([Ident(if b == Postgres then letters.pg else letters.sqlite, None)], [])))
  }

  lemma {:induction false} PromisedIsMapped(columns: seq<ColumnDef>, b: Backend)
    requires forall i :: 0 <= i < |columns| ==> Promised(columns[i].dataType).Some?
    ensures AllMapped(columns) && NativeColumns(columns, b) == WrittenColumns(columns, b)
  {
    forall i | 0 <= i < |columns|
      ensures MapType(columns[i].dataType).Some?
      ensures NativeColumn(columns[i], b) == WrittenColumns(columns, b)[i]
    {
      TableInWriting(columns[i].dataType);
    }
  }

  /** A shared chunk, a block for PostgreSQL and a block for SQLite. */
  function DivergentText(chunk: string, pg: string, sqlite: string): string {
    chunk + ("-- dualdb:postgres\n" + pg + "-- dualdb:end\n") + ("-- dualdb:sqlite\n" + sqlite + "-- dualdb:end\n")
  }

  lemma {:induction false} ChunkAndBlocks(x: string, s: Segment, t: Segment)
    requires NormalBody(x) && !Text.Blank(x) && s.Tagged? && t.Tagged? && NormalBody(Body(s)) && NormalBody(Body(t))
    ensures Normal([Shared(x), s, t])
  {
    NormalThree(Shared(x), s, t);
  }

  lemma {:induction false} DivergentSegments(chunk: seq<string>, pg: seq<string>, sqlite: seq<string>)
    requires OrdinaryText(chunk) && OrdinaryText(pg) && OrdinaryText(sqlite) && !Text.Blank(Text.Unlines(chunk))
    ensures var x, y, z := Text.Unlines(chunk), Text.Unlines(pg), Text.Unlines(sqlite);
            Segmented(Text.Lines(DivergentText(x, y, z))) == Ok([Shared(x), Tagged(Postgres, y), Tagged(Sqlite, z)])
  {
    var x, y, z := Text.Unlines(chunk), Text.Unlines(pg), Text.Unlines(sqlite);
    OrdinaryIsNormal(chunk);
    OrdinaryIsNormal(pg);
    OrdinaryIsNormal(sqlite);
    Openings();
    PrintedAlone(Postgres, y);
    PrintedAlone(Sqlite, z);
    PrintedThree(Shared(x), Tagged(Postgres, y), Tagged(Sqlite, z));
    PrintedSingle(Tagged(Postgres, y));
    PrintedSingle(Tagged(Sqlite, z));
    ChunkAndBlocks(x, Tagged(Postgres, y), Tagged(Sqlite, z));
    SegmentInvertsPrint([Shared(x), Tagged(Postgres, y), Tagged(Sqlite, z)]);
  }

  lemma {:induction false} UpFront(lib: SqlLibrary, segment: Segment, rest: seq<Segment>, b: Backend)
    ensures UpPieces(lib, [segment] + rest, b) == Then(SegmentPieces(lib, segment, b), UpPieces(lib, rest, b))
  {
    assert ([segment] + rest)[1..] == rest;
  }

  lemma {:induction false} OnePiece(lib: SqlLibrary, s: Statement, t: Statement, b: Backend)
    requires Rewritten(s, b) == Ok(t)
    ensures StatementPieces(lib, [s], b) == Ok([lib.show(t) + ";"])
  {
    assert [s][1..] == [];
    assert [lib.show(t) + ";"] + [] == [lib.show(t) + ";"];
  }

  lemma {:induction false} ThreeUps(lib: SqlLibrary, x: string, y: string, z: string, s: Statement, t: Statement,
                                    b: Backend)
    requires lib.parse(x) == Ok([s]) && Rewritten(s, b) == Ok(t)
    ensures UpText(lib, [Shared(x), Tagged(Postgres, y), Tagged(Sqlite, z)], b) ==
            Ok(lib.show(t) + ";\n\n" + Text.Trim(if b == Postgres then y else z))
  {
    var own := Text.Trim(if b == Postgres then y else z);
    var last, two := [Tagged(Sqlite, z)] + [], [Tagged(Postgres, y), Tagged(Sqlite, z)];
    UpFront(lib, Tagged(Sqlite, z), [], b);
    assert two == [Tagged(Postgres, y)] + last;
    UpFront(lib, Tagged(Postgres, y), last, b);
    assert UpPieces(lib, two, b) == Ok([own]) by {
      assert [own] + [] == [own] && [] + [own] == [own];
    }
    OnePiece(lib, s, t, b);
    UpFront(lib, Shared(x), two, b);
    assert [Shared(x)] + two == [Shared(x), Tagged(Postgres, y), Tagged(Sqlite, z)];
    JoinTwo(lib.show(t), own);
  }

  lemma {:induction false} JoinTwo(shown: string, own: string)
    ensures Text.Join([shown + ";"] + [own], "\n\n") == shown + ";\n\n" + own
  {
    var pieces := [shown + ";"] + [own];
    assert pieces[1..] == [own];
    assert shown + ";" + "\n\n" + own == shown + ";\n\n" + own;
  }

  lemma {:induction false} CreatedFrontOf(lib: SqlLibrary, segment: Segment, rest: seq<Segment>)
    ensures segment.Tagged? ==> CreatedIn(lib, [segment] + rest) == CreatedIn(lib, rest)
    ensures segment.Tagged? ==> SharedStatements(lib, [segment] + rest) == SharedStatements(lib, rest)
    ensures segment.Shared? && Parsed(lib, segment.sql).Ok? ==>
              var statements := Parsed(lib, segment.sql).value;
              && CreatedIn(lib, [segment] + rest) == Before(CreatedBy(statements), CreatedIn(lib, rest))
              && SharedStatements(lib, [segment] + rest) == Before(statements, SharedStatements(lib, rest))
  {
    assert ([segment] + rest)[1..] == rest;
  }

  lemma {:induction false} ThreeDowns(lib: SqlLibrary, x: string, y: string, z: string, s: Statement)
    requires lib.parse(x) == Ok([s]) && s.CreateTable?
    ensures DownText(lib, [Shared(x), Tagged(Postgres, y), Tagged(Sqlite, z)]) ==
            Ok("DROP TABLE IF EXISTS " + LastIdent(s.name) + ";")
    ensures SharedStatements(lib, [Shared(x), Tagged(Postgres, y), Tagged(Sqlite, z)]) == Ok([s])
  {
    var name := LastIdent(s.name);
    var last, two := [Tagged(Sqlite, z)] + [], [Tagged(Postgres, y), Tagged(Sqlite, z)];
    CreatedFrontOf(lib, Tagged(Sqlite, z), []);
    assert two == [Tagged(Postgres, y)] + last;
    CreatedFrontOf(lib, Tagged(Postgres, y), last);
    CreatedFrontOf(lib, Shared(x), two);
    assert [Shared(x)] + two == [Shared(x), Tagged(Postgres, y), Tagged(Sqlite, z)];
    assert [s] + [] == [s] && [s][1..] == [];
    assert CreatedBy([s]) == [name] by {
      assert [name] + [] == [name];
    }
    assert [name] + [] == [name] && [name][..0] == [];
    assert DropTexts([name]) == [DropText(name)] + [];
  }

  /**
   A migration that creates a table and then has a block for each backend: each up is the CREATE TABLE with the
   backend's type names, an empty line, and the backend's own block; the derived down drops the table.
   */
  lemma {:induction false} DivergentMigration(lib: SqlLibrary, tables: seq<ModelTable>, m: Migration, s: Statement,
                                              chunk: seq<string>, pg: seq<string>, sqlite: seq<string>)
    returns (step: Step)
    requires OrdinaryText(chunk) && OrdinaryText(pg) && OrdinaryText(sqlite) && !Text.Blank(Text.Unlines(chunk))
    requires m.upSql == DivergentText(Text.Unlines(chunk), Text.Unlines(pg), Text.Unlines(sqlite)) && m.downSql.None?
    requires lib.parse(Text.Unlines(chunk)) == Ok([s]) && s.CreateTable?
    requires forall i :: 0 <= i < |s.columns| ==> Promised(s.columns[i].dataType).Some?
    ensures MigrationStep(lib, tables, m) == Ok(step)
    ensures step.postgres.upSql ==
            lib.show(s.(columns := WrittenColumns(s.columns, Postgres))) + ";\n\n" + Text.Trim(Text.Unlines(pg))
    ensures step.sqlite.upSql ==
            lib.show(s.(columns := WrittenColumns(s.columns, Sqlite))) + ";\n\n" + Text.Trim(Text.Unlines(sqlite))
    ensures step.postgres.downSql == step.sqlite.downSql == "DROP TABLE IF EXISTS " + LastIdent(s.name) + ";"
    ensures |step.tables| == |tables| + 1 && step.tables[..|tables|] == tables
    ensures step.tables[|tables|].name == LastIdent(s.name)
  {
    var x, y, z := Text.Unlines(chunk), Text.Unlines(pg), Text.Unlines(sqlite);
    DivergentSegments(chunk, pg, sqlite);
    PromisedIsMapped(s.columns, Postgres);
    PromisedIsMapped(s.columns, Sqlite);
    RewritingMapped(s, Postgres);
    RewritingMapped(s, Sqlite);
    ThreeUps(lib, x, y, z, s, s.(columns := WrittenColumns(s.columns, Postgres)), Postgres);
    ThreeUps(lib, x, y, z, s, s.(columns := WrittenColumns(s.columns, Sqlite)), Sqlite);
    ThreeDowns(lib, x, y, z, s);
    OneCreated(tables, s);
    OnlyTheModelRejects(lib, tables, m);
    step := MigrationStep(lib, tables, m).value;
  }

  lemma {:induction false} RewritingMapped(s: Statement, b: Backend)
    requires s.CreateTable? && AllMapped(s.columns)
    ensures Rewritten(s, b) == Ok(s.(columns := NativeColumns(s.columns, b)))
  {
    assert FirstUnmapped(s.columns, 0).None?;
  }

  lemma {:induction false} OneCreated(tables: seq<ModelTable>, s: Statement)
    requires s.CreateTable? && AllMapped(s.columns)
    ensures Fold(tables, [s]).result.Ok? && |Fold(tables, [s]).tables| == |tables| + 1
    ensures Fold(tables, [s]).tables[..|tables|] == tables
    ensures var t := Fold(tables, [s]).tables[|tables|];
            && t.name == LastIdent(s.name) && |t.columns| == |s.columns|
            && forall j :: 0 <= j < |s.columns| ==> t.columns[j] == ColumnOf(s.columns[j])
  {
    assert FirstUnmapped(s.columns, 0).None?;
    assert [s][1..] == [];
  }

  // ----- Types in schema.rs -----

  /** The script defines such a column of the table, in a CREATE TABLE or an ADD COLUMN. */
  ghost predicate DefinedIn(script: seq<Statement>, table: string, column: string, marker: string) {
    exists i: nat, j: nat :: DefinedAt(script, i, j, table, column, marker)
  }

  predicate DefinedAt(script: seq<Statement>, i: nat, j: nat, table: string, column: string, marker: string) {
    && i < |script| && TargetOf(script[i]) == Some(table) && j < |Definitions(script[i])|
    && var def := Definitions(script[i])[j];
       def.name.value == column && Promised(def.dataType).Some? && Promised(def.dataType).value.path == marker
  }

  ghost predicate AllDefined(script: seq<Statement>, tables: seq<ModelTable>) {
    forall k, c :: 0 <= k < |tables| && 0 <= c < |tables[k].columns| ==>
      DefinedIn(script, tables[k].name, tables[k].columns[c].name, tables[k].columns[c].marker.Text())
  }

  lemma {:induction false} DefinedLater(x: seq<Statement>, y: seq<Statement>, tables: seq<ModelTable>)
    requires AllDefined(x, tables)
    ensures AllDefined(x + y, tables)
  {
    forall k, c | 0 <= k < |tables| && 0 <= c < |tables[k].columns|
      ensures DefinedIn(x + y, tables[k].name, tables[k].columns[c].name, tables[k].columns[c].marker.Text())
    {
      var t, column, marker := tables[k].name, tables[k].columns[c].name, tables[k].columns[c].marker.Text();
      var i: nat, j: nat :| DefinedAt(x, i, j, t, column, marker);
      assert (x + y)[i] == x[i];
      assert DefinedAt(x + y, i, j, t, column, marker);
    }
  }

  lemma {:induction false} AddedIsDefined(ops: seq<AlterOp>, k: nat) returns (j: nat)
    requires k < |ops| && ops[k].AddColumn?
    ensures j < |AddedDefinitions(ops)| && AddedDefinitions(ops)[j] == ops[k].def
  {
    var n := |ops| - 1;
    if k == n {
      j := |AddedDefinitions(ops)| - 1;
    } else {
      j := AddedIsDefined(ops[..n], k);
    }
  }

  lemma {:induction false} RetainedIsThere(columns: seq<ModelColumn>, name: string)
    ensures forall c :: c in Retained(columns, name) ==> c in columns
  {
    if columns != [] {
      RetainedIsThere(columns[..|columns| - 1], name);
    }
  }

  /** One operation brings at most the column it adds. */
  lemma {:induction false} OpDefines(tables: seq<ModelTable>, s: Statement, script: seq<Statement>, k: nat)
    requires s.AlterTable? && k < |s.operations| && s in script && AllDefined(script, tables)
    ensures AllDefined(script, ApplyOp(tables, LastIdent(s.name), s.operations[k]).tables)
  {
    var name, op := LastIdent(s.name), s.operations[k];
    var next := ApplyOp(tables, name, op).tables;
    var f := Find(tables, name);
    if next != tables {
      var t := tables[f.value];
      forall i, c | 0 <= i < |next| && 0 <= c < |next[i].columns|
        ensures DefinedIn(script, next[i].name, next[i].columns[c].name, next[i].columns[c].marker.Text())
      {
        if i == f.value {
          assert next[i] == Altered(t, op) && next[i].name == t.name;
          RetainedIsThere(t.columns, if op.DropColumn? then op.column.value else "");
          var column := next[i].columns[c];
          if column in t.columns {
            var j :| 0 <= j < |t.columns| && t.columns[j] == column;
            assert DefinedIn(script, tables[f.value].name, tables[f.value].columns[j].name, column.marker.Text());
          } else {
            var j := AddedIsDefined(s.operations, k);
            var at :| 0 <= at < |script| && script[at] == s;
            TableInWriting(op.def.dataType);
            assert DefinedAt(script, at, j, t.name, column.name, column.marker.Text());
          }
        } else {
          assert next[i] == tables[i];
        }
      }
    }
  }

  lemma {:induction false} OpsDefine(tables: seq<ModelTable>, s: Statement, script: seq<Statement>, k: nat)
    requires s.AlterTable? && k <= |s.operations| && s in script && AllDefined(script, tables)
    ensures AllDefined(script, ApplyOps(tables, LastIdent(s.name), s.operations[k..]).tables)
    decreases |s.operations| - k
  {
    if k < |s.operations| {
      var rest := s.operations[k..];
      assert rest[0] == s.operations[k] && rest[1..] == s.operations[k + 1..];
      OpDefines(tables, s, script, k);
      OpsDefine(ApplyOp(tables, LastIdent(s.name), s.operations[k]).tables, s, script, k + 1);
    }
  }

  lemma {:induction false} StatementDefines(tables: seq<ModelTable>, s: Statement, script: seq<Statement>)
    requires s in script && AllDefined(script, tables)
    ensures AllDefined(script, ApplyStatement(tables, s).tables)
  {
    match s
    case CreateTable(name, _, columns, _, _, _) =>
      if AllMapped(columns) {
        var next := ApplyStatement(tables, s).tables;
        var at :| 0 <= at < |script| && script[at] == s;
        forall k, c | 0 <= k < |next| && 0 <= c < |next[k].columns|
          ensures DefinedIn(script, next[k].name, next[k].columns[c].name, next[k].columns[c].marker.Text())
        {
          if k < |tables| {
            assert next[k] == tables[k];
          } else {
            TableInWriting(columns[c].dataType);
            assert DefinedAt(script, at, c, next[k].name, next[k].columns[c].name, next[k].columns[c].marker.Text());
          }
        }
      }
    case AlterTable(_, _, ops) =>
      assert ops[0..] == ops;
      OpsDefine(tables, s, script, 0);
    case _ =>
  }

  lemma {:induction false} FoldDefines(tables: seq<ModelTable>, x: seq<Statement>, y: seq<Statement>)
    requires AllDefined(x, tables)
    ensures AllDefined(x + y, Fold(tables, y).tables)
    decreases |y|
  {
    DefinedLater(x, y, tables);
    if y != [] {
      var o := ApplyStatement(tables, y[0]);
      assert (x + [y[0]])[|x|] == y[0];
      DefinedLater(x, [y[0]], tables);
      StatementDefines(tables, y[0], x + [y[0]]);
      assert x + [y[0]] + y[1..] == x + y;
      if o.result.Ok? {
        FoldDefines(o.tables, x + [y[0]], y[1..]);
      } else {
        DefinedLater(x + [y[0]], y[1..], o.tables);
      }
    }
  }

  /**
   Every column that the generated `schema.rs` shows is defined in the migrations, for that table and by that name,
   with a type whose promised path is the one shown.
   */
  lemma {:induction false} EveryTypeInWriting(lib: SqlLibrary, migrations: seq<Migration>)
    requires GeneratedFrom(lib, migrations).Ok?
    requires forall i :: 0 <= i < |Script(lib, migrations)| ==> PlainStatement(Script(lib, migrations)[i])
    ensures ParseText(GeneratedFrom(lib, migrations).value.schemaRs).Some?
    ensures var v := ParseText(GeneratedFrom(lib, migrations).value.schemaRs).value;
            forall k, c :: 0 <= k < |v.tables| && 0 <= c < |v.tables[k].columns| ==>
              DefinedIn(Script(lib, migrations), v.tables[k].name, v.tables[k].columns[c].name,
                        v.tables[k].columns[c].marker)
  {
    var script := Script(lib, migrations);
    GeneratedSchemaReadsBack(lib, migrations);
    FoldDefines([], [], script);
    assert [] + script == script;
  }

  lemma {:induction false} LastCreated(before: seq<Statement>, s: Statement)
    requires s.CreateTable? && Fold([], before + [s]).result.Ok?
    ensures var tables := Fold([], before + [s]).tables;
            && tables != []
            && var t := tables[|tables| - 1];
               && t.name == LastIdent(s.name) && |t.columns| == |s.columns|
               && forall j :: 0 <= j < |s.columns| ==>
                    MapType(s.columns[j].dataType).Some? && t.columns[j] == ColumnOf(s.columns[j])
  {
    FoldAppend([], before, [s]);
    FoldedIsMapped(Fold([], before).tables, [s]);
    assert AllMapped(Definitions([s][0]));
    OneCreated(Fold([], before).tables, s);
  }

  /** How a definition shows in `schema.rs`: its name, the promised path, nullable unless NOT NULL or PRIMARY KEY. */
  predicate ShowsDefinition(v: ColumnView, def: ColumnDef) {
    && Promised(def.dataType).Some?
    && v == ColumnView(def.name.value, Promised(def.dataType).value.path,
                       NotNull !in def.options && Unique(true) !in def.options)
  }

  lemma {:induction false} DefinitionShows(def: ColumnDef)
    requires MapType(def.dataType).Some?
    ensures var c := ColumnOf(def); ShowsDefinition(ColumnView(c.name, c.marker.Text(), c.nullable), def)
  {
    TableInWriting(def.dataType);
  }

  /** A table just created is the last one in `schema.rs`, and its columns show there in order. */
  lemma {:induction false} NewTableInWriting(lib: SqlLibrary, migrations: seq<Migration>, before: seq<Statement>,
                                             s: Statement) returns (tables: seq<TableView>, joins: seq<JoinView>)
    requires GeneratedFrom(lib, migrations).Ok? && Script(lib, migrations) == before + [s] && s.CreateTable?
    requires forall i :: 0 <= i < |Script(lib, migrations)| ==> PlainStatement(Script(lib, migrations)[i])
    ensures ParseText(GeneratedFrom(lib, migrations).value.schemaRs) == Some(SchemaView(tables, joins))
    ensures tables != []
    ensures var t := tables[|tables| - 1];
            && t.name == LastIdent(s.name) && |t.columns| == |s.columns|
            && forall j :: 0 <= j < |s.columns| ==> ShowsDefinition(t.columns[j], s.columns[j])
  {
    GenerationSucceedsIff(lib, migrations);
    GeneratedSchemaReadsBack(lib, migrations);
    LastCreated(before, s);
    var model := Fold([], before + [s]).tables;
    tables, joins := TableViews(model), JoinViews(model);
    forall j | 0 <= j < |s.columns|
      ensures ShowsDefinition(tables[|tables| - 1].columns[j], s.columns[j])
    {
      DefinitionShows(s.columns[j]);
    }
  }
}
