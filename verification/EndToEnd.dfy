/** What the generator's separate passes promise together, stated about its output. */
module EndToEnd {
  import opened Wrappers
  import opened Sql
  import opened Segments
  import opened SchemaModel
  import opened Rendering
  import opened RenderingLaws
  import opened Catalog
  import opened Simulation
  import opened Drift
  import opened Dropping
  import opened Undo
  import opened Generate
  import opened SchemaText
  import opened SchemaParser
  import Text

  // ----- The contents of up.sql -----

  lemma {:induction false} ContentsHoldStatements(lib: SqlLibrary, segments: seq<Segment>)
    requires SharedStatements(lib, segments).Ok?
    ensures Contents(lib, segments).Ok? && DdlOf(Contents(lib, segments).value) == SharedStatements(lib, segments).value
  {
    if segments != [] {
      ContentsHoldStatements(lib, segments[1..]);
      var rest := Contents(lib, segments[1..]).value;
      match segments[0]
      case Shared(sql) =>
        DdlOfAppend(DdlPieces(Parsed(lib, sql).value), rest);
        DdlOfPieces(Parsed(lib, sql).value);
      case Tagged(own, raw) =>
        assert ([Raw(own, raw)] + rest)[1..] == rest;
    }
  }

  lemma {:induction false} DdlOfAppend(a: seq<Piece>, c: seq<Piece>)
    ensures DdlOf(a + c) == DdlOf(a) + DdlOf(c)
  {
    if a == [] {
      assert a + c == c;
    } else {
      assert (a + c)[1..] == a[1..] + c;
      DdlOfAppend(a[1..], c);
    }
  }

  lemma {:induction false} DdlOfPieces(statements: seq<Statement>)
    ensures DdlOf(DdlPieces(statements)) == statements
  {
    if statements != [] {
      assert DdlPieces(statements)[1..] == DdlPieces(statements[1..]);
      DdlOfPieces(statements[1..]);
    }
  }

  lemma {:induction false} PiecesMappedByStatements(pieces: seq<Piece>)
    requires StatementsMapped(DdlOf(pieces))
    ensures AllPiecesMapped(pieces)
  {
    if pieces != [] {
      var head := if pieces[0].Ddl? then [pieces[0].statement] else [];
      MappedParts(head, DdlOf(pieces[1..]));
      PiecesMappedByStatements(pieces[1..]);
      assert PieceMapped(pieces[0]) by {
        if pieces[0].Ddl? {
          assert head[0] == pieces[0].statement;
        }
      }
      assert forall i :: 1 <= i < |pieces| ==> pieces[i] == pieces[1..][i - 1];
    }
  }

  lemma {:induction false} MappedParts(a: seq<Statement>, c: seq<Statement>)
    requires StatementsMapped(a + c)
    ensures StatementsMapped(a) && StatementsMapped(c)
  {
    assert forall i :: 0 <= i < |a| ==> a[i] == (a + c)[i];
    assert forall i :: 0 <= i < |c| ==> c[i] == (a + c)[|a| + i];
  }

  /**
   A migration that renders does so from one sequence of pieces: each backend's `up.sql` is the text of the
   pieces kept for it, joined by empty lines.
   */
  lemma {:induction false} RenderedFromOneSequence(lib: SqlLibrary, tables: seq<ModelTable>, m: Migration)
    requires MigrationStep(lib, tables, m).Ok?
    ensures Segmented(Text.Lines(m.upSql)).Ok? && Contents(lib, Segmented(Text.Lines(m.upSql)).value).Ok?
    ensures var pieces := Contents(lib, Segmented(Text.Lines(m.upSql)).value).value;
            var step := MigrationStep(lib, tables, m).value;
            && StatementsOf(lib, m) == Ok(DdlOf(pieces))
            && AllPiecesMapped(KeptFor(pieces, Postgres)) && AllPiecesMapped(KeptFor(pieces, Sqlite))
            && step.postgres.upSql == Text.Join(PieceTexts(lib, KeptFor(pieces, Postgres), Postgres), "\n\n")
            && step.sqlite.upSql == Text.Join(PieceTexts(lib, KeptFor(pieces, Sqlite), Sqlite), "\n\n")
  {
    OnlyTheModelRejects(lib, tables, m);
    var segments := Segmented(Text.Lines(m.upSql)).value;
    ContentsHoldStatements(lib, segments);
    FoldedIsMapped(tables, StatementsOf(lib, m).value);
    var pieces := Contents(lib, segments).value;
    PiecesMappedByStatements(pieces);
    BackendsAgree(lib, segments, Postgres);
    BackendsAgree(lib, segments, Sqlite);
  }

  // ----- What each database runs -----

  /** The shared statements of a migration list, in order: those the model folds. */
  function Script(lib: SqlLibrary, migrations: seq<Migration>): seq<Statement> {
    match AllStatements(lib, migrations)
    case Ok(statements) => statements
    case Err(_) => []
  }

  /** A tagged block runs as it is; what it does is up to the database. */
  function AsStatement(p: Piece): Statement {
    match p
    case Ddl(s) => s
    case Raw(_, text) => OtherStatement(Text.Trim(text))
  }

  function RunOf(pieces: seq<Piece>): seq<Statement> {
    if pieces == [] then [] else [AsStatement(pieces[0])] + RunOf(pieces[1..])
  }

  /** All that one backend's `up.sql` of a migration runs: shared statements and own blocks. */
  function RunFor(lib: SqlLibrary, m: Migration, b: Backend): seq<Statement> {
    match Segmented(Text.Lines(m.upSql))
    case Err(_) => []
    case Ok(segments) =>
      match Contents(lib, segments)
      case Ok(pieces) => RunOf(KeptFor(pieces, b))
      case Err(_) => []
  }

  function ScriptFor(lib: SqlLibrary, migrations: seq<Migration>, b: Backend): seq<Statement> {
    if migrations == [] then [] else RunFor(lib, migrations[0], b) + ScriptFor(lib, migrations[1..], b)
  }

  /** The model sees the same in what a backend runs as in the shared statements alone. */
  lemma {:induction false} FoldIgnoresRaw(tables: seq<ModelTable>, pieces: seq<Piece>, b: Backend)
    ensures Fold(tables, RunOf(KeptFor(pieces, b))) == Fold(tables, DdlOf(pieces))
    decreases |pieces|
  {
    if pieces != [] {
      var p, kept := pieces[0], KeptFor(pieces, b);
      if p.Raw? && p.backend != b {
        assert kept == KeptFor(pieces[1..], b);
        assert DdlOf(pieces) == DdlOf(pieces[1..]);
        FoldIgnoresRaw(tables, pieces[1..], b);
      } else {
        assert kept[0] == p && kept[1..] == KeptFor(pieces[1..], b);
        var o := ApplyStatement(tables, AsStatement(p));
        assert RunOf(kept)[1..] == RunOf(kept[1..]);
        FoldIgnoresRaw(o.tables, pieces[1..], b);
        if p.Ddl? {
          assert DdlOf(pieces)[1..] == DdlOf(pieces[1..]);
        } else {
          assert DdlOf(pieces) == DdlOf(pieces[1..]);
        }
      }
    }
  }

  lemma {:induction false} FoldOfRun(lib: SqlLibrary, tables: seq<ModelTable>, m: Migration, b: Backend)
    requires StatementsOf(lib, m).Ok?
    ensures Fold(tables, RunFor(lib, m, b)) == Fold(tables, StatementsOf(lib, m).value)
  {
    var segments := Segmented(Text.Lines(m.upSql)).value;
    ContentsHoldStatements(lib, segments);
    FoldIgnoresRaw(tables, Contents(lib, segments).value, b);
  }

  lemma {:induction false} FoldOfScript(lib: SqlLibrary, tables: seq<ModelTable>, migrations: seq<Migration>,
                                        b: Backend)
    requires AllStatements(lib, migrations).Ok?
    ensures Fold(tables, ScriptFor(lib, migrations, b)) == Fold(tables, AllStatements(lib, migrations).value)
    decreases |migrations|
  {
    if migrations != [] {
      var m, rest := migrations[0], migrations[1..];
      var x, y := StatementsOf(lib, m).value, AllStatements(lib, rest).value;
      FoldOfRun(lib, tables, m, b);
      FoldAppend(tables, x, y);
      FoldAppend(tables, RunFor(lib, m, b), ScriptFor(lib, rest, b));
      FoldOfScript(lib, Fold(tables, x).tables, rest, b);
    }
  }

  // ----- The schema and the databases -----

  /** What a database holds after the generated migrations, if it takes all of them. */
  function BuiltFrom(lib: SqlLibrary, migrations: seq<Migration>, db: Database): Option<Catalogue> {
    Built(db, ScriptFor(lib, migrations, db.backend))
  }

  predicate AllFollowed(lib: SqlLibrary, migrations: seq<Migration>, db: Database) {
    AlwaysFollowed(db, [], EMPTY, Actions(ScriptFor(lib, migrations, db.backend)))
  }

  /**
   For every migration list that generates: if a database takes what is generated for it, tagged blocks included,
   and each change is followed, then it matches, table by table and column by column, the tables that the
   generated `schema.rs` prints.
   */
  lemma {:induction false} GeneratedSchemaMatchesDatabase(lib: SqlLibrary, migrations: seq<Migration>, db: Database)
    requires GeneratedFrom(lib, migrations).Ok? && BuiltFrom(lib, migrations, db).Some?
    requires AllFollowed(lib, migrations, db)
    ensures var tables := Fold([], Script(lib, migrations)).tables;
            && GeneratedFrom(lib, migrations).value.schemaRs == Text.Unlines(SchemaLines(tables))
            && Matches(db.backend, tables, BuiltFrom(lib, migrations, db).value.tables)
  {
    GenerationSucceedsIff(lib, migrations);
    FoldOfScript(lib, [], migrations, db.backend);
    SchemaAndDdlCannotDriftIff(db, ScriptFor(lib, migrations, db.backend));
  }

  /** The two databases then have the same tables, whatever their own blocks did besides. */
  lemma {:induction false} GeneratedDatabasesHaveOneShape(lib: SqlLibrary, migrations: seq<Migration>, pg: Database,
                                                          sqlite: Database)
    requires GeneratedFrom(lib, migrations).Ok? && pg.backend.Postgres? && sqlite.backend.Sqlite?
    requires BuiltFrom(lib, migrations, pg).Some? && AllFollowed(lib, migrations, pg)
    requires BuiltFrom(lib, migrations, sqlite).Some? && AllFollowed(lib, migrations, sqlite)
    ensures SameShape(BuiltFrom(lib, migrations, pg).value.tables, BuiltFrom(lib, migrations, sqlite).value.tables)
  {
    GenerationSucceedsIff(lib, migrations);
    FoldOfScript(lib, [], migrations, Postgres);
    FoldOfScript(lib, [], migrations, Sqlite);
    BothDatabasesHaveOneShape(pg, sqlite, ScriptFor(lib, migrations, Postgres), ScriptFor(lib, migrations, Sqlite));
  }

  // ----- The derived down.sql -----

  lemma {:induction false} RewritingKeepsCreations(statements: seq<Statement>, b: Backend)
    requires StatementsMapped(statements)
    ensures CreatedBy(AllRewritten(statements, b)) == CreatedBy(statements)
  {
    if statements != [] {
      assert AllMapped(Definitions(statements[0]));
      RewritingChangesOnlyTypes(statements[0], b);
      RewritingKeepsCreations(statements[1..], b);
      assert AllRewritten(statements, b)[1..] == AllRewritten(statements[1..], b);
    }
  }

  /** The tables a run creates are those of its shared statements. */
  lemma {:induction false} RunCreates(pieces: seq<Piece>, b: Backend)
    ensures CreatedBy(RunOf(KeptFor(pieces, b))) == CreatedBy(DdlOf(pieces))
  {
    if pieces != [] {
      var p, kept := pieces[0], KeptFor(pieces, b);
      RunCreates(pieces[1..], b);
      if p.Raw? && p.backend != b {
        assert kept == KeptFor(pieces[1..], b);
        assert DdlOf(pieces) == DdlOf(pieces[1..]);
      } else {
        assert kept[0] == p && kept[1..] == KeptFor(pieces[1..], b);
        assert RunOf(kept)[0] == AsStatement(p) && RunOf(kept)[1..] == RunOf(kept[1..]);
        if p.Ddl? {
          assert DdlOf(pieces)[0] == p.statement && DdlOf(pieces)[1..] == DdlOf(pieces[1..]);
        } else {
          assert DdlOf(pieces) == DdlOf(pieces[1..]);
        }
      }
    }
  }

  /** What one backend runs of a migration, as it is written for it. */
  function NativeRun(lib: SqlLibrary, m: Migration, b: Backend): seq<Statement> {
    AllRewritten(RunFor(lib, m, b), b)
  }

  /** A migration without its own `down.sql` gets one text for both backends, the drops of what its up creates. */
  lemma {:induction false} DerivedDown(lib: SqlLibrary, tables: seq<ModelTable>, m: Migration, b: Backend)
    requires MigrationStep(lib, tables, m).Ok? && m.downSql.None?
    ensures var step := MigrationStep(lib, tables, m).value;
            step.postgres.downSql == step.sqlite.downSql == Text.Join(DropTexts(CreatedBy(NativeRun(lib, m, b))), "\n")
  {
    OnlyTheModelRejects(lib, tables, m);
    var segments := Segmented(Text.Lines(m.upSql)).value;
    FoldOfRun(lib, tables, m, b);
    FoldedIsMapped(tables, RunFor(lib, m, b));
    FoldedIsMapped(tables, StatementsOf(lib, m).value);
    RenderingSucceeds(lib, segments, b);
    ContentsHoldStatements(lib, segments);
    RunCreates(Contents(lib, segments).value, b);
    RewritingKeepsCreations(RunFor(lib, m, b), b);
  }

  /**
   Running that text after the generated `up.sql`, blocks of the backend's own included, restores the catalogue if
   and only if the migration is undoable there, given that it leaves the tables already there alone.
   */
  lemma {:induction false} GeneratedDownUndoesIff(lib: SqlLibrary, tables: seq<ModelTable>, m: Migration,
                                                  db: Database, cat: Catalogue)
    requires MigrationStep(lib, tables, m).Ok? && m.downSql.None?
    requires ExecStatements(db, cat, NativeRun(lib, m, db.backend)).Some?
    requires Extends(cat.tables, ExecStatements(db, cat, NativeRun(lib, m, db.backend)).value.tables)
    ensures var created := CreatedBy(NativeRun(lib, m, db.backend));
            var after := ExecStatements(db, cat, NativeRun(lib, m, db.backend)).value;
            var step := MigrationStep(lib, tables, m).value;
            && step.postgres.downSql == step.sqlite.downSql == Text.Join(DropTexts(created), "\n")
            && (ExecStatements(db, after, Drops(created)) == Some(cat) <==> Undoable(db, cat, after, created))
  {
    DerivedDown(lib, tables, m, db.backend);
    DownRestoresIff(db, cat, NativeRun(lib, m, db.backend));
  }

  function NativeRuns(lib: SqlLibrary, migrations: seq<Migration>, b: Backend): (r: seq<seq<Statement>>)
    ensures |r| == |migrations| && forall i :: 0 <= i < |r| ==> r[i] == NativeRun(lib, migrations[i], b)
  {
    seq(|migrations|, i requires 0 <= i < |migrations| => NativeRun(lib, migrations[i], b))
  }

  /**
   A whole generated tree: where no migration has a `down.sql` of its own and each is undoable where it runs, the
   generated downs, run from the last to the first after all the ups, lead back to the start.
   */
  lemma {:induction false} GeneratedStackUndoes(lib: SqlLibrary, migrations: seq<Migration>, db: Database,
                                                cat: Catalogue)
    requires GeneratedFrom(lib, migrations).Ok? && forall i :: 0 <= i < |migrations| ==> migrations[i].downSql.None?
    requires Stackable(db, cat, NativeRuns(lib, migrations, db.backend))
    requires RunUps(db, cat, NativeRuns(lib, migrations, db.backend)).Some?
    ensures var runs := NativeRuns(lib, migrations, db.backend); var generated := GeneratedFrom(lib, migrations).value;
            && (forall i :: 0 <= i < |migrations| ==>
                  generated.postgres[i].downSql == generated.sqlite[i].downSql ==
                    Text.Join(DropTexts(CreatedBy(runs[i])), "\n"))
            && RunDowns(db, RunUps(db, cat, runs).value, runs) == Some(cat)
  {
    var runs, generated := NativeRuns(lib, migrations, db.backend), GeneratedFrom(lib, migrations).value;
    forall i | 0 <= i < |migrations|
      ensures generated.postgres[i].downSql == generated.sqlite[i].downSql ==
                Text.Join(DropTexts(CreatedBy(runs[i])), "\n")
    {
      var before := StepAt(lib, [], migrations, i);
      DerivedDown(lib, before, migrations[i], db.backend);
    }
    StackUndoes(db, cat, runs);
  }

  // ----- Plain identifiers -----

  predicate WordIdents(idents: seq<Ident>) {
    forall i :: 0 <= i < |idents| ==> IsWord(idents[i].value)
  }

  predicate PlainDef(def: ColumnDef) {
    && IsWord(def.name.value)
    && forall i :: 0 <= i < |def.options| && def.options[i].References? ==> IsWord(LastIdent(def.options[i].parent))
  }

  predicate PlainConstraint(c: TableConstraint) {
    match c
    case PrimaryKey(columns) => WordIdents(columns)
    case ForeignKey(columns, parent, _) => WordIdents(columns) && IsWord(LastIdent(parent))
    case UniqueOrCheck(_) => true
  }

  predicate PlainOp(op: AlterOp) {
    match op
    case AddColumn(_, def) => PlainDef(def)
    case AddConstraint(c) => PlainConstraint(c)
    case _ => true
  }

  /** Every name that can reach the model is a plain identifier. */
  predicate PlainStatement(s: Statement) {
    match s
    case CreateTable(name, _, columns, constraints, _, _) =>
      && IsWord(LastIdent(name))
      && (forall i :: 0 <= i < |columns| ==> PlainDef(columns[i]))
      && forall i :: 0 <= i < |constraints| ==> PlainConstraint(constraints[i])
    case AlterTable(_, _, ops) => forall i :: 0 <= i < |ops| ==> PlainOp(ops[i])
    case _ => true
  }

  predicate WordPairs(fks: seq<(string, string)>) {
    forall i :: 0 <= i < |fks| ==> IsWord(fks[i].0) && IsWord(fks[i].1)
  }

  lemma {:induction false} PlainOptions(name: string, options: seq<ColumnOption>)
    requires IsWord(name)
    requires forall i :: 0 <= i < |options| && options[i].References? ==> IsWord(LastIdent(options[i].parent))
    ensures AllWords(OptionKeys(name, options)) && WordPairs(OptionRefs(name, options))
  {
    if options != [] {
      PlainOptions(name, options[..|options| - 1]);
    }
  }

  lemma {:induction false} PlainInline(columns: seq<ColumnDef>)
    requires forall i :: 0 <= i < |columns| ==> PlainDef(columns[i])
    ensures AllWords(InlineKeys(columns)) && WordPairs(InlineRefs(columns))
  {
    if columns != [] {
      var c := columns[|columns| - 1];
      PlainInline(columns[..|columns| - 1]);
      PlainOptions(c.name.value, c.options);
    }
  }

  lemma {:induction false} PlainKeysAndRefs(columns: seq<ColumnDef>, constraints: seq<TableConstraint>)
    requires forall i :: 0 <= i < |columns| ==> PlainDef(columns[i])
    requires forall i :: 0 <= i < |constraints| ==> PlainConstraint(constraints[i])
    ensures AllWords(KeysOf(columns, constraints)) && WordPairs(RefsOf(columns, constraints))
  {
    if constraints == [] {
      PlainInline(columns);
    } else {
      assert PlainConstraint(constraints[|constraints| - 1]);
      PlainKeysAndRefs(columns, constraints[..|constraints| - 1]);
    }
  }

  lemma {:induction false} PlainRetained(columns: seq<ModelColumn>, name: string)
    requires forall i :: 0 <= i < |columns| ==> IsWord(columns[i].name)
    ensures forall i :: 0 <= i < |Retained(columns, name)| ==> IsWord(Retained(columns, name)[i].name)
  {
    if columns != [] {
      PlainRetained(columns[..|columns| - 1], name);
    }
  }

  lemma {:induction false} PlainAltered(t: ModelTable, op: AlterOp)
    requires PlainTable(t) && PlainOp(op)
    ensures PlainTable(Altered(t, op))
  {
    if op.DropColumn? {
      PlainRetained(t.columns, op.column.value);
    }
  }

  lemma {:induction false} PlainOps(tables: seq<ModelTable>, name: string, ops: seq<AlterOp>)
    requires PlainTables(tables) && forall i :: 0 <= i < |ops| ==> PlainOp(ops[i])
    ensures PlainTables(ApplyOps(tables, name, ops).tables)
    decreases |ops|
  {
    if ops != [] {
      var k := Find(tables, name);
      if k.Some? {
        assert PlainOp(ops[0]);
        PlainAltered(tables[k.value], ops[0]);
      }
      PlainOps(ApplyOp(tables, name, ops[0]).tables, name, ops[1..]);
    }
  }

  lemma {:induction false} PlainApplied(tables: seq<ModelTable>, s: Statement)
    requires PlainTables(tables) && PlainStatement(s)
    ensures PlainTables(ApplyStatement(tables, s).tables)
  {
    match s
    case CreateTable(name, _, columns, constraints, _, _) =>
      if Created(name, columns, constraints).Ok? {
        PlainKeysAndRefs(columns, constraints);
        var t := Created(name, columns, constraints).value;
        assert forall i :: 0 <= i < |columns| ==> t.columns[i].name == columns[i].name.value && PlainDef(columns[i]);
        assert PlainTable(t);
      }
    case AlterTable(name, _, ops) => PlainOps(tables, LastIdent(name), ops);
    case _ =>
  }

  /** Plain statements fold into plain tables. */
  lemma {:induction false} FoldKeepsPlain(tables: seq<ModelTable>, statements: seq<Statement>)
    requires PlainTables(tables) && forall i :: 0 <= i < |statements| ==> PlainStatement(statements[i])
    ensures PlainTables(Fold(tables, statements).tables)
    decreases |statements|
  {
    if statements != [] {
      assert PlainStatement(statements[0]);
      PlainApplied(tables, statements[0]);
      FoldKeepsPlain(ApplyStatement(tables, statements[0]).tables, statements[1..]);
    }
  }

  /** The generated `schema.rs` of plain migrations reads back as exactly the folded model. */
  lemma {:induction false} GeneratedSchemaReadsBack(lib: SqlLibrary, migrations: seq<Migration>)
    requires GeneratedFrom(lib, migrations).Ok?
    requires forall i :: 0 <= i < |Script(lib, migrations)| ==> PlainStatement(Script(lib, migrations)[i])
    ensures var tables := Fold([], Script(lib, migrations)).tables;
            ParseText(GeneratedFrom(lib, migrations).value.schemaRs) ==
                Some(SchemaView(TableViews(tables), JoinViews(tables)))
  {
    GenerationSucceedsIff(lib, migrations);
    FoldKeepsPlain([], Script(lib, migrations));
    SchemaRoundTrip(Fold([], Script(lib, migrations)).tables);
  }

  // ----- The file against the database -----

  predicate ShowsColumn(b: Backend, v: ColumnView, c: CatColumn) {
    && v.name == c.name && v.nullable == !c.notNull
    && exists marker: Marker :: v.marker == marker.Text() && c.dataType == NativeType(RowOf(marker), b)
  }

  predicate ShowsTable(b: Backend, v: TableView, t: CatTable) {
    && v.name == t.name && v.key == t.primaryKey && |v.columns| == |t.columns|
    && forall i :: 0 <= i < |v.columns| ==> ShowsColumn(b, v.columns[i], t.columns[i])
  }

  /** One join for each column of each foreign key. */
  function CatJoins(cat: Tables): seq<JoinView> {
    if cat == [] then []
    else CatJoins(cat[..|cat| - 1]) + KeyViews(cat[|cat| - 1].name, Flat(cat[|cat| - 1].foreignKeys))
  }

  /** What a schema file says is what a database holds. */
  predicate ShowsDatabase(b: Backend, v: SchemaView, cat: Tables) {
    && |v.tables| == |cat| && (forall i :: 0 <= i < |cat| ==> ShowsTable(b, v.tables[i], cat[i]))
    && v.joins == CatJoins(cat)
  }

  lemma {:induction false} MatchingJoins(b: Backend, tables: seq<ModelTable>, cat: Tables)
    requires Matches(b, tables, cat)
    ensures JoinViews(tables) == CatJoins(cat)
  {
    if tables != [] {
      var n := |tables| - 1;
      assert MatchesTable(b, tables[n], cat[n]);
      assert forall i :: 0 <= i < n ==> tables[..n][i] == tables[i] && cat[..n][i] == cat[i];
      MatchingJoins(b, tables[..n], cat[..n]);
    }
  }

  lemma {:induction false} MatchingViews(b: Backend, tables: seq<ModelTable>, cat: Tables)
    requires Matches(b, tables, cat)
    ensures ShowsDatabase(b, SchemaView(TableViews(tables), JoinViews(tables)), cat)
  {
    MatchingJoins(b, tables, cat);
    forall i | 0 <= i < |cat|
      ensures ShowsTable(b, TableViews(tables)[i], cat[i])
    {
      assert MatchesTable(b, tables[i], cat[i]);
      forall j | 0 <= j < |cat[i].columns|
        ensures ShowsColumn(b, TableViewOf(tables[i]).columns[j], cat[i].columns[j])
      {
        assert MatchesColumn(b, tables[i].columns[j], cat[i].columns[j]);
      }
    }
  }

  /**
   The promise as a reader of the file meets it: for plain migrations that generate, are taken by a database and
   followed, the text of `schema.rs`, parsed, says exactly what that database holds: tables, keys, columns with
   their types and nullability, and joins.
   */
  lemma {:induction false} GeneratedFileShowsDatabase(lib: SqlLibrary, migrations: seq<Migration>, db: Database)
    requires GeneratedFrom(lib, migrations).Ok? && BuiltFrom(lib, migrations, db).Some?
    requires AllFollowed(lib, migrations, db)
    requires forall i :: 0 <= i < |Script(lib, migrations)| ==> PlainStatement(Script(lib, migrations)[i])
    ensures ParseText(GeneratedFrom(lib, migrations).value.schemaRs).Some?
    ensures ShowsDatabase(db.backend, ParseText(GeneratedFrom(lib, migrations).value.schemaRs).value,
                          BuiltFrom(lib, migrations, db).value.tables)
  {
    GeneratedSchemaMatchesDatabase(lib, migrations, db);
    GeneratedSchemaReadsBack(lib, migrations);
    MatchingViews(db.backend, Fold([], Script(lib, migrations)).tables, BuiltFrom(lib, migrations, db).value.tables);
  }
}
