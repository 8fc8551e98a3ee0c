/**
 Feeding the generated PostgreSQL tree back in as logical migrations. Native PostgreSQL type names are logical
 type names again, with the same row of the mapping table; so the generator reproduces its whole output from it.
 For SQLite names this holds only for the types both backends spell alike.
 */
module Regenerate {
  import opened Wrappers
  import opened Sql
  import opened Segments
  import opened SchemaModel
  import opened Rendering
  import opened RenderingLaws
  import opened Generate
  import opened Drift
  import opened SegmentLaws
  import opened SegmentStability
  import Text

  /** The data type that a parser makes of a native type name. */
  function ReadName(name: string): DataType {
    if name == "UUID" then Uuid
    else if name == "TIMESTAMPTZ" then Timestamp(None, Tz)
    else if name == "JSONB" then Jsonb
    else if name == "BYTEA" then Bytea
    else if name == "NUMERIC" then Numeric([])
    else if name == "TEXT" then DataType.Text
    else if name == "SMALLINT" then SmallInt(None)
    else if name == "INTEGER" then Integer(None)
    else if name == "BIGINT" then BigInt(None)
    else if name == "REAL" then Real
    else if name == "BOOLEAN" then Boolean
    else if name == "BLOB" then Unsupported("BLOB")
    else Custom([Ident(name, None)], [])
  }

  /**
   A native name reads back as a type of the same row exactly when it is the PostgreSQL name: always for
   PostgreSQL, and for SQLite just where the two names are the same.
   */
  lemma {:induction false} NativeNameIsFixedIff(m: Marker, b: Backend)
    ensures MapType(ReadName(RowOf(m).Native(b))) == Some(RowOf(m)) <==> b.Postgres? || RowOf(m).sqlite == RowOf(m).pg
  {
    match b
    case Postgres => PostgresNameIsFixed(m);
    case Sqlite => SqliteNameIsFixedIff(m);
  }

  lemma {:induction false} PostgresNameIsFixed(m: Marker)
    ensures MapType(ReadName(RowOf(m).pg)) == Some(RowOf(m))
  {
    match m
    case UuidMarker =>
    case TimestampMarker =>
    case JsonMarker =>
    case BytesMarker =>
    case DecimalMarker =>
    case TextMarker =>
    case SmallIntMarker =>
    case IntegerMarker =>
    case BigIntMarker =>
    case FloatMarker =>
    case BoolMarker =>
  }

  lemma {:induction false} SqliteNameIsFixedIff(m: Marker)
    ensures MapType(ReadName(RowOf(m).sqlite)) == Some(RowOf(m)) <==> RowOf(m).sqlite == RowOf(m).pg
  {
    match m
    case UuidMarker =>
    case TimestampMarker =>
    case JsonMarker =>
    case BytesMarker =>
    case DecimalMarker =>
    case TextMarker =>
    case SmallIntMarker =>
    case IntegerMarker =>
    case BigIntMarker =>
    case FloatMarker =>
    case BoolMarker =>
  }

  function Reread(dt: DataType): DataType {
    match dt
    case Custom(name, _) => if |name| == 1 then ReadName(name[0].value) else dt
    case _ => dt
  }

  function RereadColumns(columns: seq<ColumnDef>): (r: seq<ColumnDef>)
    ensures |r| == |columns|
    ensures forall i :: 0 <= i < |r| ==> r[i] == columns[i].(dataType := Reread(columns[i].dataType))
  {
    if columns == [] then []
    else
      var c := columns[|columns| - 1];
      RereadColumns(columns[..|columns| - 1]) + [c.(dataType := Reread(c.dataType))]
  }

  function RereadOp(op: AlterOp): AlterOp {
    if op.AddColumn? then op.(def := op.def.(dataType := Reread(op.def.dataType))) else op
  }

  function RereadOps(ops: seq<AlterOp>): (r: seq<AlterOp>)
    ensures |r| == |ops| && forall i :: 0 <= i < |r| ==> r[i] == RereadOp(ops[i])
  {
    seq(|ops|, i requires 0 <= i < |ops| => RereadOp(ops[i]))
  }

  /** The statement as parsing its printed form gives it: native names read as types. */
  function RereadStatement(s: Statement): Statement {
    match s
    case CreateTable(_, _, columns, _, _, _) => s.(columns := RereadColumns(columns))
    case AlterTable(_, _, ops) => s.(operations := RereadOps(ops))
    case _ => s
  }

  /** A column written for PostgreSQL and read back: same row, same marker, same native type. */
  lemma {:induction false} PostgresTypeIsFixed(dt: DataType)
    requires MapType(dt).Some?
    ensures MapType(Reread(NativeType(MapType(dt).value, Postgres))) == MapType(dt)
  {
    var m := MapType(dt).value.marker;
    assert MapType(dt).value == RowOf(m);
    NativeNameIsFixedIff(m, Postgres);
  }

  function Again(columns: seq<ColumnDef>): (r: seq<ColumnDef>)
    requires AllMapped(columns)
    ensures |r| == |columns|
  {
    RereadColumns(NativeColumns(columns, Postgres))
  }

  lemma {:induction false} ColumnsAgain(columns: seq<ColumnDef>)
    requires AllMapped(columns)
    ensures AllMapped(Again(columns))
    ensures forall b :: NativeColumns(Again(columns), b) == NativeColumns(columns, b)
    ensures ColumnsOf(Again(columns)) == ColumnsOf(columns)
  {
    forall i | 0 <= i < |columns|
      ensures SameButSpelling(Again(columns)[i], columns[i])
    {
      PostgresTypeIsFixed(columns[i].dataType);
    }
    SpellingDoesNotMatter(Again(columns), columns);
  }

  /** Two definitions that differ at most in how a type of the same row is written. */
  predicate SameButSpelling(x: ColumnDef, y: ColumnDef) {
    MapType(x.dataType) == MapType(y.dataType) && x.name == y.name && x.options == y.options
  }

  lemma {:induction false} SpellingDoesNotMatter(x: seq<ColumnDef>, y: seq<ColumnDef>)
    requires |x| == |y| && AllMapped(y) && forall i :: 0 <= i < |x| ==> SameButSpelling(x[i], y[i])
    ensures AllMapped(x)
    ensures forall b :: NativeColumns(x, b) == NativeColumns(y, b)
    ensures ColumnsOf(x) == ColumnsOf(y)
  {
    assert forall i :: 0 <= i < |x| ==> MapType(x[i].dataType).Some? by {
      assert forall i :: 0 <= i < |x| ==> SameButSpelling(x[i], y[i]);
    }
  }

  lemma {:induction false} InlineAgain(columns: seq<ColumnDef>)
    requires AllMapped(columns)
    ensures InlineKeys(Again(columns)) == InlineKeys(columns) && InlineRefs(Again(columns)) == InlineRefs(columns)
  {
    if columns != [] {
      InlineAgain(columns[..|columns| - 1]);
      assert NativeColumns(columns, Postgres)[..|columns| - 1] == NativeColumns(columns[..|columns| - 1], Postgres);
      assert Again(columns)[..|columns| - 1] == Again(columns[..|columns| - 1]);
    }
  }

  lemma {:induction false} KeysAgain(columns: seq<ColumnDef>, constraints: seq<TableConstraint>)
    requires AllMapped(columns)
    ensures KeysOf(Again(columns), constraints) == KeysOf(columns, constraints)
    ensures RefsOf(Again(columns), constraints) == RefsOf(columns, constraints)
  {
    if constraints == [] {
      InlineAgain(columns);
    } else {
      KeysAgain(columns, constraints[..|constraints| - 1]);
    }
  }

  lemma {:induction false} CreatedAgain(name: ObjectName, columns: seq<ColumnDef>, constraints: seq<TableConstraint>)
    requires AllMapped(columns)
    ensures Created(name, Again(columns), constraints) == Created(name, columns, constraints)
  {
    ColumnsAgain(columns);
    KeysAgain(columns, constraints);
    AllMappedHasNone(columns);
    AllMappedHasNone(Again(columns));
  }

  lemma {:induction false} AllMappedHasNone(columns: seq<ColumnDef>)
    ensures AllMapped(columns) <==> FirstUnmapped(columns, 0).None?
  {
  }

  lemma {:induction false} OpAgain(tables: seq<ModelTable>, name: string, op: AlterOp)
    requires OpMapped(op)
    ensures OpMapped(RereadOp(NativeOp(op, Postgres)))
    ensures forall b :: NativeOp(RereadOp(NativeOp(op, Postgres)), b) == NativeOp(op, b)
    ensures ApplyOp(tables, name, RereadOp(NativeOp(op, Postgres))) == ApplyOp(tables, name, op)
  {
    if op.AddColumn? {
      PostgresTypeIsFixed(op.def.dataType);
    }
  }

  function OpsOnceMore(ops: seq<AlterOp>): (r: seq<AlterOp>)
    requires forall i :: 0 <= i < |ops| ==> OpMapped(ops[i])
    ensures |r| == |ops| && forall i :: 0 <= i < |r| ==> r[i] == RereadOp(NativeOp(ops[i], Postgres))
  {
    RereadOps(NativeOps(ops, Postgres))
  }

  lemma {:induction false} OpsAgain(tables: seq<ModelTable>, name: string, ops: seq<AlterOp>)
    requires forall i :: 0 <= i < |ops| ==> OpMapped(ops[i])
    ensures ApplyOps(tables, name, OpsOnceMore(ops)) == ApplyOps(tables, name, ops)
    decreases |ops|
  {
    if ops != [] {
      OpAgain(tables, name, ops[0]);
      assert OpsOnceMore(ops)[1..] == OpsOnceMore(ops[1..]);
      OpsAgain(ApplyOp(tables, name, ops[0]).tables, name, ops[1..]);
    }
  }

  lemma {:induction false} NativeOpsAgain(ops: seq<AlterOp>)
    requires forall i :: 0 <= i < |ops| ==> OpMapped(ops[i])
    ensures forall i :: 0 <= i < |ops| ==> OpMapped(OpsOnceMore(ops)[i])
    ensures forall b :: NativeOps(OpsOnceMore(ops), b) == NativeOps(ops, b)
  {
    forall i | 0 <= i < |ops|
      ensures OpMapped(OpsOnceMore(ops)[i])
      ensures forall b :: NativeOp(OpsOnceMore(ops)[i], b) == NativeOp(ops[i], b)
    {
      OpAgain([], "", ops[i]);
    }
  }

  /** One statement, written for PostgreSQL and read back: same effect on the model, same text for either backend. */
  lemma {:induction false} StatementIsFixed(tables: seq<ModelTable>, s: Statement, b: Backend)
    requires Rewritten(s, Postgres).Ok?
    ensures ApplyStatement(tables, RereadStatement(Rewritten(s, Postgres).value)) == ApplyStatement(tables, s)
    ensures Rewritten(RereadStatement(Rewritten(s, Postgres).value), b) == Rewritten(s, b)
  {
    match s
    case CreateTable(name, _, columns, constraints, _, _) =>
      AllMappedHasNone(columns);
      ColumnsAgain(columns);
      CreatedAgain(name, columns, constraints);
      AllMappedHasNone(Again(columns));
    case AlterTable(name, _, ops) =>
      OpsAgain(tables, LastIdent(name), ops);
      NativeOpsAgain(ops);
    case _ =>
  }

  function RereadAll(statements: seq<Statement>): seq<Statement> {
    if statements == [] then [] else [RereadStatement(statements[0])] + RereadAll(statements[1..])
  }

  /** The statements of a PostgreSQL migration read back. */
  function SecondTime(statements: seq<Statement>): seq<Statement> {
    RereadAll(AllRewritten(statements, Postgres))
  }

  lemma {:induction false} SecondTimeFront(statements: seq<Statement>)
    requires StatementsMapped(statements) && statements != []
    ensures Rewritten(statements[0], Postgres).Ok?
    ensures SecondTime(statements) == [RereadStatement(Rewritten(statements[0], Postgres).value)] +
            SecondTime(statements[1..])
  {
    assert AllMapped(Definitions(statements[0]));
    RewritingChangesOnlyTypes(statements[0], Postgres);
    assert AllRewritten(statements, Postgres)[1..] == AllRewritten(statements[1..], Postgres);
  }

  /** The whole fold and the whole rendering are fixed, and so are the names a derived down drops. */
  lemma {:induction false} StatementsAreFixed(lib: SqlLibrary, tables: seq<ModelTable>, statements: seq<Statement>,
                                              b: Backend)
    requires StatementsMapped(statements)
    ensures Fold(tables, SecondTime(statements)) == Fold(tables, statements)
    ensures StatementPieces(lib, SecondTime(statements), b) == StatementPieces(lib, statements, b)
    decreases |statements|
  {
    if statements != [] {
      SecondTimeFront(statements);
      var s := statements[0];
      StatementIsFixed(tables, s, b);
      assert SecondTime(statements)[1..] == SecondTime(statements[1..]);
      StatementsAreFixed(lib, ApplyStatement(tables, s).tables, statements[1..], b);
    }
  }

  // ----- Scripts without tagged blocks -----

  predicate AllShared(segments: seq<Segment>) {
    forall i :: 0 <= i < |segments| ==> segments[i].Shared?
  }

  /** A migration that segments into shared chunks only. */
  predicate TagFree(m: Migration) {
    Segmented(Text.Lines(m.upSql)).Ok? && AllShared(Segmented(Text.Lines(m.upSql)).value)
  }

  /** The up.sql of such a migration is its statements, written for the backend. */
  lemma {:induction false} PlainUp(lib: SqlLibrary, segments: seq<Segment>, b: Backend)
    requires AllShared(segments) && SharedStatements(lib, segments).Ok?
    ensures UpPieces(lib, segments, b) == StatementPieces(lib, SharedStatements(lib, segments).value, b)
  {
    if segments != [] {
      PlainUp(lib, segments[1..], b);
      PiecesAppend(lib, Parsed(lib, segments[0].sql).value, SharedStatements(lib, segments[1..]).value, b);
    }
  }

  lemma {:induction false} PiecesAppend(lib: SqlLibrary, x: seq<Statement>, y: seq<Statement>, b: Backend)
    ensures StatementPieces(lib, x + y, b) == Then(StatementPieces(lib, x, b), StatementPieces(lib, y, b))
  {
    if x == [] {
      assert x + y == y;
      BeforeNothing(StatementPieces(lib, y, b));
    } else {
      assert (x + y)[1..] == x[1..] + y;
      PiecesAppend(lib, x[1..], y, b);
      if Rewritten(x[0], b).Ok? && StatementPieces(lib, x[1..], b).Ok? {
        BeforeBefore([lib.show(Rewritten(x[0], b).value) + ";"], StatementPieces(lib, x[1..], b).value,
                     StatementPieces(lib, y, b));
      }
    }
  }

  // ----- The generated text as input -----

  /** A generated migration as it is written out, every text ended by a line feed. */
  function WrittenOut(r: RenderedMigration): Migration {
    Migration(r.dirName, r.upSql + "\n", Some(r.downSql + "\n"))
  }

  /** A text that segmentation leaves alone: no line is a directive, and no line feed follows a carriage return. */
  predicate OneChunk(text: string) {
    && !HasCrLf(text)
    && forall i :: 0 <= i < |Text.Lines(text)| ==> Directive(Text.Lines(text)[i]).None?
  }

  lemma {:induction false} LinesAreWhole(text: string)
    requires !HasCrLf(text) && text != "" && text[|text| - 1] == '\n'
    ensures Text.Unlines(Text.Lines(text)) == text
    decreases |text|
  {
    var n := Text.LineEnd(text);
    assert n < |text|;
    var l, rest := text[..n], text[n + 1..];
    assert text == l + "\n" + rest;
    assert Text.StripCr(l) == l by {
      assert n > 0 ==> text[n - 1] == l[n - 1] && text[n - 1 + 1] == '\n';
    }
    if rest != "" {
      assert rest[|rest| - 1] == text[|text| - 1];
      assert !HasCrLf(rest) by {
        assert forall i :: 0 <= i < |rest| ==> rest[i] == text[n + 1 + i];
      }
      LinesAreWhole(rest);
    }
    UnlinesFront(l, Text.Lines(rest));
  }

  lemma {:induction false} UnlinesFront(l: string, ls: seq<string>)
    ensures Text.Unlines([l] + ls) == l + "\n" + Text.Unlines(ls)
  {
    assert ([l] + ls)[1..] == ls;
  }

  /** Such a text is one shared chunk, or none if it is blank. */
  lemma {:induction false} OneChunkSegments(text: string)
    requires OneChunk(text) && text != "" && text[|text| - 1] == '\n'
    ensures Segmented(Text.Lines(text)) == Ok(if Text.Blank(text) then [] else [Shared(text)])
  {
    LinesAreWhole(text);
    if Text.Blank(text) {
      BlankRun(Text.Lines(text));
    } else {
      SegmentedOneRun(Text.Lines(text));
    }
  }

  lemma {:induction false} BlankRun(ls: seq<string>)
    requires forall i :: 0 <= i < |ls| ==> Directive(ls[i]).None?
    requires Text.Blank(Text.Unlines(ls))
    ensures Segmented(ls) == Ok([])
  {
    CutOrdinary(ls);
    var p := Pieces([ls], []);
    EvenPart(p, 0);
    OnePart(p);
    NoMarksNoFault();
  }

  /** A text of at least one statement shows its semicolon. */
  lemma {:induction false} JoinedHas(parts: seq<string>, sep: string, c: char)
    requires parts != [] && c in parts[0]
    ensures c in Text.Join(parts, sep)
  {
  }

  lemma {:induction false} StatementsShow(lib: SqlLibrary, statements: seq<Statement>, b: Backend)
    requires statements != [] && StatementPieces(lib, statements, b).Ok?
    ensures var text := Text.Join(StatementPieces(lib, statements, b).value, "\n\n") + "\n"; !Text.Blank(text)
  {
    var pieces := StatementPieces(lib, statements, b).value;
    var first := lib.show(Rewritten(statements[0], b).value) + ";";
    assert pieces[0] == first && first[|first| - 1] == ';';
    JoinedHas(pieces, "\n\n", ';');
    var text := Text.Join(pieces, "\n\n") + "\n";
    var i :| 0 <= i < |Text.Join(pieces, "\n\n")| && Text.Join(pieces, "\n\n")[i] == ';';
    assert text[i] == ';' && !Text.IsSpace(';');
  }

  /**
   What is asked of the SQL library on one migration: the generated PostgreSQL text parses to the statements it
   was printed from, with the native names read as types.
   */
  predicate ReadsBack(lib: SqlLibrary, script: seq<Statement>, up: string) {
    script != [] ==> lib.parse(up + "\n") == Ok(SecondTime(script))
  }

  /** The statements of a migration whose text is one chunk. */
  lemma {:induction false} ChunkStatements(lib: SqlLibrary, m: Migration, statements: seq<Statement>)
    requires OneChunk(m.upSql) && m.upSql != "" && m.upSql[|m.upSql| - 1] == '\n'
    requires if Text.Blank(m.upSql) then statements == [] else lib.parse(m.upSql) == Ok(statements)
    ensures TagFree(m) && StatementsOf(lib, m) == Ok(statements)
  {
    OneChunkSegments(m.upSql);
    var segments := Segmented(Text.Lines(m.upSql)).value;
    if segments != [] {
      assert segments[1..] == [];
      assert SharedStatements(lib, []) == Ok([]);
      assert statements + [] == statements;
    }
  }

  /** The statements of a written-out migration are those of the original, read back. */
  lemma {:induction false} WrittenOutStatements(lib: SqlLibrary, script: seq<Statement>, r: RenderedMigration)
    requires StatementPieces(lib, script, Postgres).Ok?
    requires r.upSql == Text.Join(StatementPieces(lib, script, Postgres).value, "\n\n")
    requires OneChunk(r.upSql + "\n") && ReadsBack(lib, script, r.upSql)
    ensures TagFree(WrittenOut(r)) && StatementsOf(lib, WrittenOut(r)) == Ok(SecondTime(script))
  {
    if script == [] {
      assert r.upSql + "\n" == "\n" && Text.IsSpace('\n');
    } else {
      StatementsShow(lib, script, Postgres);
    }
    ChunkStatements(lib, WrittenOut(r), SecondTime(script));
  }

  // ----- Trimming the down twice -----

  lemma {:induction false} TrimEndStops(s: string)
    ensures var t := Text.TrimEnd(s); t == "" || !Text.IsSpace(t[|t| - 1])
  {
    if s != "" && Text.IsSpace(s[|s| - 1]) {
      TrimEndStops(s[..|s| - 1]);
    }
  }

  lemma {:induction false} TrimEndOnceMore(t: string)
    requires t == "" || !Text.IsSpace(t[|t| - 1])
    ensures Text.TrimEnd(t + "\n") == t
  {
    var s := t + "\n";
    assert s[|s| - 1] == '\n' && s[..|s| - 1] == t;
  }

  lemma {:induction false} JoinEnds(parts: seq<string>, sep: string, c: char)
    requires forall i :: 0 <= i < |parts| ==> parts[i] != "" && parts[i][|parts[i]| - 1] == c
    ensures var t := Text.Join(parts, sep); t == "" || t[|t| - 1] == c
    ensures parts != [] ==> Text.Join(parts, sep) != ""
  {
    if |parts| > 1 {
      assert forall i :: 0 <= i < |parts[1..]| ==> parts[1..][i] == parts[i + 1];
      JoinEnds(parts[1..], sep, c);
      var t, rest := Text.Join(parts, sep), Text.Join(parts[1..], sep);
      assert t[|t| - 1] == rest[|rest| - 1];
    }
  }

  lemma {:induction false} DropTextsEnd(created: seq<string>)
    ensures forall i :: 0 <= i < |DropTexts(created)| ==>
              DropTexts(created)[i] != "" && DropTexts(created)[i][|DropTexts(created)[i]| - 1] == ';'
  {
    if created != [] {
      DropTextsEnd(created[..|created| - 1]);
    }
  }

  /** A down, given or derived, is its own trimming. */
  lemma {:induction false} DownIsTrimmed(lib: SqlLibrary, m: Migration, segments: seq<Segment>)
    requires DownFor(lib, m, segments).Ok?
    ensures Text.TrimEnd(DownFor(lib, m, segments).value + "\n") == DownFor(lib, m, segments).value
  {
    match m.downSql
    case Some(d) =>
      TrimEndStops(d);
      TrimEndOnceMore(Text.TrimEnd(d));
    case None =>
      DropTextsEnd(CreatedIn(lib, segments).value);
      JoinEnds(DropTexts(CreatedIn(lib, segments).value), "\n", ';');
      TrimEndOnceMore(DownFor(lib, m, segments).value);
  }

  // ----- Generating twice -----

  /** What is asked of each migration of a list: no tagged block, and a PostgreSQL text that reads back. */
  predicate Repeatable(lib: SqlLibrary, m: Migration, r: RenderedMigration) {
    && TagFree(m) && StatementsOf(lib, m).Ok?
    && OneChunk(r.upSql + "\n") && ReadsBack(lib, StatementsOf(lib, m).value, r.upSql)
  }

  /** What a successful step is made of. */
  lemma {:induction false} StepFields(lib: SqlLibrary, tables: seq<ModelTable>, m: Migration)
    requires MigrationStep(lib, tables, m).Ok?
    ensures Segmented(Text.Lines(m.upSql)).Ok?
    ensures var segments := Segmented(Text.Lines(m.upSql)).value; var step := MigrationStep(lib, tables, m).value;
            && DownFor(lib, m, segments).Ok? && UpText(lib, segments, Postgres).Ok? && UpText(lib, segments, Sqlite).Ok?
            && step.postgres == RenderedMigration(m.dirName, UpText(lib, segments, Postgres).value,
                                                  DownFor(lib, m, segments).value)
            && step.sqlite == RenderedMigration(m.dirName, UpText(lib, segments, Sqlite).value,
                                                DownFor(lib, m, segments).value)
  {
  }

  /** One tag-free migration, written out for PostgreSQL and generated again: the same step. */
  lemma {:induction false} MigrationAgain(lib: SqlLibrary, tables: seq<ModelTable>, m: Migration, step: Step)
    requires MigrationStep(lib, tables, m) == Ok(step) && Repeatable(lib, m, step.postgres)
    ensures MigrationStep(lib, tables, WrittenOut(step.postgres)) == Ok(step)
  {
    var segments, script := Segmented(Text.Lines(m.upSql)).value, StatementsOf(lib, m).value;
    StepFields(lib, tables, m);
    OnlyTheModelRejects(lib, tables, m);
    PlainUp(lib, segments, Postgres);
    WrittenOutStatements(lib, script, step.postgres);
    FixedScript(lib, tables, script);
    DownIsTrimmed(lib, m, segments);
    SameStep(lib, tables, m, WrittenOut(step.postgres));
  }

  lemma {:induction false} FixedScript(lib: SqlLibrary, tables: seq<ModelTable>, script: seq<Statement>)
    requires Fold(tables, script).result.Ok?
    ensures Fold(tables, SecondTime(script)) == Fold(tables, script)
    ensures forall b :: StatementPieces(lib, SecondTime(script), b) == StatementPieces(lib, script, b)
  {
    FoldedIsMapped(tables, script);
    forall b: Backend
      ensures StatementPieces(lib, SecondTime(script), b) == StatementPieces(lib, script, b)
    {
      StatementsAreFixed(lib, tables, script, b);
    }
    StatementsAreFixed(lib, tables, script, Postgres);
  }

  /** Two tag-free migrations of one name whose statements fold and render alike and whose downs agree are one step. */
  lemma {:induction false} SameStep(lib: SqlLibrary, tables: seq<ModelTable>, m: Migration, again: Migration)
    requires MigrationStep(lib, tables, m).Ok? && TagFree(m) && TagFree(again) && again.dirName == m.dirName
    requires StatementsOf(lib, m).Ok? && StatementsOf(lib, again) == Ok(SecondTime(StatementsOf(lib, m).value))
    requires Fold(tables, SecondTime(StatementsOf(lib, m).value)) == Fold(tables, StatementsOf(lib, m).value)
    requires forall b :: StatementPieces(lib, SecondTime(StatementsOf(lib, m).value), b) ==
               StatementPieces(lib, StatementsOf(lib, m).value, b)
    requires again.downSql.Some?
    requires Ok(Text.TrimEnd(again.downSql.value)) == DownFor(lib, m, Segmented(Text.Lines(m.upSql)).value)
    ensures MigrationStep(lib, tables, again) == MigrationStep(lib, tables, m)
  {
    OnlyTheModelRejects(lib, tables, m);
    OnlyTheModelRejects(lib, tables, again);
    StepFields(lib, tables, m);
    StepFields(lib, tables, again);
    SameUps(lib, Segmented(Text.Lines(m.upSql)).value, Segmented(Text.Lines(again.upSql)).value,
            StatementsOf(lib, m).value);
  }

  lemma {:induction false} SameUps(lib: SqlLibrary, x: seq<Segment>, y: seq<Segment>, script: seq<Statement>)
    requires AllShared(x) && AllShared(y)
    requires SharedStatements(lib, x) == Ok(script) && SharedStatements(lib, y) == Ok(SecondTime(script))
    requires forall b :: StatementPieces(lib, SecondTime(script), b) == StatementPieces(lib, script, b)
    ensures forall b :: UpText(lib, y, b) == UpText(lib, x, b)
  {
    forall b: Backend
      ensures UpPieces(lib, y, b) == UpPieces(lib, x, b)
    {
      PlainUp(lib, x, b);
      PlainUp(lib, y, b);
    }
  }

  function AllWrittenOut(rs: seq<RenderedMigration>): (ms: seq<Migration>)
    ensures |ms| == |rs| && forall i :: 0 <= i < |ms| ==> ms[i] == WrittenOut(rs[i])
  {
    seq(|rs|, i requires 0 <= i < |rs| => WrittenOut(rs[i]))
  }

  predicate AllRepeatable(lib: SqlLibrary, migrations: seq<Migration>, rs: seq<RenderedMigration>) {
    |rs| == |migrations| && forall i :: 0 <= i < |rs| ==> Repeatable(lib, migrations[i], rs[i])
  }

  lemma {:induction false} RepeatableParts(lib: SqlLibrary, migrations: seq<Migration>, rs: seq<RenderedMigration>)
    requires migrations != [] && AllRepeatable(lib, migrations, rs)
    ensures Repeatable(lib, migrations[0], rs[0]) && AllRepeatable(lib, migrations[1..], rs[1..])
  {
    assert forall i :: 0 <= i < |rs[1..]| ==> migrations[1..][i] == migrations[i + 1] && rs[1..][i] == rs[i + 1];
  }

  lemma {:induction false} StepsAgain(lib: SqlLibrary, tables: seq<ModelTable>, migrations: seq<Migration>,
                                      steps: seq<Step>)
    requires Steps(lib, tables, migrations) == Ok(steps)
    requires AllRepeatable(lib, migrations, PostgresOf(steps))
    ensures Steps(lib, tables, AllWrittenOut(PostgresOf(steps))) == Ok(steps)
    decreases |migrations|
  {
    if migrations != [] {
      var step, later := steps[0], steps[1..];
      StepsFront(lib, tables, migrations);
      assert PostgresOf(steps)[0] == step.postgres && PostgresOf(steps)[1..] == PostgresOf(later);
      RepeatableParts(lib, migrations, PostgresOf(steps));
      MigrationAgain(lib, tables, migrations[0], step);
      StepsAgain(lib, step.tables, migrations[1..], later);
      var again := AllWrittenOut(PostgresOf(steps));
      assert again[0] == WrittenOut(step.postgres) && again[1..] == AllWrittenOut(PostgresOf(later));
      assert steps == [step] + later;
      FirstAndLater(lib, tables, again, step, later);
    }
  }

  lemma {:induction false} FirstAndLater(lib: SqlLibrary, tables: seq<ModelTable>, migrations: seq<Migration>,
                                         step: Step, later: seq<Step>)
    requires migrations != [] && MigrationStep(lib, tables, migrations[0]) == Ok(step)
    requires Steps(lib, step.tables, migrations[1..]) == Ok(later)
    ensures Steps(lib, tables, migrations) == Ok([step] + later)
  {
  }

  lemma {:induction false} StepsFront(lib: SqlLibrary, tables: seq<ModelTable>, migrations: seq<Migration>)
    requires migrations != [] && Steps(lib, tables, migrations).Ok?
    ensures var steps := Steps(lib, tables, migrations).value;
            && MigrationStep(lib, tables, migrations[0]) == Ok(steps[0])
            && Steps(lib, steps[0].tables, migrations[1..]) == Ok(steps[1..])
  {
    var step := MigrationStep(lib, tables, migrations[0]).value;
    var rest := Steps(lib, step.tables, migrations[1..]).value;
    assert Steps(lib, tables, migrations).value == [step] + rest;
  }

  /**
   Generating from the generated PostgreSQL tree, as it is written out, reproduces everything: both trees, downs
   included, and `schema.rs`. It is asked of each original migration that it has no tagged block, of its generated
   text that no line looks like a directive or ends in a carriage return, and of the SQL library that it reads
   that text back.
   */
  lemma {:induction false} RegeneratingReproduces(lib: SqlLibrary, migrations: seq<Migration>)
    requires GeneratedFrom(lib, migrations).Ok?
    requires AllRepeatable(lib, migrations, GeneratedFrom(lib, migrations).value.postgres)
    ensures GeneratedFrom(lib, AllWrittenOut(GeneratedFrom(lib, migrations).value.postgres)) ==
            GeneratedFrom(lib, migrations)
  {
    StepsAgain(lib, [], migrations, Steps(lib, [], migrations).value);
  }
}
