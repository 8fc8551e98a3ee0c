/** The whole generator: every migration segmented, folded, and rendered for both backends. */
module Generate {
  import opened Wrappers
  import opened Sql
  import opened Segments
  import opened SchemaModel
  import opened Rendering
  import opened RenderingLaws
  import opened SchemaText
  import Text

  datatype Migration = Migration(dirName: string, upSql: string, downSql: Option<string>)

  datatype RenderedMigration = RenderedMigration(dirName: string, upSql: string, downSql: string)

  datatype Generated = Generated(postgres: seq<RenderedMigration>, sqlite: seq<RenderedMigration>, schemaRs: string)

  // ----- Specification -----

  /** Fold the shared chunks of one migration, chunk by chunk. */
  function FoldSegments(lib: SqlLibrary, tables: seq<ModelTable>, segments: seq<Segment>): Outcome
    decreases |segments|
  {
    if segments == [] then Outcome(tables, Ok(()))
    else
      match segments[0]
      case Tagged(_, _) => FoldSegments(lib, tables, segments[1..])
      case Shared(sql) =>
        match Parsed(lib, sql)
        case Err(e) => Outcome(tables, Err(e))
        case Ok(statements) =>
          var o := Fold(tables, statements);
          if o.result.Err? then o else FoldSegments(lib, o.tables, segments[1..])
  }

  function DownFor(lib: SqlLibrary, m: Migration, segments: seq<Segment>): Result<string, Error> {
    match m.downSql
    case Some(d) => Ok(Text.TrimEnd(d))
    case None => DownText(lib, segments)
  }

  /** What one migration contributes: the tables after it, and its two renderings. */
  datatype Step = Step(tables: seq<ModelTable>, postgres: RenderedMigration, sqlite: RenderedMigration)

  function MigrationStep(lib: SqlLibrary, tables: seq<ModelTable>, m: Migration): Result<Step, Error> {
    match Segmented(Text.Lines(m.upSql))
    case Err(e) => Err(InMigration(m.dirName, e))
    case Ok(segments) =>
      var o := FoldSegments(lib, tables, segments);
      match o.result
      case Err(e) => Err(InMigration(m.dirName, e))
      case Ok(_) =>
        match DownFor(lib, m, segments)
        case Err(e) => Err(InMigration(m.dirName, e))
        case Ok(down) =>
          match UpText(lib, segments, Postgres)
          case Err(e) => Err(InMigration(m.dirName, e))
          case Ok(pg) =>
            match UpText(lib, segments, Sqlite)
            case Err(e) => Err(InMigration(m.dirName, e))
            case Ok(sqlite) =>
              Ok(Step(o.tables, RenderedMigration(m.dirName, pg, down), RenderedMigration(m.dirName, sqlite, down)))
  }

  /** All migrations in turn; one step for each. */
  function Steps(lib: SqlLibrary, tables: seq<ModelTable>, migrations: seq<Migration>): (r: Result<seq<Step>, Error>)
    ensures r.Ok? ==> |r.value| == |migrations|
    decreases |migrations|
  {
    if migrations == [] then Ok([])
    else
      match MigrationStep(lib, tables, migrations[0])
      case Err(e) => Err(e)
      case Ok(step) => Before([step], Steps(lib, step.tables, migrations[1..]))
  }

  function TablesAfter(tables: seq<ModelTable>, steps: seq<Step>): seq<ModelTable> {
    if steps == [] then tables else steps[|steps| - 1].tables
  }

  function PostgresOf(steps: seq<Step>): (r: seq<RenderedMigration>)
    ensures |r| == |steps| && forall i :: 0 <= i < |r| ==> r[i] == steps[i].postgres
  {
    seq(|steps|, i requires 0 <= i < |steps| => steps[i].postgres)
  }

  function SqliteOf(steps: seq<Step>): (r: seq<RenderedMigration>)
    ensures |r| == |steps| && forall i :: 0 <= i < |r| ==> r[i] == steps[i].sqlite
  {
    seq(|steps|, i requires 0 <= i < |steps| => steps[i].sqlite)
  }

  function GeneratedFrom(lib: SqlLibrary, migrations: seq<Migration>): Result<Generated, Error> {
    match Steps(lib, [], migrations)
    case Err(e) => Err(e)
    case Ok(steps) => Ok(Generated(PostgresOf(steps), SqliteOf(steps),
                                   Text.Unlines(SchemaLines(TablesAfter([], steps)))))
  }

  // ----- The methods -----

  method FoldStatements(model: Model, statements: seq<Statement>) returns (r: Result<(), Error>)
    modifies model
    ensures Outcome(model.tables, r) == Fold(old(model.tables), statements)
  {
    for i := 0 to |statements|
      invariant Fold(old(model.tables), statements) == Fold(model.tables, statements[i..])
    {
      assert statements[i..][0] == statements[i] && statements[i..][1..] == statements[i + 1..];
      var o := model.Apply(statements[i]);
      if o.Err? {
        return o;
      }
    }
    r := Ok(());
  }

  /** Build the model from the shared segments. */
  method FoldShared(lib: SqlLibrary, model: Model, segments: seq<Segment>) returns (r: Result<(), Error>)
    modifies model
    ensures Outcome(model.tables, r) == FoldSegments(lib, old(model.tables), segments)
  {
    for i := 0 to |segments|
      invariant FoldSegments(lib, old(model.tables), segments) == FoldSegments(lib, model.tables, segments[i..])
    {
      assert segments[i..][0] == segments[i] && segments[i..][1..] == segments[i + 1..];
      if segments[i].Shared? {
        var statements := Parsed(lib, segments[i].sql);
        if statements.Err? {
          return Err(statements.error);
        }
        var o := FoldStatements(model, statements.value);
        if o.Err? {
          return o;
        }
      }
    }
    r := Ok(());
  }

  method RenderMigration(lib: SqlLibrary, model: Model, m: Migration) returns (r: Result<Step, Error>)
    modifies model
    ensures r == MigrationStep(lib, old(model.tables), m)
    ensures r.Ok? ==> model.tables == r.value.tables
  {
    var segmented := SegmentText(m.upSql);
    if segmented.Err? {
      return Err(InMigration(m.dirName, segmented.error));
    }
    var segments := segmented.value;
    var folded := FoldShared(lib, model, segments);
    if folded.Err? {
      return Err(InMigration(m.dirName, folded.error));
    }
    var down: Result<string, Error>;
    match m.downSql {
      case Some(d) => down := Ok(Text.TrimEnd(d));
      case None => down := DeriveDown(lib, segments);
    }
    if down.Err? {
      return Err(InMigration(m.dirName, down.error));
    }
    var pg := RenderUp(lib, segments, Postgres);
    if pg.Err? {
      return Err(InMigration(m.dirName, pg.error));
    }
    var sqlite := RenderUp(lib, segments, Sqlite);
    if sqlite.Err? {
      return Err(InMigration(m.dirName, sqlite.error));
    }
    r := Ok(Step(model.tables, RenderedMigration(m.dirName, pg.value, down.value),
                 RenderedMigration(m.dirName, sqlite.value, down.value)));
  }

  lemma {:induction false} OneMoreStep(lib: SqlLibrary, migrations: seq<Migration>, i: nat, steps: seq<Step>,
                                       tables: seq<ModelTable>)
    requires i < |migrations| && Steps(lib, [], migrations) == Before(steps, Steps(lib, tables, migrations[i..]))
    ensures var step := MigrationStep(lib, tables, migrations[i]);
            match step
            case Err(e) => Steps(lib, [], migrations) == Err(e)
            case Ok(s) => Steps(lib, [], migrations) == Before(steps + [s], Steps(lib, s.tables, migrations[i + 1..]))
  {
    assert migrations[i..][0] == migrations[i] && migrations[i..][1..] == migrations[i + 1..];
    var step := MigrationStep(lib, tables, migrations[i]);
    if step.Ok? {
      BeforeBefore(steps, [step.value], Steps(lib, step.value.tables, migrations[i + 1..]));
    }
  }

  lemma {:induction false} Recorded(steps: seq<Step>, s: Step)
    ensures PostgresOf(steps + [s]) == PostgresOf(steps) + [s.postgres]
    ensures SqliteOf(steps + [s]) == SqliteOf(steps) + [s.sqlite]
    ensures TablesAfter([], steps + [s]) == s.tables
  {
  }

  lemma {:induction false} AllSteps(lib: SqlLibrary, migrations: seq<Migration>, steps: seq<Step>,
                                    tables: seq<ModelTable>)
    requires Steps(lib, [], migrations) == Before(steps, Steps(lib, tables, []))
    ensures Steps(lib, [], migrations) == Ok(steps)
  {
    assert steps + [] == steps;
  }

  /** `generate`. */
  method GenerateAll(lib: SqlLibrary, migrations: seq<Migration>) returns (r: Result<Generated, Error>)
    ensures r == GeneratedFrom(lib, migrations)
  {
    var model := new Model();
    var postgres: seq<RenderedMigration> := [];
    var sqlite: seq<RenderedMigration> := [];
    ghost var steps: seq<Step> := [];
    BeforeNothing(Steps(lib, [], migrations));
    assert migrations[0..] == migrations;
    for i := 0 to |migrations|
      invariant Steps(lib, [], migrations) == Before(steps, Steps(lib, model.tables, migrations[i..]))
      invariant model.tables == TablesAfter([], steps) && postgres == PostgresOf(steps) && sqlite == SqliteOf(steps)
    {
      OneMoreStep(lib, migrations, i, steps, model.tables);
      var step := RenderMigration(lib, model, migrations[i]);
      if step.Err? {
        return Err(step.error);
      }
      Recorded(steps, step.value);
      steps := steps + [step.value];
      postgres := postgres + [step.value.postgres];
      sqlite := sqlite + [step.value.sqlite];
    }
    assert migrations[|migrations|..] == [];
    AllSteps(lib, migrations, steps, model.tables);
    var schemaRs := RenderSchemaRs(model);
    r := Ok(Generated(postgres, sqlite, schemaRs));
  }

  // ----- When generation succeeds -----

  /** The shared statements of one migration, if its text segments and its chunks parse. */
  function StatementsOf(lib: SqlLibrary, m: Migration): Result<seq<Statement>, Error> {
    match Segmented(Text.Lines(m.upSql))
    case Err(e) => Err(e)
    case Ok(segments) => SharedStatements(lib, segments)
  }

  function AllStatements(lib: SqlLibrary, migrations: seq<Migration>): Result<seq<Statement>, Error> {
    if migrations == [] then Ok([])
    else Then(StatementsOf(lib, migrations[0]), AllStatements(lib, migrations[1..]))
  }

  lemma {:induction false} FoldSegmentsIsFold(lib: SqlLibrary, tables: seq<ModelTable>, segments: seq<Segment>)
    ensures FoldSegments(lib, tables, segments).result.Ok? <==>
            SharedStatements(lib, segments).Ok? && Fold(tables, SharedStatements(lib, segments).value).result.Ok?
    ensures FoldSegments(lib, tables, segments).result.Ok? ==>
            FoldSegments(lib, tables, segments).tables == Fold(tables, SharedStatements(lib, segments).value).tables
    decreases |segments|
  {
    if segments != [] {
      match segments[0]
      case Tagged(_, _) =>
        FoldSegmentsIsFold(lib, tables, segments[1..]);
      case Shared(sql) =>
        if Parsed(lib, sql).Ok? {
          var statements := Parsed(lib, sql).value;
          var o := Fold(tables, statements);
          FoldSegmentsIsFold(lib, o.tables, segments[1..]);
          if SharedStatements(lib, segments[1..]).Ok? {
            FoldAppend(tables, statements, SharedStatements(lib, segments[1..]).value);
          }
        }
    }
  }

  /** After the model has taken a migration, nothing that follows can fail. */
  lemma {:induction false} OnlyTheModelRejects(lib: SqlLibrary, tables: seq<ModelTable>, m: Migration)
    ensures MigrationStep(lib, tables, m).Ok? <==>
            StatementsOf(lib, m).Ok? && Fold(tables, StatementsOf(lib, m).value).result.Ok?
    ensures MigrationStep(lib, tables, m).Ok? ==>
            MigrationStep(lib, tables, m).value.tables == Fold(tables, StatementsOf(lib, m).value).tables
  {
    match Segmented(Text.Lines(m.upSql))
    case Err(_) =>
    case Ok(segments) =>
      FoldSegmentsIsFold(lib, tables, segments);
      if FoldSegments(lib, tables, segments).result.Ok? {
        FoldedIsMapped(tables, SharedStatements(lib, segments).value);
        RenderingSucceeds(lib, segments, Postgres);
        RenderingSucceeds(lib, segments, Sqlite);
      }
  }

  lemma {:induction false} FoldThen(tables: seq<ModelTable>, x: Result<seq<Statement>, Error>,
                                    y: Result<seq<Statement>, Error>)
    ensures Then(x, y).Ok? && Fold(tables, Then(x, y).value).result.Ok? <==>
            && x.Ok? && Fold(tables, x.value).result.Ok?
            && y.Ok? && Fold(Fold(tables, x.value).tables, y.value).result.Ok?
    ensures Then(x, y).Ok? && Fold(tables, x.value).result.Ok? ==>
            Fold(tables, Then(x, y).value).tables == Fold(Fold(tables, x.value).tables, y.value).tables
  {
    if x.Ok? && y.Ok? {
      FoldAppend(tables, x.value, y.value);
    }
  }

  lemma {:induction false} StepsFromFirst(lib: SqlLibrary, tables: seq<ModelTable>, migrations: seq<Migration>)
    requires migrations != [] && MigrationStep(lib, tables, migrations[0]).Ok?
    ensures var later := Steps(lib, MigrationStep(lib, tables, migrations[0]).value.tables, migrations[1..]);
            && (Steps(lib, tables, migrations).Ok? <==> later.Ok?)
            && (later.Ok? ==> TablesAfter(tables, Steps(lib, tables, migrations).value) ==
                              TablesAfter(MigrationStep(lib, tables, migrations[0]).value.tables, later.value))
  {
  }

  lemma {:induction false} StepsSucceedIff(lib: SqlLibrary, tables: seq<ModelTable>, migrations: seq<Migration>)
    ensures Steps(lib, tables, migrations).Ok? <==>
            AllStatements(lib, migrations).Ok? && Fold(tables, AllStatements(lib, migrations).value).result.Ok?
    ensures Steps(lib, tables, migrations).Ok? ==>
            TablesAfter(tables, Steps(lib, tables, migrations).value) ==
                Fold(tables, AllStatements(lib, migrations).value).tables
    decreases |migrations|
  {
    if migrations != [] {
      var m, rest := migrations[0], migrations[1..];
      OnlyTheModelRejects(lib, tables, m);
      FoldThen(tables, StatementsOf(lib, m), AllStatements(lib, rest));
      if MigrationStep(lib, tables, m).Ok? {
        StepsFromFirst(lib, tables, migrations);
        StepsSucceedIff(lib, MigrationStep(lib, tables, m).value.tables, rest);
      }
    }
  }

  /**
   Generation succeeds exactly when every migration segments, every shared chunk parses and the fold over all
   of them succeeds: no unmapped type or unknown table can first show up while rendering. The schema printed
   is that of the whole fold.
   */
  lemma {:induction false} GenerationSucceedsIff(lib: SqlLibrary, migrations: seq<Migration>)
    ensures GeneratedFrom(lib, migrations).Ok? <==>
            AllStatements(lib, migrations).Ok? && Fold([], AllStatements(lib, migrations).value).result.Ok?
    ensures GeneratedFrom(lib, migrations).Ok? ==>
            GeneratedFrom(lib, migrations).value.schemaRs ==
              Text.Unlines(SchemaLines(Fold([], AllStatements(lib, migrations).value).tables))
  {
    StepsSucceedIff(lib, [], migrations);
  }

  // ----- What comes out for each migration -----

  lemma {:induction false} StepAt(lib: SqlLibrary, tables: seq<ModelTable>, migrations: seq<Migration>, i: nat)
    returns (before: seq<ModelTable>)
    requires Steps(lib, tables, migrations).Ok? && i < |migrations|
    ensures MigrationStep(lib, before, migrations[i]) == Ok(Steps(lib, tables, migrations).value[i])
    decreases |migrations|
  {
    var first := MigrationStep(lib, tables, migrations[0]).value;
    if i == 0 {
      before := tables;
    } else {
      before := StepAt(lib, first.tables, migrations[1..], i - 1);
    }
  }

  /** The part of a text up to its last visible character. */
  ghost predicate CutAfterLast(text: string, cut: string) {
    && (exists b :: Text.Blank(b) && text == cut + b)
    && (cut != "" ==> !Text.IsSpace(cut[|cut| - 1]))
  }

  /**
   Each migration comes out under its own name and in its place, with one down for both backends; a down of its own
   is kept up to its last visible character.
   */
  lemma {:induction false} EachMigrationComesOut(lib: SqlLibrary, migrations: seq<Migration>, i: nat)
    requires GeneratedFrom(lib, migrations).Ok? && i < |migrations|
    ensures var g := GeneratedFrom(lib, migrations).value;
            && |g.postgres| == |g.sqlite| == |migrations|
            && g.postgres[i].dirName == g.sqlite[i].dirName == migrations[i].dirName
            && g.postgres[i].downSql == g.sqlite[i].downSql
            && (migrations[i].downSql.Some? ==> CutAfterLast(migrations[i].downSql.value, g.postgres[i].downSql))
  {
    var before := StepAt(lib, [], migrations, i);
    if migrations[i].downSql.Some? {
      var d := migrations[i].downSql.value;
      Text.TrimEndIff(d, Text.TrimEnd(d));
    }
  }

  // ----- What is reported -----

  /** Chunk k is the first that does not parse or fold, and e says why. */
  ghost predicate ChunkFails(lib: SqlLibrary, tables: seq<ModelTable>, segments: seq<Segment>, k: nat, e: Error) {
    && k < |segments| && segments[k].Shared?
    && SharedStatements(lib, segments[..k]).Ok?
    && var before := Fold(tables, SharedStatements(lib, segments[..k]).value);
       && before.result.Ok?
       && match lib.parse(segments[k].sql)
          case Err(message) => e == SqlParseError(message)
          case Ok(statements) => Fold(before.tables, statements).result == Err(e)
  }

  /** Why a migration is refused: its text does not segment, or one of its chunks fails. */
  ghost predicate Refused(lib: SqlLibrary, tables: seq<ModelTable>, m: Migration, e: Error) {
    match Segmented(Text.Lines(m.upSql))
    case Err(fault) => e == fault
    case Ok(segments) => exists k: nat :: ChunkFails(lib, tables, segments, k, e)
  }

  lemma {:induction false} FailingChunk(lib: SqlLibrary, tables: seq<ModelTable>, segments: seq<Segment>)
    returns (k: nat)
    requires FoldSegments(lib, tables, segments).result.Err?
    ensures ChunkFails(lib, tables, segments, k, FoldSegments(lib, tables, segments).result.error)
    decreases |segments|
  {
    match segments[0]
    case Tagged(_, _) =>
      var later := FailingChunk(lib, tables, segments[1..]);
      k := later + 1;
      assert segments[..k][1..] == segments[1..][..later];
    case Shared(sql) =>
      if Parsed(lib, sql).Err? || Fold(tables, Parsed(lib, sql).value).result.Err? {
        k := 0;
        assert segments[..0] == [];
      } else {
        var statements := Parsed(lib, sql).value;
        var next := Fold(tables, statements).tables;
        var later := FailingChunk(lib, next, segments[1..]);
        k := later + 1;
        assert segments[..k][1..] == segments[1..][..later];
        FoldAppend(tables, statements, SharedStatements(lib, segments[1..][..later]).value);
      }
  }

  lemma {:induction false} FailingStep(lib: SqlLibrary, tables: seq<ModelTable>, m: Migration)
    requires MigrationStep(lib, tables, m).Err?
    ensures var e := MigrationStep(lib, tables, m).error;
            e.InMigration? && e.dirName == m.dirName && Refused(lib, tables, m, e.error)
  {
    OnlyTheModelRejects(lib, tables, m);
    match Segmented(Text.Lines(m.upSql))
    case Err(_) =>
    case Ok(segments) =>
      FoldSegmentsIsFold(lib, tables, segments);
      var k := FailingChunk(lib, tables, segments);
  }

  lemma {:induction false} FailingMigration(lib: SqlLibrary, tables: seq<ModelTable>, migrations: seq<Migration>)
    returns (k: nat)
    requires Steps(lib, tables, migrations).Err?
    ensures k < |migrations| && Steps(lib, tables, migrations[..k]).Ok?
    ensures MigrationStep(lib, TablesAfter(tables, Steps(lib, tables, migrations[..k]).value), migrations[k]) ==
            Err(Steps(lib, tables, migrations).error)
    decreases |migrations|
  {
    match MigrationStep(lib, tables, migrations[0])
    case Err(_) =>
      k := 0;
      assert migrations[..0] == [];
    case Ok(step) =>
      var later := FailingMigration(lib, step.tables, migrations[1..]);
      k := later + 1;
      assert migrations[..k][1..] == migrations[1..][..later];
      StepsFromFirst(lib, tables, migrations[..k]);
  }

  /**
   Where generation fails, all migrations before one of them generate, and the error names that one: because its text
   does not segment, or else for its first chunk that does not parse or fold on what the earlier ones made.
   */
  lemma {:induction false} FirstFailureIsReported(lib: SqlLibrary, migrations: seq<Migration>) returns (k: nat)
    requires GeneratedFrom(lib, migrations).Err?
    ensures k < |migrations| && GeneratedFrom(lib, migrations[..k]).Ok? && AllStatements(lib, migrations[..k]).Ok?
    ensures var e := GeneratedFrom(lib, migrations).error;
            && e.InMigration? && e.dirName == migrations[k].dirName
            && Refused(lib, Fold([], AllStatements(lib, migrations[..k]).value).tables, migrations[k], e.error)
  {
    k := FailingMigration(lib, [], migrations);
    StepsSucceedIff(lib, [], migrations[..k]);
    FailingStep(lib, TablesAfter([], Steps(lib, [], migrations[..k]).value), migrations[k]);
  }

  // ----- Adding migrations -----

  lemma {:induction false} StepsAppend(lib: SqlLibrary, tables: seq<ModelTable>, a: seq<Migration>, b: seq<Migration>)
    requires Steps(lib, tables, a + b).Ok?
    ensures Steps(lib, tables, a).Ok? && Steps(lib, tables, a).value <= Steps(lib, tables, a + b).value
    decreases |a|
  {
    if a != [] {
      assert (a + b)[1..] == a[1..] + b;
      StepsAppend(lib, MigrationStep(lib, tables, a[0]).value.tables, a[1..], b);
    }
  }

  /** Appending migrations never changes what was generated for the earlier ones, down included. */
  lemma {:induction false} GenerationIsAppendOnly(lib: SqlLibrary, a: seq<Migration>, b: seq<Migration>)
    requires GeneratedFrom(lib, a + b).Ok?
    ensures GeneratedFrom(lib, a).Ok?
    ensures GeneratedFrom(lib, a).value.postgres <= GeneratedFrom(lib, a + b).value.postgres
    ensures GeneratedFrom(lib, a).value.sqlite <= GeneratedFrom(lib, a + b).value.sqlite
  {
    StepsAppend(lib, [], a, b);
    var few, all := Steps(lib, [], a).value, Steps(lib, [], a + b).value;
    assert forall i :: 0 <= i < |few| ==> few[i] == all[i];
  }
}
