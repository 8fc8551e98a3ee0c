# Verification of diesel-dualdb's schema compiler, timestamp codec and enum codec

diesel-dualdb lets one Rust program run on PostgreSQL or SQLite. Three parts of it carry promises that
nothing in its code checks. This project models them in Dafny and proves what the promises come to.

**The schema compiler** (`diesel-dualdb-cli/src/lib.rs`) reads logical migrations and writes a PostgreSQL DDL
tree, a SQLite DDL tree and one `schema.rs`. Its passes are separate: a line-directed segmenter, a stateful
fold of statements into a table model, a type rewrite per backend, a derived `down.sql` and a printer. The
project gives the DDL an executable catalogue semantics per backend (`Catalog`), independent of the fold, and
compares the two after every single change. A catalogue holds the tables and whatever else there is in a database
(indexes, triggers, views, sequences, types): the names these have taken, the tables they hang on, and whether they
go with such a table or, in PostgreSQL, keep it from being dropped.

**The timestamp codec** (`src/types/timestamp.rs`) stores UTC instants as fixed-width text so that text order
is time order. Order is defined on an instant count over the Gregorian calendar, and the decoder is a scanner
for the `date-time` grammar of section 5.6 of RFC 3339.

**The enum codec** (`diesel-dualdb-macros/src/lib.rs`) stores variants by label and reads them by first match.

The modules follow the passes: `Text`, `Sql`, `Segments`, `SegmentLaws`, `SegmentStability`, `SchemaModel`,
`FoldLaws`, `Rendering`, `RenderingLaws`, `Catalog`, `CatalogRules`, `Simulation`, `Ignored`, `Written`, `Altering`,
`Misread`, `Drift`, `Advised`, `Sound`, `Dropping`, `Undo`, `SchemaText`, `SchemaInWriting`, `ImportLaws`,
`SchemaParser`, `Generate`, `EndToEnd`, `OutputInWriting`, `Regenerate`; then `Calendar`, `Digits`, `Timestamp`,
`TimestampReader`; then `EnumLabels`.
`dafny verify dfyconfig.toml` checks everything.

Laws that compare one function with another leave open what both take for granted: spellings, signs, calendar
figures. Those are stated on their own, in letters and figures, by the lemmas called `…InWriting`, `…InFigures`,
`…ByPosition` and the like; and `CatalogRules` says rule by rule what each database takes and what comes of it.

Code that changes things step by step is a method with a loop, or a method of the class `Model`, proved equal
to a specification function; the laws are lemmas about those functions. Failures are structured `Error` values in
place of message texts.

Two things are arbitrary. The SQL library is a pair of functions, `parse` and `show`; nothing else is assumed of
them unless a lemma says so in its `requires`. And a `Database` answers by arbitrary functions what the syntax tree
does not decide: the name it reads in an identifier (quotes removed, case folded) and whether that can name a table
at all, whether an unread column option forbids NULL, the columns of an AS query, what a constraint name denotes, what
there is besides tables after a CREATE TABLE or an ALTER TABLE, and the effect of every statement, operation and
tagged block that the generator passes through unread. The results hold for all such databases, so none of this is
taken to be harmless: where it matters it is part of the condition.

## What turned out

- **Schema and database can drift.** The documentation says they cannot
  (`docs/explanation/schema-generation.md:32-34`). `Drift.SchemaAndDdlCannotDriftIff` gives the exact condition,
  change by change, in terms of the model and the catalogue before the change (`Drift.Followed`). These are not
  followed:
  - a table without a declared key, of which `schema.rs` prints the first column as the key, and a column added
    to a table without columns, unless it brings the key along;
  - a column that is not declared `NOT NULL` and whose nullability another declaration decides: a table-level
    `PRIMARY KEY` (PostgreSQL, and SQLite's `STRICT` and `WITHOUT ROWID`), an inline `PRIMARY KEY` that SQLite
    does not take as `NOT NULL`, a lone integer column of a table-level key (SQLite), an identity column, or an
    unread option that forbids NULL;
  - `CREATE TABLE` with `AS` and a query that gives columns, `TEMPORARY` tables, and `IF NOT EXISTS` meeting an
    existing table or column, or a view or anything else that has the name (`Drift.TakenNameDrifts`);
  - any name that shows and that the database reads otherwise than it is written, such as an unquoted `userId`
    in PostgreSQL (`Drift.FoldedNameDrifts`);
  - `DROP TABLE` of a table that is there, renames, `ALTER COLUMN` that changes nullability or type, `DROP
    CONSTRAINT` of a key, `ADD COLUMN` with an inline reference, or with an inline key and no `NOT NULL`, and a
    PostgreSQL `DROP COLUMN` of a column that takes part in a key;
  - any other statement, operation or tagged block that shows in tables, columns, keys or references.

  `Drift.TableKeyDriftsOnPostgres` is a concrete script, and `Drift.KeylessTableDrifts` a whole family of them.
  Tables of the shape the documentation shows (`docs/how-to/generate-schema-and-migrations.md:17-23`) are accepted by
  every PostgreSQL and SQLite database and followed (`Advised.AdvisedTableIsFollowed`).
- **The derived `down.sql` undoes its migration exactly under a condition** that `Undo.DownRestoresIff` states for
  every migration that leaves the tables already there alone, whatever it does besides. `Undo.OwnChangesExtend`
  shows that migrations that create tables and alter only those are of this kind. The down fails to undo
  - whatever the migration adds that goes with no created table: an index on an older table, a view, a type. A
    migration without a CREATE TABLE gets an empty down, which undoes it only if it did nothing
    (`Undo.NothingCreatedNothingUndone`); `docs/reference/schema-gen.md:37-38` says as much for indexes;
  - in PostgreSQL, a created table that a view hangs on, which it refuses to drop (`Dropping.PinnedDownIsRefused`);
  - an `IF NOT EXISTS` that met an existing table, which the down drops, and a dropped name that something other than
    a table has;
  - a table called `"order"` or `"User"`, as the down writes names without qualifiers and quotes;
  - in PostgreSQL, a name repeated after a table that refers to it.

  Otherwise it restores everything, indexes on the created tables included (`Undo.DownRestoresIffFresh`), and so do
  the downs of a whole generated tree (`EndToEnd.GeneratedStackUndoes`).
- **Timestamps outside the years 0 to 9999** are written but cannot be read back, and years above 9999 sort
  before four-digit years (`TimestampReader.RoundTripIff`, `Timestamp.SortsRightlyIff`).
- **Segmenting is stable under re-printing if and only if no segment holds a carriage return before a line
  feed** (`SegmentStability.SegmentationIsStableIff`); a line that ends in two carriage returns loses one on
  every pass.
- Native PostgreSQL type names read back as the same logical row; SQLite names do only where both backends
  spell the type alike (`Regenerate.NativeNameIsFixedIff`). So generating from the written-out PostgreSQL tree
  reproduces the whole output, the SQLite tree included (`Regenerate.RegeneratingReproduces`).
- The code and its documentation disagree in two small points, and the model follows the code: a tagged block
  is trimmed and its line endings normalised, where `docs/how-to/diverge-per-backend.md:66` says verbatim; and
  `NUMERIC` is mapped, where `docs/reference/schema-gen.md:55` says it is not.

## Model

| member | source | states |
|---|---|---|
| Segments.SegmentText | diesel-dualdb-cli/src/lib.rs:444-493 | the one-pass loop computes the segments read off by position after cutting the text at its directive lines, or the fault of the first directive out of place |
| SegmentLaws.DirectiveIff | diesel-dualdb-cli/src/lib.rs:450 | a line is a directive of a name if and only if it is white space, the letters of the prefix, white space, the name, and white space |
| SegmentLaws.OrdinaryIff | diesel-dualdb-cli/src/lib.rs:450 | it is an ordinary line if and only if the prefix does not follow any white space at its front |
| SegmentLaws.BlockInWriting | diesel-dualdb-cli/src/lib.rs:449-483 | a block written with the two directive lines, for any ordinary body, is a block of the backend its first line names |
| SegmentLaws.BlockBetweenChunks | diesel-dualdb-cli/src/lib.rs:449-491 | between two chunks with a visible character it cuts the text in exactly three |
| SegmentLaws.Acceptance | diesel-dualdb-cli/src/lib.rs:449-488 | segmentation succeeds if and only if the directives form (known backend, end) pairs |
| SegmentLaws.FirstFaultIsReported | diesel-dualdb-cli/src/lib.rs:452-488 | segmentation reports an error exactly if it is that of the first directive out of place (an opening inside a block, an end outside one, or another name, which is reported), or all are in place and the last block is not closed |
| SegmentLaws.Conservation | diesel-dualdb-cli/src/lib.rs:449-491 | the segment bodies, end to end, are all ordinary lines once and in order, less only the shared runs that are blank as a whole; no line with a visible character is lost |
| SegmentLaws.SegmentInvertsPrint | diesel-dualdb-cli/src/lib.rs:444-493 | every normal-form segment list is recovered exactly from its printed text |
| SegmentStability.SegmentationIsStableIff | diesel-dualdb-cli/src/lib.rs:449-491 | printing the segments of any accepted text and segmenting again gives the same list if and only if no body holds a carriage return before a line feed |
| SegmentStability.CarriageReturnIsUnstable | diesel-dualdb-cli/src/lib.rs:449-483 | the concrete text on which a second pass changes the result |
| Text.TrimIsEmptyIffBlank | diesel-dualdb-cli/src/lib.rs:456-460 | the emptiness test on trimmed text holds exactly of text made of white space |
| Text.WhiteSpace | diesel-dualdb-cli/src/lib.rs:450-484 | the white space characters, by their code points |
| Text.TrimIff | diesel-dualdb-cli/src/lib.rs:450-484 | the trimmed text is the one part of a text that has white space around it and none at its own ends |
| Text.TrimEndIff | diesel-dualdb-cli/src/lib.rs:577 | trimming the end takes white space away and stops before anything else |
| Text.LinesByTerminator | diesel-dualdb-cli/src/lib.rs:449 | a text is cut at its first line feed, less one carriage return before it; a last line needs neither |
| Text.JoinBetween | diesel-dualdb-cli/src/lib.rs:412 | joining puts the separator between any two parts and nowhere else |
| Text.LinesOfUnlines | diesel-dualdb-cli/src/lib.rs:449-483 | splitting text written line by line gives the lines back |
| SchemaModel.ReadOptions | diesel-dualdb-cli/src/lib.rs:160-189 | a column is nullable unless declared NOT NULL or PRIMARY KEY, and its keys and references are collected in order |
| SchemaModel.ReadColumns | diesel-dualdb-cli/src/lib.rs:160-189 | the error names the first column whose type has no mapping; otherwise every column is read with the marker of its type, in order |
| SchemaModel.ReadTable | diesel-dualdb-cli/src/lib.rs:154-215 | the table built from columns and constraints has the keys and references of both, inline ones first |
| SchemaModel.Model.constructor | diesel-dualdb-cli/src/lib.rs:141-144 | a new model has no tables |
| SchemaModel.Model.FindTable | diesel-dualdb-cli/src/lib.rs:147-149 | the first table with the name is found, or there is none |
| SchemaModel.Model.RetainColumns | diesel-dualdb-cli/src/lib.rs:244-248 | all columns but those of the dropped name stay, in order |
| SchemaModel.Model.ApplyOperation | diesel-dualdb-cli/src/lib.rs:218-262 | one ALTER operation changes the named table in place and no other; the outcome and whole new state are those of the specification |
| SchemaModel.Model.Apply | diesel-dualdb-cli/src/lib.rs:152-268 | one statement folded in place, with the state left behind on failure |
| SchemaModel.FoldAppend | diesel-dualdb-cli/src/lib.rs:565-573 | folding two scripts in a row is folding their concatenation, and stops at the first failure |
| SchemaModel.KeysByPosition | diesel-dualdb-cli/src/lib.rs:170-200 | the last table-level key counts alone; without one the columns marked as keys count, in order |
| SchemaModel.OptionKeysCount | diesel-dualdb-cli/src/lib.rs:170-175 | a column counts once for every inline PRIMARY KEY it has |
| SchemaModel.NameIsLast | diesel-dualdb-cli/src/lib.rs:105-110 | a table goes by the last identifier of its name, without qualifiers and quotes |
| SchemaModel.CreateFailure | diesel-dualdb-cli/src/lib.rs:160-166 | a CREATE TABLE fails on its first column without a mapping, which is named with its table and type, and changes nothing |
| SchemaModel.AlterFailure | diesel-dualdb-cli/src/lib.rs:222-243 | an ALTER TABLE fails on its first ADD COLUMN without a mapping, or else without a table; what came before it remains |
| FoldLaws.FoldDecomposes | diesel-dualdb-cli/src/lib.rs:147-268 | the fold succeeds if and only if for every name the fold of just the statements on that name does, and then each table is the one its own statements give |
| FoldLaws.ReorderingAcrossTables | diesel-dualdb-cli/src/lib.rs:152-268 | scripts that agree on every single table succeed together and give the same tables, whatever the interleaving |
| FoldLaws.TablesAreTheCreatedOnes | diesel-dualdb-cli/src/lib.rs:208-214 | the table names after a fold are the earlier ones followed by the created ones, in order; nothing else adds, removes or renames |
| Rendering.RewriteColumns | diesel-dualdb-cli/src/lib.rs:372-378 | every column gets its native type, or the error names the first unmapped one |
| Rendering.RewriteOps | diesel-dualdb-cli/src/lib.rs:379-389 | the same for added columns, leaving the other operations alone |
| Rendering.RewriteTypes | diesel-dualdb-cli/src/lib.rs:370-393 | the rewritten statement, or the error of its first unmapped column |
| Rendering.RenderStatements | diesel-dualdb-cli/src/lib.rs:401-404 | every statement of a chunk rewritten and printed, in order |
| Rendering.RenderUp | diesel-dualdb-cli/src/lib.rs:396-413 | the text of one backend: shared statements and own blocks in order, joined by empty lines |
| Rendering.CollectCreated | diesel-dualdb-cli/src/lib.rs:421-425 | the names a chunk creates are appended in order |
| Rendering.DeriveDown | diesel-dualdb-cli/src/lib.rs:417-434 | one DROP TABLE IF EXISTS per created name, last name first |
| RenderingLaws.RewritingChangesOnlyTypes | diesel-dualdb-cli/src/lib.rs:370-393 | rewriting succeeds if and only if every column type is mapped, and the result differs from the statement in nothing but those types |
| RenderingLaws.RewritingFailure | diesel-dualdb-cli/src/lib.rs:370-393 | otherwise the error names the first column without a mapping, its table and its type |
| Sql.TableInWriting | diesel-dualdb-cli/src/lib.rs:70-102 | every logical type has exactly the promised three spellings, letter by letter: both native names, as unquoted single words, and the full marker path; no other type has any |
| RenderingLaws.BackendsAgree | diesel-dualdb-cli/src/lib.rs:396-413 | the text of either backend is that of one common sequence of pieces, filtered to what the backend keeps |
| RenderingLaws.NothingLostOrGained | diesel-dualdb-cli/src/lib.rs:406-409 | what a backend keeps holds all shared statements, all of its own blocks and none of the other's |
| RenderingLaws.FoldedIsMapped | diesel-dualdb-cli/src/lib.rs:152-268 | a script the model accepts has a native type for every column either backend must write |
| RenderingLaws.RenderingSucceeds | diesel-dualdb-cli/src/lib.rs:396-434 | once the chunks parse and the types are mapped neither rendering nor the derived down can fail, and the latter lists exactly the created tables |
| Simulation.SingleKey | diesel-dualdb-cli/src/lib.rs:160-207 | where the database finds at most one key declaration, the model's flat list of key columns is that key |
| Simulation.AllFksAreRefs | diesel-dualdb-cli/src/lib.rs:174-206 | the foreign keys a database builds, listed by column, are the pairs the model collects |
| Simulation.CreatedColumnMatches | diesel-dualdb-cli/src/lib.rs:160-195 | a created column agrees in name, type and nullability if and only if NOT NULL is declared or the inline-key rule of the model says what the options and the key of the database say |
| Simulation.CreateStep | diesel-dualdb-cli/src/lib.rs:154-215 | after an accepted CREATE TABLE, of any form, whose name nothing but a table may have, printed table and database table match if and only if no table had the name, a key is declared or there are no columns, and every nullability is followed |
| Simulation.AddColumnStep | diesel-dualdb-cli/src/lib.rs:222-243 | after an accepted ADD COLUMN they match if and only if the column was new, refers to nothing, has its nullability declared where anything forbids NULL, and the printed key stays right |
| Simulation.KeysLeftIff | diesel-dualdb-cli/src/lib.rs:244-248 | a dropped column leaves the foreign keys as the model keeps them if and only if it took part in none |
| Altering.DropColumnStep | diesel-dualdb-cli/src/lib.rs:244-248 | after an accepted DROP COLUMN they match if and only if the column takes part in no key that goes with it, other than a key printed for want of a declared one |
| Altering.AddConstraintStep | diesel-dualdb-cli/src/lib.rs:249-261 | after an accepted ADD CONSTRAINT they match; a key cannot be added to a state that matches |
| Ignored.RenamesShow | diesel-dualdb-cli/src/lib.rs:261 | every accepted rename shows in the database, which the model does not follow |
| Ignored.AlterColumnShows | diesel-dualdb-cli/src/lib.rs:261 | an accepted ALTER COLUMN, which the model ignores, shows in the database unless the column is already as it would have it |
| Ignored.DropConstraintShows | diesel-dualdb-cli/src/lib.rs:261 | an accepted DROP CONSTRAINT shows exactly if it takes the primary key or a foreign key with it |
| Ignored.DropTableShows | diesel-dualdb-cli/src/lib.rs:265 | an accepted DROP TABLE, of one or several tables, with or without CASCADE, shows exactly if one of them was there |
| Ignored.MatchesSame | diesel-dualdb-cli/src/lib.rs:261-265 | where the model stays as it was, it still matches if and only if the database shows no change |
| Written.MatchForcesWritten | diesel-dualdb-cli/src/lib.rs:154-215 | a created table can only match if the database reads every name that shows as it is written |
| Written.WrittenModel | diesel-dualdb-cli/src/lib.rs:154-215 | and for names so read the model is the same whether it takes them as written or as read |
| Misread.ModelIgnoresIff | diesel-dualdb-cli/src/lib.rs:218-262 | the model takes an operation and stays as it was if and only if the operation is of a kind it ignores, drops a column the table lacks, or is no ADD COLUMN and on a table it lacks |
| Misread.MisreadOpHere | diesel-dualdb-cli/src/lib.rs:222-261 | an accepted operation that changes a table in the model, and whose names the database reads otherwise than written, makes them differ |
| Drift.ActionStep | diesel-dualdb-cli/src/lib.rs:152-268 | for every single change a database accepts on a matching state, the model takes it and matches afterwards if and only if the change is followed: a condition per kind of change on the states before it, in which a created name must be free among tables and everything else |
| Drift.NeverDriftsIffFollowed | diesel-dualdb-cli/src/lib.rs:152-268 | over whole runs from any matching state, up to the first refusal: they match after every change if and only if every change is followed |
| Drift.ActionsOfAllRewritten | diesel-dualdb-cli/src/lib.rs:370-393 | the changes made by a rewritten script are the script's own changes with native types |
| Drift.FoldIsApplyAll | diesel-dualdb-cli/src/lib.rs:216-264 | folding a script is applying its changes one by one |
| Drift.SchemaAndDdlCannotDriftIff | docs/explanation/schema-generation.md:32-34 | for every folded script and every database, schema and database match after every change, from the empty database on, if and only if each change is followed; and then at the end of a script the database takes whole |
| Drift.BothDatabasesHaveOneShape | docs/explanation/schema-generation.md:24-34 | a PostgreSQL and a SQLite database that take and follow scripts of one model have the same tables, columns, nullability, keys and references |
| Advised.AdvisedTableIsFollowed | docs/how-to/generate-schema-and-migrations.md:17-66 | a CREATE TABLE under a new name, with NOT NULL key columns declared inline or for the table, references to tables that are there and no other options, is accepted by every PostgreSQL and SQLite database, and schema.rs matches it |
| Drift.TableKeyDriftsOnPostgres | diesel-dualdb-cli/src/lib.rs:193-195 | a concrete accepted table on which schema and PostgreSQL database disagree in nullability |
| Drift.KeylessTableDrifts | diesel-dualdb-cli/src/lib.rs:129-138 | every accepted table with columns and no declared key drifts, on either backend |
| Drift.TakenNameDrifts | diesel-dualdb-cli/src/lib.rs:154-215 | an accepted CREATE TABLE whose name something other than a table has always drifts: it creates nothing, and the model adds a table |
| Drift.FoldedNameDrifts | diesel-dualdb-cli/src/lib.rs:160-189 | every accepted table with a column whose name the database reads otherwise drifts |
| Sound.ExecKeepsSound | diesel-dualdb-cli/src/lib.rs:396-413 | every accepted change keeps table names unique and, in PostgreSQL, leaves no foreign key dangling, given that what the generator passes through unread does |
| Sound.RunsKeepSound | diesel-dualdb-cli/src/lib.rs:396-413 | so does every run |
| Dropping.DropTextsAreDrops | diesel-dualdb-cli/src/lib.rs:428-433 | where the SQL library prints a DROP in the usual way, the derived text is the printing of the drop statements |
| Dropping.DropsAcceptedIff | diesel-dualdb-cli/src/lib.rs:428-433 | the down is accepted if and only if its bare names are legal, nothing but a table has one of them when its turn comes and, in PostgreSQL, no view hangs on a table it drops and every table that refers to one is dropped before it; then exactly the tables its names are read as are gone, whether or not the migration made them, with all that goes with them |
| Dropping.PinnedDownIsRefused | diesel-dualdb-cli/src/lib.rs:428-433 | PostgreSQL refuses the down of a table a view hangs on |
| Undo.DownRestoresIff | diesel-dualdb-cli/src/lib.rs:415-434 | for every accepted migration that leaves the tables already there alone, whatever else it does, the derived down restores the whole catalogue if and only if its bare names are legal and droppable, no table of theirs was there before, every new table goes by one of them, and all else the migration added, and nothing else, goes with the dropped tables |
| Undo.NothingCreatedNothingUndone | diesel-dualdb-cli/src/lib.rs:417-434 | a migration that creates no table, such as one of CREATE INDEX, is undone if and only if it did nothing |
| Undo.OwnChangesExtend | diesel-dualdb-cli/src/lib.rs:154-262 | a migration that creates tables and alters only those leaves every table that was there exactly as it was |
| Undo.DownRestoresIffFresh | diesel-dualdb-cli/src/lib.rs:415-434 | for CREATE TABLEs under names that need no quotes, beside statements on other things, on SQLite always and on PostgreSQL where the created names differ, it restores the catalogue if and only if no created name was there before and all else the migration added goes with a created table and blocks no drop |
| Undo.DownUndoesUp | diesel-dualdb-cli/src/lib.rs:417-434 | for new and different names that need no quotes, with indexes and whatever else goes with the created tables, running the drops after the creations gives back the catalogue, on either backend |
| Undo.DownRetracesUp | diesel-dualdb-cli/src/lib.rs:428-433 | at every cut of the migration the drops of the later part, if the down goes through, lead exactly to the tables the up had there |
| Undo.NoDropOrphans | diesel-dualdb-cli/src/lib.rs:428-433 | where foreign keys only lead to tables that are there, no point of a down that goes through leaves one dangling, on SQLite as on PostgreSQL: no single drop removes a table that one still there refers to |
| Undo.StackUndoes | diesel-dualdb-cli/src/lib.rs:558-590 | a whole stack of migrations, each undoable where it runs, undone in reverse leads back to the start |
| SchemaText.MarkerPartsOfMarker | diesel-dualdb-cli/src/lib.rs:312-315 | splitting the full path of any marker at its last separator gives its module path and short name |
| SchemaText.CollectNames | diesel-dualdb-cli/src/lib.rs:318-334 | the two lists of used names, each once in order of first use, with Nullable added where a column needs it |
| SchemaText.RenderColumns | diesel-dualdb-cli/src/lib.rs:350-358 | one line per column in order |
| SchemaText.RenderImports | diesel-dualdb-cli/src/lib.rs:335-344 | the sorted imports of both crates, none, one or a braced list each |
| SchemaText.RenderTable | diesel-dualdb-cli/src/lib.rs:317-361 | the growing string is the specified lines of the block |
| SchemaText.RenderBlocks | diesel-dualdb-cli/src/lib.rs:274 | one block per table in order |
| SchemaText.RenderJoins | diesel-dualdb-cli/src/lib.rs:278-286 | one joinable line per foreign key, by table and by key |
| SchemaText.RenderSchemaRs | diesel-dualdb-cli/src/lib.rs:270-301 | the growing string is the specified lines of the file |
| SchemaInWriting.FileInWriting | diesel-dualdb-cli/src/lib.rs:270-361 | the file of two tables, one without a declared key that refers to one with a key of two columns, line by line and letter by letter for any names; and the file of none |
| ImportLaws.SortSorts | diesel-dualdb-cli/src/lib.rs:335-336 | sorting gives a strictly ascending list of the same names |
| Text.LessIff | diesel-dualdb-cli/src/lib.rs:335-336 | the order sorted by: at the first difference the text that ends or has the smaller character comes first |
| ImportLaws.ImportsAreExact | diesel-dualdb-cli/src/lib.rs:318-336 | both import lists are sorted, free of duplicates and hold exactly the names used, Nullable if and only if some column is nullable |
| ImportLaws.ImportsResolve | diesel-dualdb-cli/src/lib.rs:317-358 | each column's short name resolves through the imports to the full marker its type was mapped to, and comes from one list only |
| SchemaParser.TableParses | diesel-dualdb-cli/src/lib.rs:317-361 | one block is read back, whatever follows it |
| SchemaParser.SchemaRoundTrip | diesel-dualdb-cli/src/lib.rs:270-361 | parsing the printed file gives the tables in order with keys, columns, full markers and nullability, and every join, for all models with plain identifiers |
| SchemaParser.RenderingIsInjective | diesel-dualdb-cli/src/lib.rs:270-361 | models with the same file have the same tables and joins |
| Generate.FoldStatements | diesel-dualdb-cli/src/lib.rs:568-570 | the statements of a chunk are folded into the model up to the first failure |
| Generate.FoldShared | diesel-dualdb-cli/src/lib.rs:565-573 | the shared chunks are parsed and folded in order, tagged blocks skipped |
| Generate.RenderMigration | diesel-dualdb-cli/src/lib.rs:563-590 | one migration: the model after it and both renderings, or its error with the migration named |
| Generate.GenerateAll | diesel-dualdb-cli/src/lib.rs:558-597 | the whole output for a migration list, or the first error |
| Generate.OnlyTheModelRejects | diesel-dualdb-cli/src/lib.rs:563-590 | a migration renders if and only if it segments, parses and folds: no later step can fail |
| Generate.GenerationSucceedsIff | diesel-dualdb-cli/src/lib.rs:558-597 | generation succeeds if and only if every migration segments and parses and the fold over all of them succeeds, and the schema printed is that of the whole fold |
| Generate.GenerationIsAppendOnly | diesel-dualdb-cli/src/lib.rs:558-590 | appending migrations leaves every earlier up and down of both backends as it was |
| Generate.EachMigrationComesOut | diesel-dualdb-cli/src/lib.rs:575-589 | each migration comes out in its place and under its name, with one down for both backends; a down of its own is kept up to its last visible character |
| Generate.FirstFailureIsReported | diesel-dualdb-cli/src/lib.rs:563-589 | where generation fails, the error names the first migration that does not generate on what the earlier ones made, and says why: its text does not segment, or its first failing chunk does not parse or fold |
| EndToEnd.GeneratedSchemaMatchesDatabase | docs/explanation/schema-generation.md:21-34 | for every generated list, tagged blocks included, that a database takes and whose changes are followed, that database matches the tables printed in schema.rs, printed keys included |
| EndToEnd.GeneratedFileShowsDatabase | docs/explanation/schema-generation.md:21-34 | the text of the generated schema.rs, parsed, then says exactly what that database holds: tables, keys, columns with types and nullability, and joins |
| EndToEnd.GeneratedDatabasesHaveOneShape | docs/explanation/schema-generation.md:24-34 | the PostgreSQL and SQLite databases of one generated list then have the same shape, whatever their own blocks did besides |
| EndToEnd.FoldOfScript | diesel-dualdb-cli/src/lib.rs:565-573 | folding what one backend runs, tagged blocks included, gives the model of the shared statements |
| EndToEnd.RenderedFromOneSequence | docs/explanation/schema-generation.md:36-45 | both up.sql texts come from one sequence of pieces whose statements are those folded into the model |
| EndToEnd.DerivedDown | diesel-dualdb-cli/src/lib.rs:576-589 | a migration without a down.sql gets for both backends the drops of exactly the tables that what either backend runs creates |
| EndToEnd.GeneratedDownUndoesIff | diesel-dualdb-cli/src/lib.rs:576-589 | without a down.sql of its own a migration gets one text for both backends, and running it after the generated up.sql, own blocks included, restores a catalogue if and only if the migration is undoable there, given that the tables already there are left alone |
| EndToEnd.GeneratedStackUndoes | diesel-dualdb-cli/src/lib.rs:558-590 | for a whole generated tree without own downs, each migration undoable where it runs, the generated downs run in reverse after all the ups lead back to the start |
| EndToEnd.FoldKeepsPlain | diesel-dualdb-cli/src/lib.rs:152-268 | plain identifiers in the statements give plain identifiers in the model |
| EndToEnd.GeneratedSchemaReadsBack | diesel-dualdb-cli/src/lib.rs:558-597 | the generated schema.rs of plain migrations reads back as exactly the folded model |
| OutputInWriting.DivergentMigration | docs/how-to/diverge-per-backend.md:64-80 | from a text with a CREATE TABLE and a block for each backend, each up is that statement with the promised native names, an empty line and the own block trimmed, and the derived down drops the table |
| OutputInWriting.EveryTypeInWriting | diesel-dualdb-cli/src/lib.rs:70-94 | every column shown in a generated schema.rs is defined in the migrations for that table and name, with a type whose promised path is the one shown |
| OutputInWriting.NewTableInWriting | diesel-dualdb-cli/src/lib.rs:154-215 | a table just created is the last one in schema.rs, with its columns in order, their names, promised paths, and nullable unless declared NOT NULL or PRIMARY KEY |
| Regenerate.NativeNameIsFixedIff | diesel-dualdb-cli/src/lib.rs:70-94 | a native name reads back as a type of the same row always for PostgreSQL, and for SQLite if and only if both names are the same |
| Regenerate.StatementIsFixed | diesel-dualdb-cli/src/lib.rs:96-102 | a statement written for PostgreSQL and read back is folded, and rewritten for either backend, as the original was |
| Regenerate.StatementsAreFixed | diesel-dualdb-cli/src/lib.rs:396-412 | the same for whole scripts, text included |
| Regenerate.WrittenOutStatements | diesel-dualdb-cli/src/lib.rs:396-412 | the generated text segments into one chunk and holds the statements it was printed from, where no line of it is a directive or ends in a carriage return and parse reads what show wrote |
| Regenerate.MigrationAgain | diesel-dualdb-cli/src/lib.rs:563-590 | a tag-free migration, written out for PostgreSQL and generated again, is the same step: model, both ups and the down |
| Regenerate.RegeneratingReproduces | diesel-dualdb-cli/src/lib.rs:558-612 | generating from the written-out PostgreSQL tree of tag-free migrations reproduces both trees, downs included, and schema.rs |
| Calendar.ClosedForm | src/types/timestamp.rs:23 | the day count of all years agrees with the leap-year rule in closed form |
| Calendar.EpochIsDayZero | src/types/timestamp.rs:23 | the day count starts at 1970-01-01 |
| Calendar.ValidDateIff | src/types/timestamp.rs:23 | the dates there are, by the twelve month lengths and the leap-year rule in figures |
| Calendar.DayNumberInClosedForm | src/types/timestamp.rs:23 | the day count of every valid date in closed form, with years counted from March |
| Calendar.NextDayIsOneLater | src/types/timestamp.rs:71-73 | stepping over day, month and year ends moves the day count by one |
| Calendar.PreviousDayIsOneEarlier | src/types/timestamp.rs:71-73 | and so does stepping back |
| Calendar.DayNumberOrders | src/types/timestamp.rs:20-23 | day counts compare exactly as dates do, and differ for different dates |
| Digits.SpelledOrders | src/types/timestamp.rs:20-23 | fixed-width digits compare as text exactly as the numbers compare |
| Digits.FieldOrders | src/types/timestamp.rs:20-23 | a fixed-width field decides the order of two texts, and only a tie leaves it to the rest |
| Digits.SpelledInFigures | src/types/timestamp.rs:23 | each digit of a fixed-width field, from the front, by division |
| Timestamp.FlooringIsOnTheInstant | src/types/timestamp.rs:7-8 | dropping sub-microsecond digits floors the instant count, before 1970 as well |
| Timestamp.InstantInFigures | src/types/timestamp.rs:7-8 | the instant count is the day count and the clock in nanoseconds, and the microsecond count its floor |
| Timestamp.EncodingInFigures | src/types/timestamp.rs:23 | every text of a four-digit year, field by field: 27 characters, each field and mark in its place, the fraction cut off after six digits |
| Timestamp.SignedYearInFigures | src/types/timestamp.rs:23 | other years have a sign and at least four digits, without a leading zero if more, and then the same fields |
| Timestamp.TextOrderIsTimeOrder | src/types/timestamp.rs:20-23 | for all times of four-digit years, leap seconds included, stored texts compare exactly as positions on the time line |
| Timestamp.TextOrderIsMicrosecondOrder | docs/explanation/timestamp-representation.md:8-29 | outside leap seconds they compare exactly as microseconds since 1970, and are equal exactly when those are |
| Timestamp.SortingByTextIsSortingByTime | docs/explanation/timestamp-representation.md:10-13 | a column is sorted by text if and only if it is sorted by time |
| Timestamp.FilteringByTextIsFilteringByTime | docs/explanation/timestamp-representation.md:10-13 | a range filter on the text keeps exactly the rows in the time range |
| Timestamp.SortsRightlyIff | src/types/timestamp.rs:20-23 | against a four-digit year, another time sorts rightly if and only if its year is at most 9999 |
| TimestampReader.ToUtcSubtractsOffset | src/types/timestamp.rs:71-73 | conversion to UTC shifts the minute count by the offset, across day, month and year ends, and keeps seconds and fraction |
| TimestampReader.UtcInFigures | src/types/timestamp.rs:71-73 | a positive offset of so many hours and minutes is taken off the minute count, a negative one is added, and Z leaves it |
| TimestampReader.FractionInFigures | src/types/timestamp.rs:71-73 | a fraction of up to nine digits is their value over that power of ten, in nanoseconds; later digits do not matter |
| TimestampReader.DecodeIsTheGrammar | src/types/timestamp.rs:68-76 | the scanner accepts exactly the spellings of valid fields and gives the instant of those fields |
| TimestampReader.FieldsInFigures | src/types/timestamp.rs:71-73 | the fields accepted, by their ranges in figures: month lengths, hours, minutes, seconds to 60, separators, signs, offsets |
| TimestampReader.SpellingInFigures | src/types/timestamp.rs:71-73 | how accepted fields are spelled, place by place |
| TimestampReader.EncodingConforms | src/types/timestamp.rs:23 | every text of a four-digit year is 27 characters long and conforms to the grammar |
| TimestampReader.RoundTripIff | src/types/timestamp.rs:61-76 | decoding an encoding gives the time floored to the microsecond if and only if the year has four digits; otherwise it is refused |
| TimestampReader.NormalisationIsStableIff | src/types/timestamp.rs:61-76 | for any accepted text, decode then encode is idempotent if and only if the UTC year has four digits |
| TimestampReader.SameInstantSameText | src/types/timestamp.rs:61-76 | any two accepted texts are re-encoded alike if and only if they denote the same microsecond |
| EnumLabels.BuildTable | diesel-dualdb-macros/src/lib.rs:243-274 | the loops over variants and attributes build one entry per variant, or report the first variant or option refused |
| EnumLabels.TableByDeclaration | diesel-dualdb-macros/src/lib.rs:243-274 | the table has one entry per variant in order, of its name and the last rename written in its attributes, or else its name; there is one if and only if there are variants, all unit and without other options, and otherwise the first variant at fault is reported with its first bad option |
| EnumLabels.LabelIsLastRename | diesel-dualdb-macros/src/lib.rs:252-266 | a variant has a label if and only if all its options are renames; the label is the last of them, or else the variant's name |
| EnumLabels.RoundTripsIffDistinct | diesel-dualdb-macros/src/lib.rs:276-349 | every variant reads back as itself if and only if the labels are pairwise different |
| EnumLabels.DecodeAcceptsLabels | diesel-dualdb-macros/src/lib.rs:313-349 | decoding accepts exactly the labels of the table |
| EnumLabels.FirstMatch | diesel-dualdb-macros/src/lib.rs:313-349 | a label that several variants share reads back as the first of them |
| EnumLabels.WithoutRenamesRoundTrips | diesel-dualdb-macros/src/lib.rs:252-266 | an enum without renames always round-trips |

## Left out

The schema compiler:

- The internals of `sqlparser`: `parse` and `show` are arbitrary functions. That reading inverts writing is a hypothesis only where a lemma states it (`Regenerate`), and so is the printed form of a DROP (`Dropping.DropTextsAreDrops`).
- Rendering.RewriteTypes: returns the rewritten statement where the source overwrites it in place; the statement is a fresh value of each parse there, so aliasing plays no part.
- SchemaModel.Model.ApplyOperation: a table is a value inside the model's list, replaced as a whole, where the source changes it through a mutable reference.
- Error message texts: errors are structured values that name the same table, column, type or directive.
- `UNIQUE`, `CHECK` and index declarations inside a CREATE TABLE or ADD CONSTRAINT are taken not to change columns, nullability, keys or references, and so are the clauses of a CREATE TABLE kept as its tail (storage options, comments and the like).
- Table names with a schema qualifier are not resolved by the catalogue, which refuses statements on them; a foreign key's parent is read by its last part. The names compared are those the database reads, and compared exactly, so SQLite's disregard of letter case when it looks a name up has no place here.
- An ALTER TABLE of several operations runs in the written order. PostgreSQL orders them by kind, and SQLite takes only one; a statement for which PostgreSQL's order makes a difference is outside these results.
- The catalogue lets through what depends on things it does not hold: uniqueness of referenced columns, defaults, stored rows. Results about accepted scripts therefore cover every script a database accepts, within the limits above.
- A type given in ALTER COLUMN counts as the column's own only if it is spelled as the mapping table spells it; aliases such as `int4` count as other types.
- SchemaParser.SchemaRoundTrip: for identifiers made of ASCII letters, digits and underscores; the printer writes all names unquoted, and others are outside the grammar that the parser reads. These include names that start with a digit and Rust keywords such as `type`: the file then reads back all the same, but is no valid Rust.
- Stored rows, those a migration inserts included: "restores the catalogue" speaks of tables and whatever else is defined, not of data.
- Temporary tables are not part of the catalogue, so a name that a temporary table hides from a DROP within one session has no place here.
- Whatever is not a table is known by its name, the tables it hangs on (a view over a view on those of both) and what a drop of these does to it, not by its definition; columns that a view pins are not told apart.
- `read_migrations`, `main.rs`, and of `write_outputs` all but the line feed it adds: file-system work.

The codecs:

- chrono is not part of this model; its documented formatting and RFC 3339 parsing are, except for the minus sign U+2212 it also accepts.
- The PostgreSQL arm of `Timestamp`, which hands the value to diesel.
- The `Uuid`, `Bytes`, `Json`, `Decimal` and `Array` codecs, which delegate to other libraries.
- The token handling of `dual_enum_impl`, the `pg_type` name, `parse_backends`, the bridge and test macros.

Elsewhere: connections, pools, backend detection and escaping, which dispatch to diesel or wrap other crates.
