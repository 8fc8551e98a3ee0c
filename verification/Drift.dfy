/** Whole runs: the schema never drifts from the database exactly when every change is followed. */
module Drift {
  import opened Wrappers
  import opened Sql
  import opened SchemaModel
  import opened Rendering
  import opened RenderingLaws
  import opened Catalog
  import opened Simulation
  import opened Ignored
  import opened Written
  import opened Altering
  import opened Misread

  // ----- One change -----

  predicate ActionMapped(a: Action) {
    match a
    case Whole(s) => AllMapped(Definitions(s)) && !s.AlterTable?
    case Part(_, _, op) => OpMapped(op)
  }

  /** The change as it is written for one backend; one without a rendering is left as it is. */
  function NativeAction(a: Action, b: Backend): Action {
    if !ActionMapped(a) then a
    else
      match a
      case Whole(s) => if s.CreateTable? then Whole(s.(columns := NativeColumns(s.columns, b))) else a
      case Part(name, ifExists, op) => Part(name, ifExists, NativeOp(op, b))
  }

  function ApplyAction(tables: seq<ModelTable>, a: Action): Outcome {
    match a
    case Whole(s) => ApplyStatement(tables, s)
    case Part(name, _, op) => ApplyOp(tables, LastIdent(name), op)
  }

  /** The database shows nothing of a change that is its own affair. */
  predicate Unseen(db: Database, cat: Catalogue, a: Action) {
    Exec(db, cat, a).Some? && ShowsSame(cat.tables, Exec(db, cat, a).value.tables)
  }

  /** The columns that a CREATE TABLE ... AS is given. */
  function Given(db: Database, cat: Catalogue, form: TableForm): seq<CatColumn> {
    if form.FromQuery? then db.gives(cat, form.query) else []
  }

  /** The shape and the name of a CREATE TABLE: read as written, free, lasting, and such as the model understands. */
  predicate CreateFollowed(db: Database, cat: Catalogue, name: ObjectName, columns: seq<ColumnDef>,
                           constraints: seq<TableConstraint>, form: TableForm)
  {
    && NameWritten(db, name) && TableWritten(db, columns, constraints)
    && !form.Temporary? && !Taken(cat, LastIdent(name))
    && NewFollowed(db, cat.tables, LastIdent(name), ReadDefs(db, columns), ReadConstraints(db, constraints), form,
                   Given(db, cat, form))
  }

  /** An operation read as written: the condition of its kind; on a table that is not there, the model must take it. */
  predicate PartFollowed(db: Database, tables: seq<ModelTable>, cat: Catalogue, a: Action)
    requires a.Part?
  {
    match CatFind(cat.tables, LastIdent(a.table))
    case Some(k) =>
      if LeftToDatabase(db, cat.tables[k], ReadOp(db, a.op)) then Unseen(db, cat, a)
      else k < |tables| && OpFollowed(db, tables[k], cat.tables, k, ReadOp(db, a.op))
    case None => !a.op.AddColumn?
  }

  /** An operation read otherwise than it is written: neither the model nor the database has anything to do. */
  predicate MisreadFollowed(db: Database, tables: seq<ModelTable>, cat: Catalogue, a: Action)
    requires a.Part?
  {
    && ModelIgnores(tables, LastIdent(a.table), a.op)
    && match CatFind(cat.tables, LastIdent(ReadName(db, a.table)))
       case Some(k) =>
         if LeftToDatabase(db, cat.tables[k], ReadOp(db, a.op)) then Unseen(db, cat, a)
         else OpIgnored(db, cat.tables[k], ReadOp(db, a.op))
       case None => true
  }

  /** Whether the model follows a change that the database has accepted in catalogue `cat`. */
  predicate Followed(db: Database, tables: seq<ModelTable>, cat: Catalogue, a: Action) {
    match a
    case Whole(CreateTable(name, _, columns, constraints, form, _)) =>
      CreateFollowed(db, cat, name, columns, constraints, form)
    case Whole(DropTable(names, _, _)) => !SomeNamed(cat.tables, ReadNames(db, names))
    case Whole(_) => Unseen(db, cat, a)
    case Part(name, _, op) =>
      if NameWritten(db, name) && OpWritten(db, op) then PartFollowed(db, tables, cat, a)
      else MisreadFollowed(db, tables, cat, a)
  }

  /** The model takes the change and matches the database after it. */
  predicate Keeps(db: Database, tables: seq<ModelTable>, cat: Catalogue, a: Action)
    requires Exec(db, cat, NativeAction(a, db.backend)).Some?
  {
    && ApplyAction(tables, a).result.Ok?
    && Matches(db.backend, ApplyAction(tables, a).tables, Exec(db, cat, NativeAction(a, db.backend)).value.tables)
  }

  /** Where the model does nothing, it is kept exactly if the database shows nothing. */
  lemma {:induction false} QuietModelKeepsIff(db: Database, tables: seq<ModelTable>, cat: Catalogue, a: Action)
    requires Matches(db.backend, tables, cat.tables) && Exec(db, cat, NativeAction(a, db.backend)).Some?
    requires ApplyAction(tables, a) == Outcome(tables, Ok(()))
    ensures Keeps(db, tables, cat, a) <==>
            ShowsSame(cat.tables, Exec(db, cat, NativeAction(a, db.backend)).value.tables)
  {
    MatchesSame(db.backend, tables, cat.tables, Exec(db, cat, NativeAction(a, db.backend)).value.tables);
  }

  // ----- CREATE TABLE -----

  lemma {:induction false} CreateActionExec(db: Database, cat: Catalogue, s: Statement)
    requires s.CreateTable? && AllMapped(s.columns) && Exec(db, cat, NativeAction(Whole(s), db.backend)).Some?
    ensures AllMapped(ReadDefs(db, s.columns)) && Legal(db, s.name)
    ensures var name := db.readAs(s.name[0]);
            var given := Given(db, cat, s.form);
            var next := Exec(db, cat, NativeAction(Whole(s), db.backend)).value.tables;
            if s.form.Temporary? || Taken(cat, name) then next == cat.tables
            else ExecCreate(db, cat.tables, name, s.ifNotExists, NativeColumns(ReadDefs(db, s.columns), db.backend),
                            ReadConstraints(db, s.constraints), s.form, given) == Some(next)
  {
    ReadNative(db, s.columns, db.backend);
  }

  lemma {:induction false} CreateActionApply(tables: seq<ModelTable>, s: Statement)
    requires s.CreateTable? && AllMapped(s.columns)
    ensures ApplyStatement(tables, s) ==
            Outcome(tables + [CreatedModel(LastIdent(s.name), s.columns, s.constraints)], Ok(()))
  {
  }

  lemma {:induction false} NoTableCreated(db: Database, tables: seq<ModelTable>, cat: Catalogue, s: Statement)
    requires Matches(db.backend, tables, cat.tables) && s.CreateTable? && AllMapped(s.columns)
    requires Exec(db, cat, NativeAction(Whole(s), db.backend)).Some?
    requires s.form.Temporary? || Taken(cat, db.readAs(s.name[0]))
    ensures !Keeps(db, tables, cat, Whole(s)) && !Followed(db, tables, cat, Whole(s))
  {
    CreateActionExec(db, cat, s);
    CreateActionApply(tables, s);
  }

  lemma {:induction false} WrittenCreated(db: Database, tables: seq<ModelTable>, cat: Catalogue, s: Statement)
    requires Matches(db.backend, tables, cat.tables) && s.CreateTable? && AllMapped(s.columns)
    requires Exec(db, cat, NativeAction(Whole(s), db.backend)).Some?
    requires !s.form.Temporary? && !Taken(cat, db.readAs(s.name[0]))
    requires NameWritten(db, s.name) && TableWritten(db, s.columns, s.constraints)
    ensures Keeps(db, tables, cat, Whole(s)) <==> Followed(db, tables, cat, Whole(s))
  {
    var name, read, cons := db.readAs(s.name[0]), ReadDefs(db, s.columns), ReadConstraints(db, s.constraints);
    CreateActionExec(db, cat, s);
    CreateActionApply(tables, s);
    WrittenModel(db, name, s.columns, s.constraints);
    CreateStep(db, tables, cat.tables, name, s.ifNotExists, read, cons, s.form, Given(db, cat, s.form));
  }

  lemma {:induction false} MisreadCreated(db: Database, tables: seq<ModelTable>, cat: Catalogue, s: Statement)
    requires Matches(db.backend, tables, cat.tables) && s.CreateTable? && AllMapped(s.columns)
    requires Exec(db, cat, NativeAction(Whole(s), db.backend)).Some?
    requires !s.form.Temporary? && !Taken(cat, db.readAs(s.name[0]))
    requires !(NameWritten(db, s.name) && TableWritten(db, s.columns, s.constraints))
    ensures !Keeps(db, tables, cat, Whole(s)) && !Followed(db, tables, cat, Whole(s))
  {
    CreateActionExec(db, cat, s);
    CreateActionApply(tables, s);
    MisreadCreate(db, tables, cat.tables, LastIdent(s.name), db.readAs(s.name[0]), s.ifNotExists, s.columns,
                  s.constraints, s.form, Given(db, cat, s.form));
  }

  lemma {:induction false} CreateActionStep(db: Database, tables: seq<ModelTable>, cat: Catalogue, s: Statement)
    requires Matches(db.backend, tables, cat.tables) && s.CreateTable? && AllMapped(s.columns)
    requires Exec(db, cat, NativeAction(Whole(s), db.backend)).Some?
    ensures Keeps(db, tables, cat, Whole(s)) <==> Followed(db, tables, cat, Whole(s))
  {
    CreateActionExec(db, cat, s);
    if s.form.Temporary? || Taken(cat, db.readAs(s.name[0])) {
      NoTableCreated(db, tables, cat, s);
    } else if NameWritten(db, s.name) && TableWritten(db, s.columns, s.constraints) {
      WrittenCreated(db, tables, cat, s);
    } else {
      MisreadCreated(db, tables, cat, s);
    }
  }

  // ----- ALTER TABLE -----

  /** What an accepted operation does to the tables. */
  lemma {:induction false} PartEffect(db: Database, cat: Catalogue, name: ObjectName, ifExists: bool, op: AlterOp)
    requires Exec(db, cat, Part(name, ifExists, op)).Some?
    ensures name != [] && LastIdent(ReadName(db, name)) == db.readAs(name[|name| - 1])
    ensures var next := Exec(db, cat, Part(name, ifExists, op)).value.tables;
            match CatFind(cat.tables, LastIdent(ReadName(db, name)))
            case Some(k) =>
              !LeftToDatabase(db, cat.tables[k], ReadOp(db, op)) ==>
                ExecTableOp(db, cat.tables, k, ReadOp(db, op)) == Some(next)
            case None => next == cat.tables
  {
  }

  lemma {:induction false} LeftAlike(db: Database, t: CatTable, op: AlterOp)
    requires OpMapped(op)
    ensures LeftToDatabase(db, t, ReadOp(db, NativeOp(op, db.backend))) <==> LeftToDatabase(db, t, ReadOp(db, op))
    ensures LeftToDatabase(db, t, ReadOp(db, op)) ==>
            NativeOp(op, db.backend) == op && (op.OtherOp? || op.DropConstraint?)
  {
  }

  lemma {:induction false} WrittenPartStep(db: Database, tables: seq<ModelTable>, cat: Catalogue, a: Action)
    requires a.Part? && Matches(db.backend, tables, cat.tables) && OpMapped(a.op)
    requires NameWritten(db, a.table) && OpWritten(db, a.op)
    requires Exec(db, cat, NativeAction(a, db.backend)).Some?
    ensures Keeps(db, tables, cat, a) <==> Followed(db, tables, cat, a)
  {
    var t, native := LastIdent(a.table), NativeOp(a.op, db.backend);
    PartEffect(db, cat, a.table, a.ifExists, native);
    SameFind(db.backend, tables, cat.tables, t);
    match CatFind(cat.tables, t)
    case Some(k) =>
      LeftAlike(db, cat.tables[k], a.op);
      if LeftToDatabase(db, cat.tables[k], ReadOp(db, a.op)) {
        QuietModelKeepsIff(db, tables, cat, a);
      } else {
        FoundStep(db, tables, cat.tables, t, k, a.op);
      }
    case None =>
  }

  lemma {:induction false} QuietMisreadStep(db: Database, tables: seq<ModelTable>, cat: Catalogue, a: Action)
    requires a.Part? && Matches(db.backend, tables, cat.tables) && OpMapped(a.op)
    requires Exec(db, cat, NativeAction(a, db.backend)).Some?
    requires ModelIgnores(tables, LastIdent(a.table), a.op)
    ensures Keeps(db, tables, cat, a) <==> MisreadFollowed(db, tables, cat, a)
  {
    var native := NativeOp(a.op, db.backend);
    ModelIgnoresIff(tables, LastIdent(a.table), a.op);
    QuietModelKeepsIff(db, tables, cat, a);
    PartEffect(db, cat, a.table, a.ifExists, native);
    match CatFind(cat.tables, LastIdent(ReadName(db, a.table)))
    case Some(k) =>
      LeftAlike(db, cat.tables[k], a.op);
      if !LeftToDatabase(db, cat.tables[k], ReadOp(db, a.op)) {
        OpShowsIff(db, cat.tables, k, ReadOp(db, native));
      }
    case None =>
  }

  lemma {:induction false} LoudMisreadStep(db: Database, tables: seq<ModelTable>, cat: Catalogue, a: Action)
    requires a.Part? && Matches(db.backend, tables, cat.tables) && OpMapped(a.op)
    requires Exec(db, cat, NativeAction(a, db.backend)).Some?
    requires !(NameWritten(db, a.table) && OpWritten(db, a.op)) && !ModelIgnores(tables, LastIdent(a.table), a.op)
    ensures !Keeps(db, tables, cat, a)
  {
    var t, native := LastIdent(a.table), NativeOp(a.op, db.backend);
    ModelIgnoresIff(tables, t, a.op);
    if ApplyOp(tables, t, a.op).result.Ok? {
      LoudModel(tables, t, a.op);
      SameFind(db.backend, tables, cat.tables, t);
      PartEffect(db, cat, a.table, a.ifExists, native);
      LoudTables(db, tables, cat.tables, a.table, a.op, Exec(db, cat, NativeAction(a, db.backend)).value.tables);
    }
  }

  /** The same, on the tables: the model changes one that the database leaves alone, or changes differently. */
  lemma {:induction false} LoudTables(db: Database, tables: seq<ModelTable>, cat: Tables, name: ObjectName, op: AlterOp,
                                      next: Tables)
    requires Matches(db.backend, tables, cat) && OpMapped(op) && !(NameWritten(db, name) && OpWritten(db, op))
    requires Find(tables, LastIdent(name)).Some? && CatFind(cat, LastIdent(name)) == Find(tables, LastIdent(name))
    requires Altered(tables[Find(tables, LastIdent(name)).value], op) != tables[Find(tables, LastIdent(name)).value]
    requires op.AddColumn? || op.DropColumn? || (op.AddConstraint? && op.constraint.ForeignKey?)
    requires match CatFind(cat, LastIdent(ReadName(db, name)))
             case Some(k) => ExecTableOp(db, cat, k, ReadOp(db, NativeOp(op, db.backend))) == Some(next)
             case None => next == cat
    ensures var i := Find(tables, LastIdent(name)).value;
            !Matches(db.backend, tables[i := Altered(tables[i], op)], next)
  {
    var i := Find(tables, LastIdent(name)).value;
    var k := CatFind(cat, LastIdent(ReadName(db, name)));
    ReadLastName(db, name);
    if k == Some(i) {
      assert NameWritten(db, name);
      MisreadOpHere(db, tables, cat, i, op);
    } else {
      if k.Some? {
        OthersStay(db, cat, k.value, ReadOp(db, NativeOp(op, db.backend)), i);
      }
      LoudElsewhere(db, tables, cat, i, next, op);
    }
  }

  lemma {:induction false} PartStep(db: Database, tables: seq<ModelTable>, cat: Catalogue, a: Action)
    requires a.Part? && Matches(db.backend, tables, cat.tables) && OpMapped(a.op)
    requires Exec(db, cat, NativeAction(a, db.backend)).Some?
    ensures Keeps(db, tables, cat, a) <==> Followed(db, tables, cat, a)
  {
    if NameWritten(db, a.table) && OpWritten(db, a.op) {
      WrittenPartStep(db, tables, cat, a);
    } else if ModelIgnores(tables, LastIdent(a.table), a.op) {
      QuietMisreadStep(db, tables, cat, a);
    } else {
      LoudMisreadStep(db, tables, cat, a);
    }
  }

  // ----- Every change -----

  lemma {:induction false} DropStep(db: Database, tables: seq<ModelTable>, cat: Catalogue, s: Statement)
    requires s.DropTable? && Matches(db.backend, tables, cat.tables) && Exec(db, cat, Whole(s)).Some?
    ensures Keeps(db, tables, cat, Whole(s)) <==> Followed(db, tables, cat, Whole(s))
  {
    QuietModelKeepsIff(db, tables, cat, Whole(s));
    DropTableShows(db.backend, cat.tables, ReadNames(db, s.names), s.ifExists, s.cascade);
  }

  /** One accepted change: the model takes it and matches the database after it exactly when the change is followed. */
  lemma {:induction false} ActionStep(db: Database, tables: seq<ModelTable>, cat: Catalogue, a: Action)
    requires Matches(db.backend, tables, cat.tables) && ActionMapped(a)
    requires Exec(db, cat, NativeAction(a, db.backend)).Some?
    ensures Keeps(db, tables, cat, a) <==> Followed(db, tables, cat, a)
  {
    match a
    case Whole(s) =>
      if s.CreateTable? {
        CreateActionStep(db, tables, cat, s);
      } else if s.DropTable? {
        DropStep(db, tables, cat, s);
      } else {
        QuietModelKeepsIff(db, tables, cat, a);
      }
    case Part(_, _, _) =>
      PartStep(db, tables, cat, a);
  }

  // ----- Runs -----

  predicate ActionsMapped(actions: seq<Action>) {
    forall i :: 0 <= i < |actions| ==> ActionMapped(actions[i])
  }

  function NativeActions(actions: seq<Action>, b: Backend): (r: seq<Action>)
    ensures |r| == |actions|
    ensures forall i :: 0 <= i < |r| ==> r[i] == NativeAction(actions[i], b)
  {
    seq(|actions|, i requires 0 <= i < |actions| => NativeAction(actions[i], b))
  }

  function ApplyAll(tables: seq<ModelTable>, actions: seq<Action>): Outcome
    decreases |actions|
  {
    if actions == [] then Outcome(tables, Ok(()))
    else
      var o := ApplyAction(tables, actions[0]);
      if o.result.Err? then o else ApplyAll(o.tables, actions[1..])
  }

  /** The model takes every change the database accepts and matches it after each, up to the first one refused. */
  predicate NeverDrifts(db: Database, tables: seq<ModelTable>, cat: Catalogue, actions: seq<Action>)
    decreases |actions|
  {
    && Matches(db.backend, tables, cat.tables)
    && (actions != [] && Exec(db, cat, NativeAction(actions[0], db.backend)).Some? ==>
          && ApplyAction(tables, actions[0]).result.Ok?
          && NeverDrifts(db, ApplyAction(tables, actions[0]).tables,
                         Exec(db, cat, NativeAction(actions[0], db.backend)).value, actions[1..]))
  }

  /** Every change is followed in the state it meets. */
  predicate AlwaysFollowed(db: Database, tables: seq<ModelTable>, cat: Catalogue, actions: seq<Action>)
    decreases |actions|
  {
    actions != [] && Exec(db, cat, NativeAction(actions[0], db.backend)).Some? ==>
      && Followed(db, tables, cat, actions[0])
      && AlwaysFollowed(db, ApplyAction(tables, actions[0]).tables,
                        Exec(db, cat, NativeAction(actions[0], db.backend)).value, actions[1..])
  }

  /**
   Over any run, from any matching start, the schema stays in step with the database at every point if and only
   if each change is followed. Then, if the database takes the whole run, so does the model, and they match at its end.
   */
  lemma {:induction false} NeverDriftsIffFollowed(db: Database, tables: seq<ModelTable>, cat: Catalogue,
                                                  actions: seq<Action>)
    requires Matches(db.backend, tables, cat.tables) && ActionsMapped(actions)
    ensures NeverDrifts(db, tables, cat, actions) <==> AlwaysFollowed(db, tables, cat, actions)
    ensures AlwaysFollowed(db, tables, cat, actions) && ExecAll(db, cat, NativeActions(actions, db.backend)).Some? ==>
            && ApplyAll(tables, actions).result.Ok?
            && Matches(db.backend, ApplyAll(tables, actions).tables,
                       ExecAll(db, cat, NativeActions(actions, db.backend)).value.tables)
    decreases |actions|
  {
    if actions != [] {
      var a := actions[0];
      assert NativeActions(actions, db.backend)[1..] == NativeActions(actions[1..], db.backend);
      var after := Exec(db, cat, NativeAction(a, db.backend));
      if after.Some? {
        ActionStep(db, tables, cat, a);
        if Followed(db, tables, cat, a) {
          NeverDriftsIffFollowed(db, ApplyAction(tables, a).tables, after.value, actions[1..]);
        }
      }
    }
  }

  // ----- Statements -----

  /** The script as generated for one backend. */
  function AllRewritten(statements: seq<Statement>, b: Backend): seq<Statement> {
    if statements == [] then []
    else
      var s := match Rewritten(statements[0], b) case Ok(t) => t case Err(_) => statements[0];
      [s] + AllRewritten(statements[1..], b)
  }

  lemma {:induction false} ActionsOfMapped(s: Statement)
    requires AllMapped(Definitions(s))
    ensures ActionsMapped(ActionsOf(s))
  {
    if s.AlterTable? {
      AddedMapped(s.operations);
    }
  }

  lemma {:induction false} ActionsOfRewritten(s: Statement, b: Backend)
    requires AllMapped(Definitions(s)) && ActionsMapped(ActionsOf(s)) && Rewritten(s, b).Ok?
    ensures ActionsOf(Rewritten(s, b).value) == NativeActions(ActionsOf(s), b)
  {
  }

  /** The changes a rewritten script makes are the script's changes, written for the backend. */
  lemma {:induction false} ActionsOfAllRewritten(statements: seq<Statement>, b: Backend)
    requires StatementsMapped(statements)
    ensures ActionsMapped(Actions(statements))
    ensures Actions(AllRewritten(statements, b)) == NativeActions(Actions(statements), b)
  {
    if statements != [] {
      var s := statements[0];
      assert AllMapped(Definitions(s));
      RewritingChangesOnlyTypes(s, b);
      ActionsOfMapped(s);
      ActionsOfRewritten(s, b);
      ActionsOfAllRewritten(statements[1..], b);
      assert AllRewritten(statements, b)[1..] == AllRewritten(statements[1..], b);
      NativeAppend(ActionsOf(s), Actions(statements[1..]), b);
    }
  }

  lemma {:induction false} NativeAppend(x: seq<Action>, y: seq<Action>, b: Backend)
    requires ActionsMapped(x) && ActionsMapped(y)
    ensures ActionsMapped(x + y) && NativeActions(x + y, b) == NativeActions(x, b) + NativeActions(y, b)
  {
  }

  lemma {:induction false} ApplyAllAppend(tables: seq<ModelTable>, x: seq<Action>, y: seq<Action>)
    ensures ApplyAll(tables, x + y) ==
            if ApplyAll(tables, x).result.Err? then ApplyAll(tables, x) else ApplyAll(ApplyAll(tables, x).tables, y)
    decreases |x|
  {
    if x == [] {
      assert x + y == y;
    } else {
      assert (x + y)[1..] == x[1..] + y;
      var o := ApplyAction(tables, x[0]);
      if o.result.Ok? {
        ApplyAllAppend(o.tables, x[1..], y);
      }
    }
  }

  lemma {:induction false} OpsAreActions(tables: seq<ModelTable>, name: ObjectName, ifExists: bool, ops: seq<AlterOp>)
    ensures ApplyAll(tables, seq(|ops|, i requires 0 <= i < |ops| => Part(name, ifExists, ops[i]))) ==
            ApplyOps(tables, LastIdent(name), ops)
    decreases |ops|
  {
    if ops != [] {
      var actions := seq(|ops|, i requires 0 <= i < |ops| => Part(name, ifExists, ops[i]));
      var rest := seq(|ops[1..]|, i requires 0 <= i < |ops[1..]| => Part(name, ifExists, ops[1..][i]));
      assert actions[1..] == rest;
      OpsAreActions(ApplyOp(tables, LastIdent(name), ops[0]).tables, name, ifExists, ops[1..]);
    }
  }

  lemma {:induction false} StatementIsActions(tables: seq<ModelTable>, s: Statement)
    ensures ApplyAll(tables, ActionsOf(s)) == ApplyStatement(tables, s)
  {
    match s
    case AlterTable(name, ifExists, ops) => OpsAreActions(tables, name, ifExists, ops);
    case _ => assert ActionsOf(s)[1..] == [];
  }

  /** Folding statements is applying their changes one at a time. */
  lemma {:induction false} FoldIsApplyAll(tables: seq<ModelTable>, statements: seq<Statement>)
    ensures Fold(tables, statements) == ApplyAll(tables, Actions(statements))
    decreases |statements|
  {
    if statements != [] {
      StatementIsActions(tables, statements[0]);
      ApplyAllAppend(tables, ActionsOf(statements[0]), Actions(statements[1..]));
      var o := ApplyStatement(tables, statements[0]);
      if o.result.Ok? {
        FoldIsApplyAll(o.tables, statements[1..]);
      }
    }
  }

  /**
   The central result: for every script the generator folds, run on an empty database of either backend, the
   tables printed in `schema.rs` are those of the database after every single change if and only if each change
   is one the model follows; and then, if the database takes the whole script, also at its end.
   */
  lemma {:induction false} SchemaAndDdlCannotDriftIff(db: Database, statements: seq<Statement>)
    requires Fold([], statements).result.Ok?
    ensures NeverDrifts(db, [], EMPTY, Actions(statements)) <==> AlwaysFollowed(db, [], EMPTY, Actions(statements))
    ensures AlwaysFollowed(db, [], EMPTY, Actions(statements)) &&
            ExecAll(db, EMPTY, Actions(AllRewritten(statements, db.backend))).Some? ==>
            Matches(db.backend, Fold([], statements).tables,
                    ExecAll(db, EMPTY, Actions(AllRewritten(statements, db.backend))).value.tables)
  {
    FoldedIsMapped([], statements);
    ActionsOfAllRewritten(statements, db.backend);
    NeverDriftsIffFollowed(db, [], EMPTY, Actions(statements));
    FoldIsApplyAll([], statements);
  }

  /** Two databases with the same tables, up to the spelling of types. */
  predicate SameShape(x: Tables, y: Tables) {
    |x| == |y| && forall i :: 0 <= i < |x| ==> SameTableShape(x[i], y[i])
  }

  predicate SameTableShape(t: CatTable, u: CatTable) {
    && t.name == u.name && t.primaryKey == u.primaryKey && Flat(t.foreignKeys) == Flat(u.foreignKeys)
    && |t.columns| == |u.columns|
    && forall j :: 0 <= j < |t.columns| ==> SameColumnShape(t.columns[j], u.columns[j])
  }

  /** Native types of one row of the mapping table. */
  predicate SameColumnShape(pg: CatColumn, sqlite: CatColumn) {
    && pg.name == sqlite.name && pg.notNull == sqlite.notNull
    && exists marker :: pg.dataType == NativeType(RowOf(marker), Postgres) &&
         sqlite.dataType == NativeType(RowOf(marker), Sqlite)
  }

  /** What a database holds after the generated script, if it takes all of it. */
  function Built(db: Database, statements: seq<Statement>): Option<Catalogue> {
    ExecAll(db, EMPTY, Actions(AllRewritten(statements, db.backend)))
  }

  /**
   Where a PostgreSQL and a SQLite database each take and follow a script, and the scripts fold to the same
   model, the two databases have the same shape.
   */
  lemma {:induction false} BothDatabasesHaveOneShape(pg: Database, sqlite: Database, x: seq<Statement>,
                                                     y: seq<Statement>)
    requires pg.backend.Postgres? && sqlite.backend.Sqlite?
    requires Fold([], x).result.Ok? && Fold([], y) == Fold([], x)
    requires Built(pg, x).Some? && AlwaysFollowed(pg, [], EMPTY, Actions(x))
    requires Built(sqlite, y).Some? && AlwaysFollowed(sqlite, [], EMPTY, Actions(y))
    ensures SameShape(Built(pg, x).value.tables, Built(sqlite, y).value.tables)
  {
    SchemaAndDdlCannotDriftIff(pg, x);
    SchemaAndDdlCannotDriftIff(sqlite, y);
    SameModelSameShape(Fold([], x).tables, Built(pg, x).value.tables, Built(sqlite, y).value.tables);
  }

  lemma {:induction false} SameModelSameShape(tables: seq<ModelTable>, x: Tables, y: Tables)
    requires Matches(Postgres, tables, x) && Matches(Sqlite, tables, y)
    ensures SameShape(x, y)
  {
    forall i | 0 <= i < |x|
      ensures SameTableShape(x[i], y[i])
    {
      assert MatchesTable(Postgres, tables[i], x[i]) && MatchesTable(Sqlite, tables[i], y[i]);
      forall j | 0 <= j < |x[i].columns|
        ensures SameColumnShape(x[i].columns[j], y[i].columns[j])
      {
        assert MatchesColumn(Postgres, tables[i].columns[j], x[i].columns[j]);
        assert MatchesColumn(Sqlite, tables[i].columns[j], y[i].columns[j]);
      }
    }
  }

  // ----- Drift does happen -----

  const ID: Ident := Ident("id", None)
  const ID_COLUMN: ColumnDef := ColumnDef(ID, Uuid, [])
  const ID_KEY: seq<TableConstraint> := [PrimaryKey([ID])]

  lemma {:induction false} IdDeclarations(columns: seq<ColumnDef>)
    requires |columns| == 1 && columns[0].name == ID && columns[0].options == []
    ensures KeyDecls(columns, ID_KEY) == [["id"]] && InlineFks(columns) == [] && ConstraintFks(ID_KEY) == []
  {
    assert columns[..0] == [] && ID_KEY[..0] == [];
    assert OptionDecls("id", []) == [] && OptionFks("id", []) == [];
    assert InlineDecls(columns) == InlineDecls([]) + [] && InlineFks(columns) == InlineFks([]) + [];
    assert Names([ID]) == ["id"];
    assert TableDecls(ID_KEY) == TableDecls([]) + [["id"]];
    assert ConstraintFks(ID_KEY) == ConstraintFks([]) + [];
  }

  lemma {:induction false} TableKeyIsAccepted(db: Database)
    requires db.backend.Postgres?
    ensures ExecCreate(db, [], "t", false, NativeColumns([ID_COLUMN], Postgres), ID_KEY, Ordinary, []).Some?
  {
    var native := NativeColumns([ID_COLUMN], Postgres);
    IdDeclarations(native);
    KeyTableIsAccepted(db, native);
  }

  lemma {:induction false} KeyTableIsAccepted(db: Database, columns: seq<ColumnDef>)
    requires |columns| == 1 && columns[0].name == ID
    requires KeyDecls(columns, ID_KEY) == [["id"]] && InlineFks(columns) == [] && ConstraintFks(ID_KEY) == []
    ensures ExecCreate(db, [], "t", false, columns, ID_KEY, Ordinary, []).Some?
  {
    var bare := BareTable(db, "t", columns, ID_KEY, Ordinary);
    assert bare.columns[0].name == "id";
    assert HasColumn(bare, "id");
    assert KeyUsable(db.backend, ["id"], bare);
    assert InlineFks(columns) + ConstraintFks(ID_KEY) == [];
  }

  lemma {:induction false} IdKeyIsNotFollowed(db: Database)
    requires db.backend.Postgres?
    ensures !NullFollowed(db, Ordinary, ID_COLUMN, ID_KEY)
  {
    assert ID_KEY[0].PrimaryKey? && "id" in Names(ID_KEY[0].columns) by {
      assert Names([ID])[0] == "id";
    }
  }

  /** CREATE TABLE t (id UUID, PRIMARY KEY (id)): in PostgreSQL the column is NOT NULL, in `schema.rs` Nullable. */
  lemma {:induction false} TableKeyDriftsOnPostgres(db: Database)
    requires db.backend.Postgres?
    ensures var accepted := ExecCreate(db, [], "t", false, NativeColumns([ID_COLUMN], Postgres), ID_KEY, Ordinary, []);
            && Created([Ident("t", None)], [ID_COLUMN], ID_KEY) == Ok(CreatedModel("t", [ID_COLUMN], ID_KEY))
            && accepted.Some?
            && !Matches(Postgres, [CreatedModel("t", [ID_COLUMN], ID_KEY)], accepted.value)
  {
    TableKeyIsAccepted(db);
    IdKeyIsNotFollowed(db);
    NotFollowedDrifts(db, "t", [ID_COLUMN], ID_KEY, Ordinary, 0);
  }

  lemma {:induction false} NotFollowedDrifts(db: Database, name: string, columns: seq<ColumnDef>,
                                             constraints: seq<TableConstraint>, form: TableForm, i: nat)
    requires AllMapped(columns) && i < |columns| && !NullFollowed(db, form, columns[i], constraints) && !form.FromQuery?
    requires ExecCreate(db, [], name, false, NativeColumns(columns, db.backend), constraints, form, []).Some?
    ensures !Matches(db.backend, [CreatedModel(name, columns, constraints)],
                     ExecCreate(db, [], name, false, NativeColumns(columns, db.backend), constraints, form, []).value)
  {
    assert !ShapeFollowed(db, form, columns, constraints);
    CreateStep(db, [], [], name, false, columns, constraints, form, []);
    Alone(CreatedModel(name, columns, constraints));
  }

  lemma {:induction false} Alone(t: ModelTable)
    ensures [] + [t] == [t]
  {
  }

  /** A table without a declared key, such as CREATE TABLE t (a TEXT): `schema.rs` prints its first column as one. */
  lemma {:induction false} KeylessTableDrifts(db: Database, name: string, columns: seq<ColumnDef>)
    requires AllMapped(columns) && columns != [] && !DeclaresKey(columns, [])
    requires ExecCreate(db, [], name, false, NativeColumns(columns, db.backend), [], Ordinary, []).Some?
    ensures !Matches(db.backend, [CreatedModel(name, columns, [])],
                     ExecCreate(db, [], name, false, NativeColumns(columns, db.backend), [], Ordinary, []).value)
  {
    CreateStep(db, [], [], name, false, columns, [], Ordinary, []);
    Alone(CreatedModel(name, columns, []));
  }

  /** A name that something else has, such as a view: IF NOT EXISTS creates nothing, and `schema.rs` prints a table. */
  lemma {:induction false} TakenNameDrifts(db: Database, tables: seq<ModelTable>, cat: Catalogue, s: Statement)
    requires s.CreateTable? && AllMapped(s.columns) && Matches(db.backend, tables, cat.tables)
    requires Exec(db, cat, NativeAction(Whole(s), db.backend)).Some?
    requires s.name != [] && Taken(cat, db.readAs(s.name[|s.name| - 1]))
    ensures !Matches(db.backend, ApplyStatement(tables, s).tables,
                     Exec(db, cat, NativeAction(Whole(s), db.backend)).value.tables)
  {
    CreateActionStep(db, tables, cat, s);
    CreateActionApply(tables, s);
  }

  /** A column whose name PostgreSQL folds, such as userId: the table it makes is never the one `schema.rs` prints. */
  lemma {:induction false} FoldedNameDrifts(db: Database, s: Statement, i: nat)
    requires s.CreateTable? && AllMapped(s.columns) && i < |s.columns|
    requires db.readAs(s.columns[i].name) != s.columns[i].name.value
    requires Exec(db, EMPTY, NativeAction(Whole(s), db.backend)).Some?
    ensures !Matches(db.backend, ApplyStatement([], s).tables,
                     Exec(db, EMPTY, NativeAction(Whole(s), db.backend)).value.tables)
  {
    assert !DefWritten(db, s.columns[i]);
    CreateActionStep(db, [], EMPTY, s);
    CreateActionApply([], s);
  }
}
