/**
 The derived `down.sql` against the `up.sql` it is derived from: when it brings back the catalogue, with all there
 is in it besides tables.
 */
module Undo {
  import opened Wrappers
  import opened Sql
  import opened Rendering
  import opened Catalog
  import opened RenderingLaws
  import opened Sound
  import opened Dropping

  // ----- When the down restores -----

  predicate Fresh(cat: Tables, names: seq<string>) {
    forall i :: 0 <= i < |names| ==> !Named(cat, names[i])
  }

  predicate AllIn(cat: Tables, names: seq<string>) {
    forall i :: 0 <= i < |cat| ==> cat[i].name in names
  }

  predicate NoneIn(cat: Tables, added: Tables) {
    forall i :: 0 <= i < |added| ==> !Named(cat, added[i].name)
  }

  /** The migration leaves the tables that were there as they were, and may put others behind them. */
  predicate Extends(cat: Tables, after: Tables) {
    cat <= after && DistinctTables(after)
  }

  /** All else that was there is still there and stays, and all else that is new goes with a dropped table. */
  predicate OthersUndone(cat: Catalogue, after: Catalogue, names: seq<string>) {
    && (forall r :: r in cat.others ==> r in after.others && !Gone(r, after.tables, names, false))
    && (forall r :: r in after.others && r !in cat.others ==> Gone(r, after.tables, names, false))
  }

  /**
   What it takes for the derived down to undo a migration: its bare names are legal, and the database can drop them
   in their order; no table of theirs was there before, and every new table goes by one of them; and whatever else
   the migration added goes with a table the down drops, while nothing else does.
   */
  predicate Undoable(db: Database, cat: Catalogue, after: Catalogue, created: seq<string>) {
    var names := BareNames(db, created);
    && BareLegal(db, created) && Droppable(db.backend, after, names)
    && Fresh(cat.tables, names)
    && (forall i :: |cat.tables| <= i < |after.tables| ==> after.tables[i].name in names)
    && OthersUndone(cat, after, names)
  }

  lemma {:induction false} FreshIffNoneNamed(cat: Tables, names: seq<string>)
    ensures Fresh(cat, names) <==> !SomeNamed(cat, names)
  {
    if Fresh(cat, names) {
      forall i, j | 0 <= i < |cat| && 0 <= j < |names|
        ensures cat[i].name != names[j]
      {
        assert !Named(cat, names[j]);
      }
    }
  }

  lemma {:induction false} AddedAreNew(cat: Tables, after: Tables)
    requires Extends(cat, after)
    ensures after == cat + after[|cat|..] && NoneIn(cat, after[|cat|..])
  {
    var added := after[|cat|..];
    assert after == cat + added;
    forall i | 0 <= i < |added|
      ensures !Named(cat, added[i].name)
    {
      assert added[i] == after[|cat| + i];
      assert forall k :: 0 <= k < |cat| ==> cat[k] == after[k];
    }
  }

  /** Of tables put behind others just the others are left exactly when the names are those of all the former. */
  lemma {:induction false} LeavesIff(cat: Tables, added: Tables, names: seq<string>)
    requires NoneIn(cat, added)
    ensures WithoutTables(cat + added, names) == cat <==> Fresh(cat, names) && AllIn(added, names)
  {
    WithoutAppend(cat, added, names);
    WithoutShrinks(cat, names);
    WithoutShrinks(added, names);
    FreshIffNoneNamed(cat, names);
    if WithoutTables(cat + added, names) == cat {
      LeftOverIsOld(cat, added, names);
    }
    assert cat + [] == cat;
  }

  lemma {:induction false} LeftOverIsOld(cat: Tables, added: Tables, names: seq<string>)
    requires NoneIn(cat, added) && WithoutTables(cat, names) + WithoutTables(added, names) == cat
    ensures WithoutTables(added, names) == []
  {
    var x, y := WithoutTables(cat, names), WithoutTables(added, names);
    forall i | 0 <= i < |y|
      ensures Named(cat, y[i].name)
    {
      assert cat[|x| + i] == (x + y)[|x| + i] == y[i];
    }
    assert y != [] ==> Named(cat, y[0].name);
    LeftOverIsNew(cat, added, names);
  }

  lemma {:induction false} LeftOverIsNew(cat: Tables, added: Tables, names: seq<string>)
    requires NoneIn(cat, added)
    ensures NoneIn(cat, WithoutTables(added, names))
  {
    var y := WithoutTables(added, names);
    forall i | 0 <= i < |y|
      ensures !Named(cat, y[i].name)
    {
      WithoutMember(added, names, y[i]);
    }
  }

  lemma {:induction false} OthersLeftIff(cat: Catalogue, after: Catalogue, names: seq<string>)
    ensures OthersLeft(after, names, false) == cat.others <==> OthersUndone(cat, after, names)
  {
    if OthersLeft(after, names, false) == cat.others {
      assert forall r :: r in cat.others ==> r in OthersLeft(after, names, false);
      assert forall r :: r in after.others && r !in cat.others ==> r !in OthersLeft(after, names, false);
    }
  }

  lemma {:induction false} LeftIff(cat: Catalogue, after: Catalogue, names: seq<string>)
    requires Extends(cat.tables, after.tables)
    ensures Left(after, names) == cat <==>
            && Fresh(cat.tables, names)
            && (forall i :: |cat.tables| <= i < |after.tables| ==> after.tables[i].name in names)
            && OthersUndone(cat, after, names)
  {
    var added := after.tables[|cat.tables|..];
    AddedAreNew(cat.tables, after.tables);
    LeavesIff(cat.tables, added, names);
    OthersLeftIff(cat, after, names);
    assert forall i :: 0 <= i < |added| ==> added[i] == after.tables[|cat.tables| + i];
    assert AllIn(added, names) <==> forall i :: |cat.tables| <= i < |after.tables| ==>
                                      after.tables[i].name in names by {
      assert forall i :: |cat.tables| <= i < |after.tables| ==> after.tables[i] == added[i - |cat.tables|];
    }
  }

  /**
   For every migration that leaves the tables already there alone, whatever it does besides: the derived down
   restores the catalogue if and only if the migration is undoable there. It fails, among others, on an index or
   any other addition that hangs on no created table; on a view over a created table, in PostgreSQL; on an
   `IF NOT EXISTS` that met an existing table; on a quoted name that is read otherwise without its quotes; and on a
   name repeated after a table that refers to it.
   */
  lemma {:induction false} DownRestoresIff(db: Database, cat: Catalogue, statements: seq<Statement>)
    requires ExecStatements(db, cat, statements).Some?
    requires Extends(cat.tables, ExecStatements(db, cat, statements).value.tables)
    ensures var after := ExecStatements(db, cat, statements).value;
            ExecStatements(db, after, Drops(CreatedBy(statements))) == Some(cat) <==>
              Undoable(db, cat, after, CreatedBy(statements))
  {
    var after, created := ExecStatements(db, cat, statements).value, CreatedBy(statements);
    DropsAcceptedIff(db, after, created);
    LeftIff(cat, after, BareNames(db, created));
  }

  /** A migration that creates no table, such as one of CREATE INDEX, is undone only if it did nothing. */
  lemma {:induction false} NothingCreatedNothingUndone(db: Database, cat: Catalogue, statements: seq<Statement>)
    requires ExecStatements(db, cat, statements).Some? && CreatedBy(statements) == []
    ensures ExecStatements(db, ExecStatements(db, cat, statements).value, Drops(CreatedBy(statements))) ==
            Some(cat) <==>
            ExecStatements(db, cat, statements).value == cat
  {
  }

  // ----- Migrations that keep to their own tables -----

  /** A change that cannot touch the old tables: it creates one, is not about tables, or alters one that is not old. */
  predicate OwnChange(db: Database, base: Tables, cat: Catalogue, a: Action) {
    match a
    case Whole(s) => s.CreateTable? || (s.OtherStatement? && TablesStay(db, cat, a))
    case Part(name, _, op) =>
      && name != [] && !Named(base, db.readAs(name[|name| - 1]))
      && match CatFind(cat.tables, db.readAs(name[|name| - 1]))
         case Some(k) => LeftToDatabase(db, cat.tables[k], ReadOp(db, op)) ==> TablesStay(db, cat, a)
         case None => true
  }

  predicate TablesStay(db: Database, cat: Catalogue, a: Action) {
    Exec(db, cat, a).Some? ==> Exec(db, cat, a).value.tables == cat.tables
  }

  predicate OwnChanges(db: Database, base: Tables, cat: Catalogue, actions: seq<Action>)
    decreases |actions|
  {
    actions != [] ==>
      && OwnChange(db, base, cat, actions[0])
      && (Exec(db, cat, actions[0]).Some? ==> OwnChanges(db, base, Exec(db, cat, actions[0]).value, actions[1..]))
  }

  /** What such a migration keeps: the old tables come first, unchanged, and all is sound. */
  predicate Keeping(b: Backend, base: Tables, cat: Tables) {
    base <= cat && IsSound(b, cat)
  }

  lemma {:induction false} CreateExtends(db: Database, cat: Catalogue, s: Statement) returns (added: Tables)
    requires s.CreateTable? && Exec(db, cat, Whole(s)).Some?
    ensures Exec(db, cat, Whole(s)).value.tables == cat.tables + added && |added| <= 1
    ensures added != [] ==>
              && added[0].name == LastIdent(ReadName(db, s.name)) && !Named(cat.tables, added[0].name)
              && ParentsExist(db.backend, cat.tables + added, added[0].foreignKeys)
  {
    var name := db.readAs(s.name[0]);
    if s.form.Temporary? || Taken(cat, name) {
      added := [];
      assert cat.tables + [] == cat.tables;
    } else {
      added := CreateAdds(db, cat.tables, name, s.ifNotExists, ReadDefs(db, s.columns),
                          ReadConstraints(db, s.constraints),
                          s.form, if s.form.FromQuery? then db.gives(cat, s.form.query) else []);
      FindIffNamed(cat.tables, name);
    }
  }

  lemma {:induction false} NoKeysThere(fks: seq<CatKey>, table: string, column: string, key: seq<string>)
    requires forall j :: 0 <= j < |fks| ==> fks[j].parent != table
    ensures KeysLeft(fks, false, table, column) == fks && KeysNotTo(fks, table, key) == fks
  {
    if fks != [] {
      NoKeysThere(fks[..|fks| - 1], table, column, key);
    }
  }

  /** The table at i does not refer to the one at k. */
  predicate Unrelated(cat: Tables, k: nat, i: nat)
    requires k < |cat| && i < |cat|
  {
    i != k && forall j :: 0 <= j < |cat[i].foreignKeys| ==> cat[i].foreignKeys[j].parent != cat[k].name
  }

  lemma {:induction false} UnrelatedRenames(cat: Tables, k: nat, from: string, to: string, i: nat)
    requires k < |cat| && i < |cat| && Unrelated(cat, k, i)
    ensures ExecRenameColumn(cat, k, from, to).Some? ==>
              i < |ExecRenameColumn(cat, k, from, to).value| && ExecRenameColumn(cat, k, from, to).value[i] == cat[i]
    ensures ExecRenameTable(cat, k, to).Some? ==>
              i < |ExecRenameTable(cat, k, to).value| && ExecRenameTable(cat, k, to).value[i] == cat[i]
  {
    if ExecRenameColumn(cat, k, from, to).Some? {
      assert ExecRenameColumn(cat, k, from, to).value[i].foreignKeys == cat[i].foreignKeys;
    }
    if ExecRenameTable(cat, k, to).Some? {
      assert ExecRenameTable(cat, k, to).value[i].foreignKeys == cat[i].foreignKeys;
    }
  }

  lemma {:induction false} UnrelatedDrops(db: Database, cat: Tables, k: nat, ifExists: bool, name: string,
                                          cascade: bool, i: nat)
    requires k < |cat| && i < |cat| && Unrelated(cat, k, i)
    ensures var next := ExecDropColumn(db.backend, cat, k, ifExists, name, cascade);
            next.Some? ==> i < |next.value| && next.value[i] == cat[i]
  {
    NoKeysThere(cat[i].foreignKeys, cat[k].name, name, []);
  }

  lemma {:induction false} UnrelatedConstraints(db: Database, cat: Tables, k: nat, ifExists: bool, name: string,
                                                cascade: bool, i: nat)
    requires k < |cat| && i < |cat| && Unrelated(cat, k, i)
    ensures var next := ExecDropConstraint(db, cat, k, ifExists, name, cascade);
            next.Some? ==> i < |next.value| && next.value[i] == cat[i]
  {
    NoKeysThere(cat[i].foreignKeys, cat[k].name, "", cat[k].primaryKey);
  }

  /** An operation on one table leaves every other alone that does not refer to it. */
  lemma {:induction false} UnrelatedStays(db: Database, cat: Tables, k: nat, op: AlterOp, i: nat)
    requires k < |cat| && i < |cat| && Unrelated(cat, k, i) && ExecTableOp(db, cat, k, op).Some?
    ensures i < |ExecTableOp(db, cat, k, op).value| && ExecTableOp(db, cat, k, op).value[i] == cat[i]
  {
    match op
    case DropColumn(ifExists, column, cascade) => UnrelatedDrops(db, cat, k, ifExists, column.value, cascade, i);
    case DropConstraint(ifExists, name, cascade) => UnrelatedConstraints(db, cat, k, ifExists, name.value, cascade, i);
    case RenameColumn(from, to) => UnrelatedRenames(cat, k, from.value, to.value, i);
    case RenameTable(newName) => UnrelatedRenames(cat, k, "", LastIdent(newName), i);
    case _ =>
  }

  lemma {:induction false} OwnAlterKeeps(db: Database, base: Tables, cat: Tables, k: nat, op: AlterOp)
    requires Keeping(db.backend, base, cat) && ParentsPresent(base) && k < |cat| && !Named(base, cat[k].name)
    requires ExecTableOp(db, cat, k, op).Some?
    ensures Keeping(db.backend, base, ExecTableOp(db, cat, k, op).value)
  {
    var next := ExecTableOp(db, cat, k, op).value;
    SoundTableOp(db, cat, k, op);
    forall i | 0 <= i < |base|
      ensures i < |next| && next[i] == base[i]
    {
      assert base[i] == cat[i] && cat[i].name != cat[k].name;
      assert forall j :: 0 <= j < |base[i].foreignKeys| ==> Named(base, base[i].foreignKeys[j].parent);
      UnrelatedStays(db, cat, k, op, i);
    }
    assert base != [] ==> base[|base| - 1] == next[|base| - 1];
  }

  lemma {:induction false} OwnChangeKeeps(db: Database, base: Tables, cat: Catalogue, a: Action)
    requires Keeping(db.backend, base, cat.tables) && ParentsPresent(base)
    requires OwnChange(db, base, cat, a) && Exec(db, cat, a).Some?
    ensures Keeping(db.backend, base, Exec(db, cat, a).value.tables)
  {
    match a
    case Whole(s) =>
      if s.CreateTable? {
        var added := CreateExtends(db, cat, s);
        CreateKeepsSound(db, cat, s);
      }
    case Part(name, _, op) =>
      match CatFind(cat.tables, db.readAs(name[0])) {
        case Some(k) =>
          if !LeftToDatabase(db, cat.tables[k], ReadOp(db, op)) {
            OwnAlterKeeps(db, base, cat.tables, k, ReadOp(db, op));
          }
        case None =>
      }
  }

  /**
   A migration that creates tables and then alters only those, beside whatever is not about tables, leaves the
   tables that were there alone: the equivalence above applies to it.
   */
  lemma {:induction false} OwnChangesExtend(db: Database, base: Tables, cat: Catalogue, actions: seq<Action>)
    requires Keeping(db.backend, base, cat.tables) && ParentsPresent(base)
    requires OwnChanges(db, base, cat, actions) && ExecAll(db, cat, actions).Some?
    ensures Keeping(db.backend, base, ExecAll(db, cat, actions).value.tables)
    ensures Extends(base, ExecAll(db, cat, actions).value.tables)
    decreases |actions|
  {
    if actions != [] {
      OwnChangeKeeps(db, base, cat, actions[0]);
      OwnChangesExtend(db, base, Exec(db, cat, actions[0]).value, actions[1..]);
    }
  }

  // ----- Migrations of CREATE TABLEs -----

  /** A statement outside the model that leaves the tables alone wherever it is accepted, such as CREATE INDEX. */
  ghost predicate NotOfTables(db: Database, s: Statement) {
    forall cat: Catalogue :: db.other(cat, Whole(s)).Some? ==> db.other(cat, Whole(s)).value.tables == cat.tables
  }

  ghost predicate Creates(db: Database, s: Statement) {
    s.CreateTable? || (s.OtherStatement? && NotOfTables(db, s))
  }

  ghost predicate OnlyCreates(db: Database, statements: seq<Statement>) {
    forall i :: 0 <= i < |statements| ==> Creates(db, statements[i])
  }

  /** The names under which the database creates the tables. */
  function RealNames(db: Database, statements: seq<Statement>): seq<string> {
    if statements == [] then []
    else
      (if statements[0].CreateTable? then [LastIdent(ReadName(db, statements[0].name))] else []) +
      RealNames(db, statements[1..])
  }

  lemma {:induction false} RealAppend(db: Database, x: seq<Statement>, y: seq<Statement>)
    ensures RealNames(db, x + y) == RealNames(db, x) + RealNames(db, y)
  {
    if x == [] {
      assert x + y == y;
    } else {
      assert (x + y)[1..] == x[1..] + y;
      RealAppend(db, x[1..], y);
    }
  }

  lemma {:induction false} RealOne(db: Database, s: Statement)
    ensures RealNames(db, [s]) == if s.CreateTable? then [LastIdent(ReadName(db, s.name))] else []
  {
    assert [s][1..] == [];
  }

  lemma {:induction false} OnlyCreatesParts(db: Database, x: seq<Statement>, y: seq<Statement>)
    requires OnlyCreates(db, x + y)
    ensures OnlyCreates(db, x) && OnlyCreates(db, y)
  {
    assert forall i :: 0 <= i < |x| ==> x[i] == (x + y)[i];
    assert forall i :: 0 <= i < |y| ==> y[i] == (x + y)[|x| + i];
  }

  /** One such statement adds at most a table of its name. */
  lemma {:induction false} AddedBy(db: Database, cat: Catalogue, s: Statement) returns (added: Tables)
    requires Creates(db, s) && Exec(db, cat, Whole(s)).Some?
    ensures Exec(db, cat, Whole(s)).value.tables == cat.tables + added && |added| <= 1
    ensures AllIn(added, RealNames(db, [s])) && NoneIn(cat.tables, added)
    ensures added != [] ==>
              s.CreateTable? && ParentsExist(db.backend, cat.tables + added, added[0].foreignKeys)
  {
    RealOne(db, s);
    if s.CreateTable? {
      added := CreateExtends(db, cat, s);
    } else {
      added := [];
      assert cat.tables + [] == cat.tables;
    }
  }

  lemma {:induction false} NamedAppend(x: Tables, y: Tables, name: string)
    ensures Named(x + y, name) <==> Named(x, name) || Named(y, name)
  {
    if Named(x, name) {
      var i :| 0 <= i < |x| && x[i].name == name;
      assert (x + y)[i] == x[i];
    }
    if Named(y, name) {
      var i :| 0 <= i < |y| && y[i].name == name;
      assert (x + y)[|x| + i] == y[i];
    }
  }

  /** Such a migration puts tables of its own names, none of them there before, behind the others. */
  lemma {:induction false} CreatesAppend(db: Database, cat: Catalogue,
                                         statements: seq<Statement>) returns (added: Tables)
    requires OnlyCreates(db, statements) && ExecStatements(db, cat, statements).Some?
    ensures ExecStatements(db, cat, statements).value.tables == cat.tables + added
    ensures AllIn(added, RealNames(db, statements)) && NoneIn(cat.tables, added)
    decreases |statements|
  {
    added := [];
    if statements == [] {
      assert cat.tables + added == cat.tables;
    } else {
      var s, rest := statements[0], statements[1..];
      assert Creates(db, s);
      ExecFirst(db, cat, statements);
      assert statements == [s] + rest;
      OnlyCreatesParts(db, [s], rest);
      RealAppend(db, [s], rest);
      var first := AddedBy(db, cat, s);
      var later := CreatesAppend(db, Exec(db, cat, Whole(s)).value, rest);
      added := first + later;
      AppendedTwice(cat.tables, first, later, RealNames(db, [s]), RealNames(db, rest));
    }
  }

  lemma {:induction false} AppendedTwice(cat: Tables, first: Tables, later: Tables, x: seq<string>, y: seq<string>)
    requires AllIn(first, x) && AllIn(later, y) && NoneIn(cat, first) && NoneIn(cat + first, later)
    ensures cat + first + later == cat + (first + later)
    ensures AllIn(first + later, x + y) && NoneIn(cat, first + later)
  {
    assert cat + first + later == cat + (first + later);
    forall i | 0 <= i < |later|
      ensures !Named(cat, later[i].name)
    {
      NamedAppend(cat, first, later[i].name);
    }
  }

  lemma {:induction false} CreationKeepsSound(db: Database, cat: Catalogue, s: Statement)
    requires Creates(db, s) && IsSound(db.backend, cat.tables) && Exec(db, cat, Whole(s)).Some?
    ensures IsSound(db.backend, Exec(db, cat, Whole(s)).value.tables)
  {
    if s.CreateTable? {
      CreateKeepsSound(db, cat, s);
    }
  }

  lemma {:induction false} CreationsKeepSound(db: Database, cat: Catalogue, statements: seq<Statement>)
    requires OnlyCreates(db, statements) && IsSound(db.backend, cat.tables) && ExecStatements(db, cat, statements).Some?
    ensures IsSound(db.backend, ExecStatements(db, cat, statements).value.tables)
    decreases |statements|
  {
    if statements != [] {
      assert Creates(db, statements[0]);
      ExecFirst(db, cat, statements);
      CreationKeepsSound(db, cat, statements[0]);
      CreationsKeepSound(db, Exec(db, cat, Whole(statements[0])).value, statements[1..]);
    }
  }

  // ----- Their order -----

  lemma {:induction false} DistinctParts(earlier: seq<string>, later: seq<string>)
    requires Distinct(earlier + later)
    ensures Distinct(earlier) && Distinct(later) && forall i :: 0 <= i < |later| ==> later[i] !in earlier
  {
    var all := earlier + later;
    assert forall i :: 0 <= i < |later| ==> later[i] == all[|earlier| + i];
    assert forall i :: 0 <= i < |earlier| ==> earlier[i] == all[i];
    forall i, j | 0 <= i < |later| && 0 <= j < |earlier|
      ensures earlier[j] != later[i]
    {
      assert all[j] != all[|earlier| + i];
    }
  }

  lemma {:induction false} FreshParts(cat: Tables, x: seq<string>, y: seq<string>)
    ensures Fresh(cat, x + y) <==> Fresh(cat, x) && Fresh(cat, y)
  {
    assert forall i :: 0 <= i < |x| ==> (x + y)[i] == x[i];
    assert forall i :: 0 <= i < |y| ==> (x + y)[|x| + i] == y[i];
  }

  /** After the first part of such a migration the names of the second are still new. */
  lemma {:induction false} FreshHalfway(db: Database, cat: Catalogue, x: seq<Statement>, later: seq<string>)
    requires OnlyCreates(db, x) && ExecStatements(db, cat, x).Some?
    requires Distinct(RealNames(db, x) + later) && Fresh(cat.tables, RealNames(db, x) + later)
    ensures Distinct(later) && Fresh(ExecStatements(db, cat, x).value.tables, later)
  {
    var earlier := RealNames(db, x);
    var added := CreatesAppend(db, cat, x);
    DistinctParts(earlier, later);
    FreshParts(cat.tables, earlier, later);
    forall i | 0 <= i < |later|
      ensures !Named(cat.tables + added, later[i])
    {
      NamedAppend(cat.tables, added, later[i]);
    }
  }

  /** A table just put behind the others is referred to by none of them. */
  lemma {:induction false} NewestIsFree(cat: Tables, added: Tables, name: string)
    requires ParentsPresent(cat) && |added| <= 1 && AllIn(added, [name]) && !Named(cat, name)
    ensures Free(cat + added, name) && WithoutTables(cat + added, [name]) == cat
  {
    var next := cat + added;
    forall i, j | 0 <= i < |next| && 0 <= j < |next[i].foreignKeys|
      ensures next[i].name == name || next[i].foreignKeys[j].parent != name
    {
      if i < |cat| {
        assert next[i] == cat[i] && Named(cat, cat[i].foreignKeys[j].parent);
      } else {
        assert next[i] == added[i - |cat|];
      }
    }
    FreshIffNoneNamed(cat, [name]);
    LeavesIff(cat, added, [name]);
  }

  /** Tables created under new and different names can be dropped in reverse. */
  lemma {:induction false} CreationsInOrder(db: Database, cat: Catalogue, statements: seq<Statement>)
    requires db.backend.Postgres? && IsSound(Postgres, cat.tables)
    requires OnlyCreates(db, statements) && ExecStatements(db, cat, statements).Some?
    requires Distinct(RealNames(db, statements)) && Fresh(cat.tables, RealNames(db, statements))
    ensures DropsInOrder(ExecStatements(db, cat, statements).value.tables, RealNames(db, statements))
  {
    if statements != [] {
      var n := |statements| - 1;
      var x, s := statements[..n], statements[n];
      assert statements == x + [s];
      StatementsInTurn(db, cat, x, [s]);
      OneStatement(db, ExecStatements(db, cat, x).value, s) by {
        assert Creates(db, s);
      }
      OnlyCreatesParts(db, x, [s]);
      RealAppend(db, x, [s]);
      FreshHalfway(db, cat, x, RealNames(db, [s]));
      DistinctParts(RealNames(db, x), RealNames(db, [s]));
      FreshParts(cat.tables, RealNames(db, x), RealNames(db, [s]));
      CreationsInOrder(db, cat, x);
      CreationsKeepSound(db, cat, x);
      LastInOrder(db, ExecStatements(db, cat, x).value, RealNames(db, x), s);
    }
  }

  lemma {:induction false} LastInOrder(db: Database, mid: Catalogue, names: seq<string>, s: Statement)
    requires Creates(db, s) && Exec(db, mid, Whole(s)).Some? && IsSound(Postgres, mid.tables)
    requires DropsInOrder(mid.tables, names) && Fresh(mid.tables, RealNames(db, [s]))
    ensures DropsInOrder(Exec(db, mid, Whole(s)).value.tables, names + RealNames(db, [s]))
  {
    var added := AddedBy(db, mid, s);
    RealOne(db, s);
    if s.CreateTable? {
      var name := LastIdent(ReadName(db, s.name));
      assert RealNames(db, [s])[0] == name;
      NewestIsFree(mid.tables, added, name);
      OrderStep(mid.tables + added, names, name);
    } else {
      assert added == [];
      assert names + [] == names && mid.tables + [] == mid.tables;
    }
  }

  // ----- Names that survive the loss of their quotes -----

  /** A name the database reads alike without its quotes. */
  predicate Plain(db: Database, name: ObjectName) {
    && name != []
    && db.legal(Ident(LastIdent(name), None))
    && db.readAs(Ident(LastIdent(name), None)) == LastIdent(ReadName(db, name))
  }

  predicate PlainNames(db: Database, statements: seq<Statement>) {
    forall i :: 0 <= i < |statements| && statements[i].CreateTable? ==> Plain(db, statements[i].name)
  }

  lemma {:induction false} PlainParts(db: Database, x: seq<Statement>, y: seq<Statement>)
    requires PlainNames(db, x + y)
    ensures PlainNames(db, x) && PlainNames(db, y)
  {
    assert forall i :: 0 <= i < |x| ==> x[i] == (x + y)[i];
    assert forall i :: 0 <= i < |y| ==> y[i] == (x + y)[|x| + i];
  }

  lemma {:induction false} BareAppend(db: Database, x: seq<string>, y: seq<string>)
    ensures BareNames(db, x + y) == BareNames(db, x) + BareNames(db, y)
    ensures BareLegal(db, x + y) <==> BareLegal(db, x) && BareLegal(db, y)
  {
    assert forall i :: 0 <= i < |x| ==> (x + y)[i] == x[i];
    assert forall i :: 0 <= i < |y| ==> (x + y)[|x| + i] == y[i];
  }

  lemma {:induction false} PlainAreReal(db: Database, statements: seq<Statement>)
    requires PlainNames(db, statements)
    ensures BareNames(db, CreatedBy(statements)) == RealNames(db, statements) && BareLegal(db, CreatedBy(statements))
  {
    if statements != [] {
      var s, rest := statements[0], statements[1..];
      assert statements == [s] + rest;
      PlainParts(db, [s], rest);
      PlainAreReal(db, rest);
      CreatedByAppend([s], rest);
      RealAppend(db, [s], rest);
      RealOne(db, s);
      BareAppend(db, CreatedBy([s]), CreatedBy(rest));
      assert CreatedBy([s]) == if s.CreateTable? then [LastIdent(s.name)] else [] by {
        assert [s][1..] == [];
      }
      assert [s][0] == s;
    }
  }

  // ----- Plain creations -----

  /**
   What a migration does besides its tables is tidy: nothing pins one of them or has a name of theirs, all that it
   adds goes with one of them, and nothing that was there is gone or goes with them.
   */
  predicate Tidy(b: Backend, cat: Catalogue, after: Catalogue, names: seq<string>) {
    !Pinned(b, after, names) && NamesClear(b, after, names) && OthersUndone(cat, after, names)
  }

  /**
   For tables created under plain names, on SQLite and, where the names differ, on PostgreSQL: the derived down
   restores the catalogue if and only if no created name was there before and all else is tidy. So indexes on the
   created tables are undone with them.
   */
  lemma {:induction false} DownRestoresIffFresh(db: Database, cat: Catalogue, statements: seq<Statement>)
    requires IsSound(db.backend, cat.tables) && OnlyCreates(db, statements) && ExecStatements(db, cat, statements).Some?
    requires PlainNames(db, statements) && (db.backend.Sqlite? || Distinct(RealNames(db, statements)))
    ensures var after := ExecStatements(db, cat, statements).value; var names := RealNames(db, statements);
            ExecStatements(db, after, Drops(CreatedBy(statements))) == Some(cat) <==>
              Fresh(cat.tables, names) && Tidy(db.backend, cat, after, names)
  {
    var after := ExecStatements(db, cat, statements).value;
    var added := CreatesAppend(db, cat, statements);
    CreationsKeepSound(db, cat, statements);
    DownRestoresIff(db, cat, statements);
    PlainAreReal(db, statements);
    assert forall i :: |cat.tables| <= i < |after.tables| ==> after.tables[i] == added[i - |cat.tables|];
    if db.backend.Postgres? && Fresh(cat.tables, RealNames(db, statements)) {
      CreationsInOrder(db, cat, statements);
    }
  }

  /** Created under new and different names that need no quotes. */
  predicate NewNames(db: Database, cat: Catalogue, statements: seq<Statement>) {
    && PlainNames(db, statements) && Distinct(RealNames(db, statements))
    && Fresh(cat.tables, RealNames(db, statements))
  }

  /** In particular the derived down brings the catalogue back if all names are new, different and plain. */
  lemma {:induction false} DownUndoesUp(db: Database, cat: Catalogue, statements: seq<Statement>)
    requires IsSound(db.backend, cat.tables) && OnlyCreates(db, statements) && ExecStatements(db, cat, statements).Some?
    requires NewNames(db, cat, statements)
    requires Tidy(db.backend, cat, ExecStatements(db, cat, statements).value, RealNames(db, statements))
    ensures ExecStatements(db, ExecStatements(db, cat, statements).value, Drops(CreatedBy(statements))) == Some(cat)
  {
    DownRestoresIffFresh(db, cat, statements);
  }

  // ----- Halfway down -----

  /**
   The derived down retraces the up: wherever the up is cut in two, the drops for the second part come first, and
   if the down goes through at all they lead to exactly the tables the up had at the cut.
   */
  lemma {:induction false} DownRetracesUp(db: Database, cat: Catalogue, x: seq<Statement>, y: seq<Statement>)
    requires OnlyCreates(db, x + y) && ExecStatements(db, cat, x + y).Some? && NewNames(db, cat, x + y)
    requires ExecStatements(db, ExecStatements(db, cat, x + y).value, Drops(CreatedBy(x + y))).Some?
    ensures Drops(CreatedBy(x + y)) == Drops(CreatedBy(y)) + Drops(CreatedBy(x))
    ensures ExecStatements(db, cat, x).Some?
    ensures var halfway := ExecStatements(db, ExecStatements(db, cat, x + y).value, Drops(CreatedBy(y)));
            halfway.Some? && halfway.value.tables == ExecStatements(db, cat, x).value.tables
  {
    var after := ExecStatements(db, cat, x + y).value;
    CreatedByAppend(x, y);
    DropsAppend(CreatedBy(x), CreatedBy(y));
    StatementsInTurn(db, cat, x, y);
    StatementsInTurn(db, after, Drops(CreatedBy(y)), Drops(CreatedBy(x)));
    OnlyCreatesParts(db, x, y);
    PlainParts(db, x, y);
    RealAppend(db, x, y);
    FreshHalfway(db, cat, x, RealNames(db, y));
    HalfwayTables(db, ExecStatements(db, cat, x).value, y);
  }

  /** The drops of new and plain names take away just the tables that were added. */
  lemma {:induction false} HalfwayTables(db: Database, mid: Catalogue, y: seq<Statement>)
    requires OnlyCreates(db, y) && ExecStatements(db, mid, y).Some?
    requires PlainNames(db, y) && Fresh(mid.tables, RealNames(db, y))
    requires ExecStatements(db, ExecStatements(db, mid, y).value, Drops(CreatedBy(y))).Some?
    ensures ExecStatements(db, ExecStatements(db, mid, y).value, Drops(CreatedBy(y))).value.tables == mid.tables
  {
    var added := CreatesAppend(db, mid, y);
    PlainAreReal(db, y);
    DropsAcceptedIff(db, ExecStatements(db, mid, y).value, CreatedBy(y));
    LeavesIff(mid.tables, added, RealNames(db, y));
  }

  /** Every foreign key leads to a table that is there already, or to its own. SQLite does not ask for this. */
  predicate RefersBackwards(db: Database, cat: Catalogue, statements: seq<Statement>)
    decreases |statements|
  {
    statements != [] && Exec(db, cat, Whole(statements[0])).Some? ==>
      && ParentsPresent(Exec(db, cat, Whole(statements[0])).value.tables)
      && RefersBackwards(db, Exec(db, cat, Whole(statements[0])).value, statements[1..])
  }

  lemma {:induction false} BackwardsKeepsParents(db: Database, cat: Catalogue, x: seq<Statement>, y: seq<Statement>)
    requires OnlyCreates(db, x + y) && ParentsPresent(cat.tables) && RefersBackwards(db, cat, x + y)
    requires ExecStatements(db, cat, x).Some?
    ensures ParentsPresent(ExecStatements(db, cat, x).value.tables)
    decreases |x|
  {
    if x != [] {
      assert Creates(db, (x + y)[0]) && (x + y)[0] == x[0];
      assert (x + y)[1..] == x[1..] + y;
      ExecFirst(db, cat, x);
      OnlyCreatesParts(db, [x[0]], x[1..] + y) by {
        assert [x[0]] + (x[1..] + y) == x + y;
      }
      BackwardsKeepsParents(db, Exec(db, cat, Whole(x[0])).value, x[1..], y);
    }
  }

  /**
   Where the up only ever refers to tables that are there, no point of the down leaves a foreign key dangling, on
   SQLite as well: no single drop removes a table that one still there refers to.
   */
  lemma {:induction false} NoDropOrphans(db: Database, cat: Catalogue, x: seq<Statement>, y: seq<Statement>)
    requires ParentsPresent(cat.tables) && OnlyCreates(db, x + y) && ExecStatements(db, cat, x + y).Some?
    requires NewNames(db, cat, x + y) && RefersBackwards(db, cat, x + y)
    requires ExecStatements(db, ExecStatements(db, cat, x + y).value, Drops(CreatedBy(x + y))).Some?
    ensures ExecStatements(db, ExecStatements(db, cat, x + y).value, Drops(CreatedBy(y))).Some?
    ensures ParentsPresent(ExecStatements(db, ExecStatements(db, cat, x + y).value, Drops(CreatedBy(y))).value.tables)
  {
    DownRetracesUp(db, cat, x, y);
    BackwardsKeepsParents(db, cat, x, y);
  }

  // ----- Stacks of migrations -----

  function RunUps(db: Database, cat: Catalogue, migrations: seq<seq<Statement>>): Option<Catalogue>
    decreases |migrations|
  {
    if migrations == [] then Some(cat)
    else
      match ExecStatements(db, cat, migrations[0])
      case Some(next) => RunUps(db, next, migrations[1..])
      case None => None
  }

  /** The downs, from the last migration to the first. */
  function RunDowns(db: Database, cat: Catalogue, migrations: seq<seq<Statement>>): Option<Catalogue>
    decreases |migrations|
  {
    if migrations == [] then Some(cat)
    else
      match RunDowns(db, cat, migrations[1..])
      case Some(mid) => ExecStatements(db, mid, Drops(CreatedBy(migrations[0])))
      case None => None
  }

  /** Each migration leaves the tables it finds alone, and is undoable in the catalogue it meets. */
  predicate Stackable(db: Database, cat: Catalogue, migrations: seq<seq<Statement>>)
    decreases |migrations|
  {
    migrations != [] && ExecStatements(db, cat, migrations[0]).Some? ==>
      var next := ExecStatements(db, cat, migrations[0]).value;
      && Extends(cat.tables, next.tables) && Undoable(db, cat, next, CreatedBy(migrations[0]))
      && Stackable(db, next, migrations[1..])
  }

  /** A whole stack of such migrations, undone in reverse, leads back to the start. */
  lemma {:induction false} StackUndoes(db: Database, cat: Catalogue, migrations: seq<seq<Statement>>)
    requires Stackable(db, cat, migrations) && RunUps(db, cat, migrations).Some?
    ensures RunDowns(db, RunUps(db, cat, migrations).value, migrations) == Some(cat)
    decreases |migrations|
  {
    if migrations != [] {
      var next := ExecStatements(db, cat, migrations[0]).value;
      StackUndoes(db, next, migrations[1..]);
      DownRestoresIff(db, cat, migrations[0]);
    }
  }
}
