/**
 Running a derived `down.sql`: when a database accepts it, and what it leaves. The down names its tables without
 qualifiers and quotes, and the database may read that otherwise than in the up, or not at all.
 */
module Dropping {
  import opened Wrappers
  import opened Sql
  import opened Rendering
  import opened Catalog
  import opened Sound

  // ----- The statements of the derived down -----

  function DropOf(name: string): Statement {
    DropTable([[Ident(name, None)]], true, false)
  }

  /** The created tables dropped in reverse. */
  function Drops(created: seq<string>): seq<Statement> {
    if created == [] then []
    else [DropOf(created[|created| - 1])] + Drops(created[..|created| - 1])
  }

  /** Where the library prints a DROP as its fixed text, the derived down is the printing of `Drops`. */
  lemma {:induction false} DropTextsAreDrops(lib: SqlLibrary, created: seq<string>)
    requires forall t: string :: lib.show(DropOf(t)) == "DROP TABLE IF EXISTS " + t
    ensures |DropTexts(created)| == |Drops(created)| == |created|
    ensures forall i :: 0 <= i < |created| ==> DropTexts(created)[i] == lib.show(Drops(created)[i]) + ";"
  {
    if created != [] {
      var n := |created| - 1;
      DropTextsAreDrops(lib, created[..n]);
      assert DropText(created[n]) == lib.show(DropOf(created[n])) + ";";
      assert DropTexts(created)[1..] == DropTexts(created[..n]) && Drops(created)[1..] == Drops(created[..n]);
      assert forall i :: 1 <= i < |created| ==> DropTexts(created)[i] == DropTexts(created[..n])[i - 1];
    }
  }

  lemma {:induction false} DropsAppend(x: seq<string>, y: seq<string>)
    ensures Drops(x + y) == Drops(y) + Drops(x)
  {
    if y == [] {
      assert x + y == x;
      assert Drops(y) + Drops(x) == Drops(x);
    } else {
      assert (x + y)[..|x + y| - 1] == x + y[..|y| - 1];
      DropsAppend(x, y[..|y| - 1]);
    }
  }

  // ----- Running statements -----

  function ExecStatements(db: Database, cat: Catalogue, statements: seq<Statement>): Option<Catalogue> {
    ExecAll(db, cat, Actions(statements))
  }

  lemma {:induction false} ActionsAppend(x: seq<Statement>, y: seq<Statement>)
    ensures Actions(x + y) == Actions(x) + Actions(y)
  {
    if x == [] {
      assert x + y == y;
    } else {
      assert (x + y)[1..] == x[1..] + y;
      ActionsAppend(x[1..], y);
    }
  }

  lemma {:induction false} StatementsInTurn(db: Database, cat: Catalogue, x: seq<Statement>, y: seq<Statement>)
    ensures ExecStatements(db, cat, x + y) ==
            match ExecStatements(db, cat, x) { case Some(mid) => ExecStatements(db, mid, y) case None => None }
  {
    ActionsAppend(x, y);
    ExecAppend(db, cat, Actions(x), Actions(y));
  }

  lemma {:induction false} OneAction(db: Database, cat: Catalogue, a: Action)
    ensures ExecAll(db, cat, [a]) == Exec(db, cat, a)
  {
    assert [a][1..] == [];
  }

  lemma {:induction false} OneStatement(db: Database, cat: Catalogue, s: Statement)
    requires !s.AlterTable?
    ensures ExecStatements(db, cat, [s]) == Exec(db, cat, Whole(s))
  {
    assert [s][1..] == [];
    assert ActionsOf(s) == [Whole(s)];
    assert Actions([s]) == [Whole(s)] + [] == [Whole(s)];
    OneAction(db, cat, Whole(s));
  }

  /** One statement at a time, for the statements that are one change each. */
  lemma {:induction false} ExecFirst(db: Database, cat: Catalogue, statements: seq<Statement>)
    requires statements != [] && !statements[0].AlterTable?
    ensures ExecStatements(db, cat, statements) ==
            match Exec(db, cat, Whole(statements[0]))
            case Some(next) => ExecStatements(db, next, statements[1..])
            case None => None
  {
    assert statements == [statements[0]] + statements[1..];
    StatementsInTurn(db, cat, [statements[0]], statements[1..]);
    OneStatement(db, cat, statements[0]);
  }

  // ----- One drop -----

  /** What the database reads in the bare names of the down. */
  function BareNames(db: Database, created: seq<string>): (r: seq<string>)
    ensures |r| == |created| && forall i :: 0 <= i < |r| ==> r[i] == db.readAs(Ident(created[i], None))
  {
    seq(|created|, i requires 0 <= i < |created| => db.readAs(Ident(created[i], None)))
  }

  /** No created name is a reserved word, or otherwise no name, once its quotes are gone. */
  predicate BareLegal(db: Database, created: seq<string>) {
    forall i :: 0 <= i < |created| ==> db.legal(Ident(created[i], None))
  }

  lemma {:induction false} ExecDropOf(db: Database, cat: Catalogue, name: string)
    ensures Exec(db, cat, Whole(DropOf(name))) ==
            if !db.legal(Ident(name, None)) then None
            else ExecDropTable(db.backend, cat, [db.readAs(Ident(name, None))], true, false)
  {
    var names := [[Ident(name, None)]];
    assert ReadNames(db, names) == [db.readAs(Ident(name, None))];
    assert names[0] == [Ident(name, None)];
    assert Legal(db, names[0]) <==> db.legal(Ident(name, None));
    assert (exists i :: 0 <= i < |names| && !Legal(db, names[i])) <==> !Legal(db, names[0]);
  }

  lemma {:induction false} WithoutAppend(x: Tables, y: Tables, names: seq<string>)
    ensures WithoutTables(x + y, names) == WithoutTables(x, names) + WithoutTables(y, names)
  {
    if x == [] {
      assert x + y == y;
    } else {
      assert (x + y)[1..] == x[1..] + y;
      WithoutAppend(x[1..], y, names);
    }
  }

  lemma {:induction false} WithoutNone(cat: Tables, names: seq<string>)
    requires !SomeNamed(cat, names)
    ensures WithoutTables(cat, names) == cat
  {
    if cat != [] {
      assert forall i :: 0 <= i < |cat[1..]| ==> cat[1..][i] == cat[i + 1];
      assert cat[0].name !in names;
      WithoutNone(cat[1..], names);
      assert cat == [cat[0]] + cat[1..];
    }
  }

  lemma {:induction false} WithoutShrinks(cat: Tables, names: seq<string>)
    ensures |WithoutTables(cat, names)| <= |cat|
    ensures WithoutTables(cat, names) == cat <==> !SomeNamed(cat, names)
    ensures WithoutTables(cat, names) == [] <==> forall i :: 0 <= i < |cat| ==> cat[i].name in names
  {
    if cat != [] {
      WithoutShrinks(cat[1..], names);
      assert cat == [cat[0]] + cat[1..];
      assert forall i :: 0 <= i < |cat[1..]| ==> cat[1..][i] == cat[i + 1];
      assert forall i :: 1 <= i < |cat| ==> cat[i] == cat[1..][i - 1];
    }
  }

  lemma {:induction false} WithoutTwice(cat: Tables, names: seq<string>, name: string)
    ensures WithoutTables(WithoutTables(cat, [name]), names) == WithoutTables(cat, names + [name])
  {
    if cat != [] {
      WithoutTwice(cat[1..], names, name);
      WithoutAppend(if cat[0].name in [name] then [] else [cat[0]], WithoutTables(cat[1..], [name]), names);
      assert cat[0].name in names + [name] <==> cat[0].name in names || cat[0].name == name;
      assert WithoutTables([cat[0]], names) == (if cat[0].name in names then [] else [cat[0]]) + [];
    }
  }

  /** What drops of these tables leave: the other tables, and all that does not go with them. */
  function Left(cat: Catalogue, names: seq<string>): Catalogue {
    Catalogue(WithoutTables(cat.tables, names), OthersLeft(cat, names, false))
  }

  lemma {:induction false} HangsOnEither(r: Relation, cat: Tables, names: seq<string>, name: string)
    ensures HangsOn(r, cat, names + [name]) <==>
            HangsOn(r, cat, [name]) || HangsOn(r, WithoutTables(cat, [name]), names)
  {
    var rest := WithoutTables(cat, [name]);
    forall other: string
      ensures Named(rest, other) <==> Named(cat, other) && other != name
    {
      WithoutNamed(cat, [name], other);
    }
    if HangsOn(r, cat, names + [name]) && !HangsOn(r, cat, [name]) {
      var other :| other in r.on && other in names + [name] && Named(cat, other);
      assert other != name && Named(rest, other);
    }
    if HangsOn(r, cat, [name]) {
      assert name in r.on && name in names + [name] && Named(cat, name);
    }
    if HangsOn(r, rest, names) {
      var other :| other in r.on && other in names && Named(rest, other);
      assert other in names + [name] && Named(cat, other);
    }
  }

  lemma {:induction false} LeftTwice(cat: Catalogue, names: seq<string>, name: string)
    ensures Left(Left(cat, [name]), names) == Left(cat, names + [name])
  {
    WithoutTwice(cat.tables, names, name);
    forall r | r in cat.others
      ensures Gone(r, cat.tables, names + [name], false) <==>
              Gone(r, cat.tables, [name], false) || Gone(r, WithoutTables(cat.tables, [name]), names, false)
    {
      HangsOnEither(r, cat.tables, names, name);
    }
  }

  lemma {:induction false} LeftNone(cat: Catalogue)
    ensures Left(cat, []) == cat
  {
    WithoutNone(cat.tables, []);
  }

  // ----- In what order tables can be dropped -----

  /** The last position of a name, which is the one at which the down drops it. */
  function Last(names: seq<string>, name: string): (k: nat)
    requires name in names
    ensures k < |names| && names[k] == name && forall i :: k < i < |names| ==> names[i] != name
  {
    var n := |names| - 1;
    if names[n] == name then n
    else
      assert name in names[..n];
      Last(names[..n], name)
  }

  /** A table that refers to one of the names is among them, and dropped before it. */
  predicate DropsInOrder(cat: Tables, names: seq<string>) {
    forall i, j :: 0 <= i < |cat| && 0 <= j < |cat[i].foreignKeys| ==>
        InOrder(cat, names, cat[i].name, cat[i].foreignKeys[j].parent)
  }

  predicate InOrder(cat: Tables, names: seq<string>, table: string, parent: string) {
    parent in names && parent != table && Named(cat, parent) ==>
        table in names && Last(names, parent) < Last(names, table)
  }

  /** No other table refers to this one. */
  predicate Free(cat: Tables, name: string) {
    forall i, j :: 0 <= i < |cat| && 0 <= j < |cat[i].foreignKeys| ==>
        cat[i].name == name || cat[i].foreignKeys[j].parent != name
  }

  lemma {:induction false} DropsTablesIff(b: Backend, cat: Tables, name: string)
    ensures ExecDrop(b, cat, [name], true, false).Some? <==> (b.Postgres? && Named(cat, name) ==> Free(cat, name))
    ensures ExecDrop(b, cat, [name], true, false).Some? ==>
              ExecDrop(b, cat, [name], true, false).value == WithoutTables(cat, [name])
  {
    assert SomeNamed(cat, [name]) <==> Named(cat, name);
    assert Held(b, cat, [name]) <==> b.Postgres? && !Free(cat, name);
    if !SomeNamed(cat, [name]) {
      WithoutNone(cat, [name]);
    }
  }

  lemma {:induction false} LastOfSnoc(names: seq<string>, name: string, other: string)
    requires other != name && other in names
    ensures other in names + [name] && Last(names + [name], other) == Last(names, other)
    ensures Last(names + [name], name) == |names|
  {
    var all := names + [name];
    assert all[|all| - 1] == name && all[..|all| - 1] == names;
  }

  /** In what order the drops must come, one drop at a time. */
  lemma {:induction false} OrderStep(cat: Tables, names: seq<string>, name: string)
    ensures DropsInOrder(cat, names + [name]) <==>
            (Named(cat, name) ==> Free(cat, name)) && DropsInOrder(WithoutTables(cat, [name]), names)
  {
    if DropsInOrder(cat, names + [name]) {
      if Named(cat, name) {
        OrderFirst(cat, names, name);
      }
      OrderRest(cat, names, name);
    }
    if (Named(cat, name) ==> Free(cat, name)) && DropsInOrder(WithoutTables(cat, [name]), names) {
      OrderBack(cat, names, name);
    }
  }

  lemma {:induction false} OrderFirst(cat: Tables, names: seq<string>, name: string)
    requires DropsInOrder(cat, names + [name]) && Named(cat, name)
    ensures Free(cat, name)
  {
    var all := names + [name];
    assert all[|names|] == name && Last(all, name) == |names|;
    forall i, j | 0 <= i < |cat| && 0 <= j < |cat[i].foreignKeys|
      ensures cat[i].name == name || cat[i].foreignKeys[j].parent != name
    {
      assert InOrder(cat, all, cat[i].name, cat[i].foreignKeys[j].parent);
    }
  }

  lemma {:induction false} OrderRest(cat: Tables, names: seq<string>, name: string)
    requires DropsInOrder(cat, names + [name])
    ensures DropsInOrder(WithoutTables(cat, [name]), names)
  {
    var rest, all := WithoutTables(cat, [name]), names + [name];
    forall i, j | 0 <= i < |rest| && 0 <= j < |rest[i].foreignKeys|
      ensures InOrder(rest, names, rest[i].name, rest[i].foreignKeys[j].parent)
    {
      var table, parent := rest[i].name, rest[i].foreignKeys[j].parent;
      WithoutMember(cat, [name], rest[i]);
      var k :| 0 <= k < |cat| && cat[k] == rest[i];
      assert InOrder(cat, all, cat[k].name, cat[k].foreignKeys[j].parent);
      WithoutNamed(cat, [name], parent);
      if parent in names && parent != table && Named(rest, parent) {
        LastOfSnoc(names, name, parent);
        LastOfSnoc(names, name, table);
      }
    }
  }

  lemma {:induction false} OrderBack(cat: Tables, names: seq<string>, name: string)
    requires (Named(cat, name) ==> Free(cat, name)) && DropsInOrder(WithoutTables(cat, [name]), names)
    ensures DropsInOrder(cat, names + [name])
  {
    var rest, all := WithoutTables(cat, [name]), names + [name];
    assert all[|names|] == name;
    forall i, j | 0 <= i < |cat| && 0 <= j < |cat[i].foreignKeys|
      ensures InOrder(cat, all, cat[i].name, cat[i].foreignKeys[j].parent)
    {
      var table, parent := cat[i].name, cat[i].foreignKeys[j].parent;
      if parent in all && parent != table && Named(cat, parent) {
        assert parent != name && parent in names;
        LastOfSnoc(names, name, parent);
        if table != name {
          WithoutMember(cat, [name], cat[i]);
          var k :| 0 <= k < |rest| && rest[k] == cat[i];
          assert InOrder(rest, names, rest[k].name, rest[k].foreignKeys[j].parent);
          WithoutNamed(cat, [name], parent);
          LastOfSnoc(names, name, table);
        }
      }
    }
  }

  // ----- Names and pins -----

  /** What has this name goes with a table that is dropped before it comes to the name. */
  predicate GoneBefore(r: Relation, cat: Tables, names: seq<string>, name: string)
    requires name in names
  {
    r.bond.Goes? && exists m :: m in r.on && m in names && Named(cat, m) && Last(names, name) < Last(names, m)
  }

  /** Where the down comes to a name, nothing but a table has it. */
  predicate NamesClear(b: Backend, cat: Catalogue, names: seq<string>) {
    forall r, name :: r in cat.others && name in names && Trips(b, r, name) ==> GoneBefore(r, cat.tables, names, name)
  }

  /** A down of these names goes through. */
  predicate Droppable(b: Backend, cat: Catalogue, names: seq<string>) {
    (b.Postgres? ==> DropsInOrder(cat.tables, names)) && !Pinned(b, cat, names) && NamesClear(b, cat, names)
  }

  lemma {:induction false} PinnedStep(b: Backend, cat: Catalogue, names: seq<string>, name: string)
    ensures Pinned(b, cat, names + [name]) <==> Pinned(b, cat, [name]) || Pinned(b, Left(cat, [name]), names)
  {
    var rest := Left(cat, [name]);
    forall r | r in cat.others && r.bond.Pins?
      ensures r in rest.others
      ensures HangsOn(r, cat.tables, names + [name]) <==>
              HangsOn(r, cat.tables, [name]) || HangsOn(r, rest.tables, names)
    {
      HangsOnEither(r, cat.tables, names, name);
    }
  }

  lemma {:induction false} NamesStep(b: Backend, cat: Catalogue, names: seq<string>, name: string)
    ensures NamesClear(b, cat, names + [name]) <==>
            !Mistaken(b, cat, name) && NamesClear(b, Left(cat, [name]), names)
  {
    if NamesClear(b, cat, names + [name]) {
      NamesFirst(b, cat, names, name);
      NamesRest(b, cat, names, name);
    }
    if !Mistaken(b, cat, name) && NamesClear(b, Left(cat, [name]), names) {
      NamesBack(b, cat, names, name);
    }
  }

  lemma {:induction false} NamesFirst(b: Backend, cat: Catalogue, names: seq<string>, name: string)
    requires NamesClear(b, cat, names + [name])
    ensures !Mistaken(b, cat, name)
  {
    var all := names + [name];
    assert all[|names|] == name && Last(all, name) == |names|;
    forall r | r in cat.others
      ensures !Trips(b, r, name)
    {
      assert !GoneBefore(r, cat.tables, all, name);
    }
  }

  lemma {:induction false} NamesRest(b: Backend, cat: Catalogue, names: seq<string>, name: string)
    requires NamesClear(b, cat, names + [name])
    ensures NamesClear(b, Left(cat, [name]), names)
  {
    var rest, all := Left(cat, [name]), names + [name];
    NamesFirst(b, cat, names, name);
    forall r, other | r in rest.others && other in names && Trips(b, r, other)
      ensures GoneBefore(r, rest.tables, names, other)
    {
      assert other in all && GoneBefore(r, cat.tables, all, other);
      var m :| m in r.on && m in all && Named(cat.tables, m) && Last(all, other) < Last(all, m);
      assert m != name && other != name;
      WithoutNamed(cat.tables, [name], m);
      LastOfSnoc(names, name, other);
      LastOfSnoc(names, name, m);
    }
  }

  lemma {:induction false} NamesBack(b: Backend, cat: Catalogue, names: seq<string>, name: string)
    requires !Mistaken(b, cat, name) && NamesClear(b, Left(cat, [name]), names)
    ensures NamesClear(b, cat, names + [name])
  {
    var rest, all := Left(cat, [name]), names + [name];
    assert all[|names|] == name;
    forall r, other | r in cat.others && other in all && Trips(b, r, other)
      ensures GoneBefore(r, cat.tables, all, other)
    {
      assert other != name && other in names;
      LastOfSnoc(names, name, other);
      if r in rest.others {
        assert GoneBefore(r, rest.tables, names, other);
        var m :| m in r.on && m in names && Named(rest.tables, m) && Last(names, other) < Last(names, m);
        WithoutNamed(cat.tables, [name], m);
        LastOfSnoc(names, name, m);
        assert m in all;
      } else {
        assert HangsOn(r, cat.tables, [name]);
        assert name in r.on && name in all && Named(cat.tables, name);
      }
    }
  }

  // ----- The whole down -----

  /** One drop: accepted when nothing stands in its way, and then it leaves the rest. */
  lemma {:induction false} OneDropIff(b: Backend, cat: Catalogue, name: string)
    ensures ExecDropTable(b, cat, [name], true, false).Some? <==>
            && !Mistaken(b, cat, name) && !Pinned(b, cat, [name])
            && (b.Postgres? && Named(cat.tables, name) ==> Free(cat.tables, name))
    ensures ExecDropTable(b, cat, [name], true, false).Some? ==>
              ExecDropTable(b, cat, [name], true, false).value == Left(cat, [name])
  {
    var names := [name];
    DropsTablesIff(b, cat.tables, name);
    assert (exists i :: 0 <= i < |names| && Mistaken(b, cat, names[i])) <==> Mistaken(b, cat, names[0]);
  }

  lemma {:induction false} DroppableStep(b: Backend, cat: Catalogue, names: seq<string>, name: string)
    ensures Droppable(b, cat, names + [name]) <==>
            ExecDropTable(b, cat, [name], true, false).Some? && Droppable(b, Left(cat, [name]), names)
  {
    OneDropIff(b, cat, name);
    OrderStep(cat.tables, names, name);
    PinnedStep(b, cat, names, name);
    NamesStep(b, cat, names, name);
  }

  lemma {:induction false} BareSnoc(db: Database, created: seq<string>)
    requires created != []
    ensures var n := |created| - 1;
            && BareNames(db, created) == BareNames(db, created[..n]) + [db.readAs(Ident(created[n], None))]
            && (BareLegal(db, created) <==> BareLegal(db, created[..n]) && db.legal(Ident(created[n], None)))
            && Drops(created)[0] == DropOf(created[n]) && Drops(created)[1..] == Drops(created[..n])
  {
    var n := |created| - 1;
    assert forall i :: 0 <= i < n ==> created[..n][i] == created[i];
  }

  /**
   The down is accepted exactly when its bare names are legal, nothing else has one of them when its turn comes,
   and in PostgreSQL no view hangs on a table it drops and every table that refers to one is dropped before it.
   It leaves all other tables, and all that does not go with the dropped ones.
   */
  lemma {:induction false} DropsAcceptedIff(db: Database, cat: Catalogue, created: seq<string>)
    ensures ExecStatements(db, cat, Drops(created)).Some? <==>
            BareLegal(db, created) && Droppable(db.backend, cat, BareNames(db, created))
    ensures ExecStatements(db, cat, Drops(created)).Some? ==>
              ExecStatements(db, cat, Drops(created)).value == Left(cat, BareNames(db, created))
    decreases |created|
  {
    if created == [] {
      LeftNone(cat);
    } else {
      var n := |created| - 1;
      var name := db.readAs(Ident(created[n], None));
      BareSnoc(db, created);
      ExecFirst(db, cat, Drops(created));
      ExecDropOf(db, cat, created[n]);
      OneDropIff(db.backend, cat, name);
      DropsAcceptedIff(db, Left(cat, [name]), created[..n]);
      DroppableStep(db.backend, cat, BareNames(db, created[..n]), name);
      LeftTwice(cat, BareNames(db, created[..n]), name);
    }
  }

  /** In particular PostgreSQL refuses the down of a table that a view hangs on. */
  lemma {:induction false} PinnedDownIsRefused(db: Database, cat: Catalogue, created: seq<string>)
    requires Pinned(db.backend, cat, BareNames(db, created))
    ensures ExecStatements(db, cat, Drops(created)) == None
  {
    DropsAcceptedIff(db, cat, created);
  }
}
