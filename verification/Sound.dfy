/** What every accepted change keeps: table names stay unique and, in PostgreSQL, no foreign key dangles. */
module Sound {
  import opened Wrappers
  import opened Sql
  import opened Catalog

  predicate ParentsPresent(cat: Tables) {
    forall i, j :: 0 <= i < |cat| && 0 <= j < |cat[i].foreignKeys| ==> Named(cat, cat[i].foreignKeys[j].parent)
  }

  predicate DistinctTables(cat: Tables) {
    forall i, j :: 0 <= i < j < |cat| ==> cat[i].name != cat[j].name
  }

  predicate IsSound(b: Backend, cat: Tables) {
    DistinctTables(cat) && (b.Postgres? ==> ParentsPresent(cat))
  }

  /** Whatever the database does on its own keeps the catalogue sound. */
  ghost predicate Trusted(db: Database) {
    forall cat: Catalogue, a :: IsSound(db.backend, cat.tables) && db.other(cat, a).Some? ==>
      IsSound(db.backend, db.other(cat, a).value.tables)
  }

  lemma {:induction false} FindIffNamed(cat: Tables, name: string)
    ensures CatFind(cat, name).Some? <==> Named(cat, name)
  {
  }

  lemma {:induction false} FoundAt(cat: Tables, k: nat)
    requires DistinctTables(cat) && k < |cat|
    ensures CatFind(cat, cat[k].name) == Some(k)
  {
  }

  // ----- Changes that leave the table names alone -----

  predicate SameNames(x: Tables, y: Tables) {
    |x| == |y| && forall i :: 0 <= i < |x| ==> x[i].name == y[i].name
  }

  /** Every key of y leads to a table of x. */
  predicate KeysInto(x: Tables, y: Tables) {
    forall i, j :: 0 <= i < |y| && 0 <= j < |y[i].foreignKeys| ==> Named(x, y[i].foreignKeys[j].parent)
  }

  lemma {:induction false} SoundBySameNames(b: Backend, x: Tables, y: Tables)
    requires IsSound(b, x) && SameNames(x, y) && (b.Postgres? ==> KeysInto(x, y))
    ensures IsSound(b, y)
  {
    if b.Postgres? {
      forall i, j | 0 <= i < |y| && 0 <= j < |y[i].foreignKeys|
        ensures Named(y, y[i].foreignKeys[j].parent)
      {
        var k :| 0 <= k < |x| && x[k].name == y[i].foreignKeys[j].parent;
        assert y[k].name == x[k].name;
      }
    }
  }

  /** Tables that keep their names and gain no foreign keys. */
  lemma {:induction false} SoundWithFewerKeys(b: Backend, x: Tables, y: Tables)
    requires IsSound(b, x) && SameNames(x, y)
    requires forall i :: 0 <= i < |x| ==> forall fk :: fk in y[i].foreignKeys ==> fk in x[i].foreignKeys
    ensures IsSound(b, y)
  {
    if b.Postgres? {
      forall i, j | 0 <= i < |y| && 0 <= j < |y[i].foreignKeys|
        ensures Named(x, y[i].foreignKeys[j].parent)
      {
        assert y[i].foreignKeys[j] in x[i].foreignKeys;
      }
    }
    SoundBySameNames(b, x, y);
  }

  /** Replacing one table by another of its name whose new keys have present parents. */
  lemma {:induction false} SoundUpdate(b: Backend, cat: Tables, k: nat, t: CatTable, added: seq<CatKey>)
    requires IsSound(b, cat) && k < |cat| && t.name == cat[k].name
    requires t.foreignKeys == cat[k].foreignKeys + added
    requires ParentsExist(b, cat, added)
    ensures IsSound(b, cat[k := t])
  {
    var next := cat[k := t];
    assert SameNames(cat, next);
    if b.Postgres? {
      forall i, j | 0 <= i < |next| && 0 <= j < |next[i].foreignKeys|
        ensures Named(cat, next[i].foreignKeys[j].parent)
      {
        if i == k && j >= |cat[k].foreignKeys| {
          assert next[i].foreignKeys[j] == added[j - |cat[k].foreignKeys|];
          FindIffNamed(cat, next[i].foreignKeys[j].parent);
        } else {
          assert next[i].foreignKeys[j] == cat[i].foreignKeys[j];
        }
      }
    }
    SoundBySameNames(b, cat, next);
  }

  lemma {:induction false} KeysLeftAreKeys(fks: seq<CatKey>, own: bool, table: string, column: string)
    ensures forall fk :: fk in KeysLeft(fks, own, table, column) ==> fk in fks
  {
    if fks != [] {
      KeysLeftAreKeys(fks[..|fks| - 1], own, table, column);
    }
  }

  lemma {:induction false} KeysNotToAreKeys(fks: seq<CatKey>, table: string, key: seq<string>)
    ensures forall fk :: fk in KeysNotTo(fks, table, key) ==> fk in fks
  {
    if fks != [] {
      KeysNotToAreKeys(fks[..|fks| - 1], table, key);
    }
  }

  lemma {:induction false} KeysNotIntoAreKeys(fks: seq<CatKey>, names: seq<string>)
    ensures forall fk :: fk in KeysNotInto(fks, names) ==> fk in fks && fk.parent !in names
  {
    if fks != [] {
      KeysNotIntoAreKeys(fks[..|fks| - 1], names);
    }
  }

  lemma {:induction false} SoundDropColumn(b: Backend, cat: Tables, k: nat, ifExists: bool, column: string,
                                           cascade: bool)
    requires IsSound(b, cat) && k < |cat| && ExecDropColumn(b, cat, k, ifExists, column, cascade).Some?
    ensures IsSound(b, ExecDropColumn(b, cat, k, ifExists, column, cascade).value)
  {
    var next := ExecDropColumn(b, cat, k, ifExists, column, cascade).value;
    forall i | 0 <= i < |cat|
      ensures forall fk :: fk in next[i].foreignKeys ==> fk in cat[i].foreignKeys
    {
      KeysLeftAreKeys(cat[i].foreignKeys, i == k, cat[k].name, column);
    }
    SoundWithFewerKeys(b, cat, next);
  }

  lemma {:induction false} SoundDropConstraint(db: Database, cat: Tables, k: nat, ifExists: bool, name: string,
                                               cascade: bool)
    requires IsSound(db.backend, cat) && k < |cat| && ExecDropConstraint(db, cat, k, ifExists, name, cascade).Some?
    ensures IsSound(db.backend, ExecDropConstraint(db, cat, k, ifExists, name, cascade).value)
  {
    var next := ExecDropConstraint(db, cat, k, ifExists, name, cascade).value;
    forall i | 0 <= i < |cat|
      ensures forall fk :: fk in next[i].foreignKeys ==> fk in cat[i].foreignKeys
    {
      KeysNotToAreKeys(cat[i].foreignKeys, cat[k].name, cat[k].primaryKey);
    }
    SoundWithFewerKeys(db.backend, cat, next);
  }

  lemma {:induction false} SoundRenameColumn(b: Backend, cat: Tables, k: nat, from: string, to: string)
    requires IsSound(b, cat) && k < |cat| && ExecRenameColumn(cat, k, from, to).Some?
    ensures IsSound(b, ExecRenameColumn(cat, k, from, to).value)
  {
    var next := ExecRenameColumn(cat, k, from, to).value;
    assert SameNames(cat, next);
    if b.Postgres? {
      forall i, j | 0 <= i < |next| && 0 <= j < |next[i].foreignKeys|
        ensures Named(cat, next[i].foreignKeys[j].parent)
      {
        assert next[i].foreignKeys[j].parent == cat[i].foreignKeys[j].parent;
      }
    }
    SoundBySameNames(b, cat, next);
  }

  lemma {:induction false} SoundRenameTable(b: Backend, cat: Tables, k: nat, to: string)
    requires IsSound(b, cat) && k < |cat| && ExecRenameTable(cat, k, to).Some?
    ensures IsSound(b, ExecRenameTable(cat, k, to).value)
  {
    var next := ExecRenameTable(cat, k, to).value;
    assert forall i :: 0 <= i < |cat| ==> next[i].name == if i == k then to else cat[i].name;
    if b.Postgres? {
      forall i, j | 0 <= i < |next| && 0 <= j < |next[i].foreignKeys|
        ensures Named(next, next[i].foreignKeys[j].parent)
      {
        var before := cat[i].foreignKeys[j].parent;
        assert Named(cat, before);
        var p :| 0 <= p < |cat| && cat[p].name == before;
        assert next[p].name == next[i].foreignKeys[j].parent by {
          if before == cat[k].name {
            FoundAt(cat, k);
            FoundAt(cat, p);
          }
        }
      }
    }
  }

  lemma {:induction false} SoundTableOp(db: Database, cat: Tables, k: nat, op: AlterOp)
    requires IsSound(db.backend, cat) && k < |cat| && ExecTableOp(db, cat, k, op).Some?
    ensures IsSound(db.backend, ExecTableOp(db, cat, k, op).value)
  {
    var b, next := db.backend, ExecTableOp(db, cat, k, op).value;
    match op
    case AddColumn(ifNotExists, def) =>
      if next != cat {
        SoundUpdate(b, cat, k, next[k], WithReferred(cat, OptionFks(def.name.value, def.options)));
      }
    case DropColumn(ifExists, column, cascade) => SoundDropColumn(b, cat, k, ifExists, column.value, cascade);
    case AddConstraint(c) =>
      match c {
        case ForeignKey(_, _, _) => SoundUpdate(b, cat, k, next[k], WithReferred(cat, ConstraintFks([c])));
        case PrimaryKey(_) => SoundUpdate(b, cat, k, next[k], []);
        case UniqueOrCheck(_) =>
      }
    case DropConstraint(ifExists, name, cascade) => SoundDropConstraint(db, cat, k, ifExists, name.value, cascade);
    case AlterColumn(_, _) => SoundUpdate(b, cat, k, next[k], []);
    case RenameColumn(from, to) => SoundRenameColumn(b, cat, k, from.value, to.value);
    case RenameTable(newName) => SoundRenameTable(b, cat, k, LastIdent(newName));
    case OtherOp(_) =>
  }

  // ----- CREATE TABLE -----

  /** A table of a new name whose keys have present parents, itself included. */
  lemma {:induction false} SoundAppend(b: Backend, cat: Tables, t: CatTable)
    requires IsSound(b, cat) && CatFind(cat, t.name).None? && ParentsExist(b, cat + [t], t.foreignKeys)
    ensures IsSound(b, cat + [t])
  {
    var next := cat + [t];
    if b.Postgres? {
      forall i, j | 0 <= i < |next| && 0 <= j < |next[i].foreignKeys|
        ensures Named(next, next[i].foreignKeys[j].parent)
      {
        if i < |cat| {
          assert next[i].foreignKeys[j] == cat[i].foreignKeys[j];
          var p :| 0 <= p < |cat| && cat[p].name == cat[i].foreignKeys[j].parent;
          assert next[p] == cat[p];
        } else {
          assert next[i] == t;
          FindIffNamed(next, t.foreignKeys[j].parent);
        }
      }
    }
  }

  lemma {:induction false} ParentsOfNewTable(b: Backend, cat: Tables, bare: CatTable, fks: seq<CatKey>)
    requires ParentsExist(b, cat + [bare], fks)
    ensures ParentsExist(b, cat + [bare.(foreignKeys := WithReferred(cat + [bare], fks))],
                         WithReferred(cat + [bare], fks))
  {
    var t := bare.(foreignKeys := WithReferred(cat + [bare], fks));
    if b.Postgres? {
      forall i | 0 <= i < |fks|
        ensures CatFind(cat + [t], t.foreignKeys[i].parent).Some?
      {
        var k := CatFind(cat + [bare], fks[i].parent).value;
        assert (cat + [t])[k].name == fks[i].parent;
      }
    }
  }

  /** An accepted CREATE TABLE adds one table of its name, or none. */
  lemma {:induction false} CreateAdds(db: Database, cat: Tables, name: string, ifNotExists: bool,
                                      columns: seq<ColumnDef>, constraints: seq<TableConstraint>,
                                      form: TableForm, given: seq<CatColumn>)
    returns (added: Tables)
    requires ExecCreate(db, cat, name, ifNotExists, columns, constraints, form, given).Some?
    ensures ExecCreate(db, cat, name, ifNotExists, columns, constraints, form, given).value == cat + added
    ensures added == [] <==> Named(cat, name)
    ensures added != [] ==>
              |added| == 1 && added[0].name == name && ParentsExist(db.backend, cat + added, added[0].foreignKeys)
  {
    FindIffNamed(cat, name);
    if Named(cat, name) {
      added := [];
      assert cat + [] == cat;
    } else if form.FromQuery? {
      added := [CatTable(name, given, [], [])];
    } else {
      var bare := BareTable(db, name, columns, constraints, form);
      var fks := InlineFks(columns) + ConstraintFks(constraints);
      ParentsOfNewTable(db.backend, cat, bare, fks);
      added := [bare.(foreignKeys := WithReferred(cat + [bare], fks))];
    }
  }

  lemma {:induction false} SoundCreate(db: Database, cat: Tables, name: string, ifNotExists: bool,
                                       columns: seq<ColumnDef>, constraints: seq<TableConstraint>,
                                       form: TableForm, given: seq<CatColumn>)
    requires IsSound(db.backend, cat) && ExecCreate(db, cat, name, ifNotExists, columns, constraints, form, given).Some?
    ensures IsSound(db.backend, ExecCreate(db, cat, name, ifNotExists, columns, constraints, form, given).value)
  {
    var added := CreateAdds(db, cat, name, ifNotExists, columns, constraints, form, given);
    FindIffNamed(cat, name);
    if added == [] {
      assert cat + added == cat;
    } else {
      assert added == [added[0]];
      SoundAppend(db.backend, cat, added[0]);
    }
  }

  // ----- DROP TABLE -----

  lemma {:induction false} WithoutMember(cat: Tables, names: seq<string>, t: CatTable)
    ensures t in WithoutTables(cat, names) <==> t in cat && t.name !in names
  {
    if cat != [] {
      WithoutMember(cat[1..], names, t);
      assert cat == [cat[0]] + cat[1..];
    }
  }

  lemma {:induction false} WithoutNamed(cat: Tables, names: seq<string>, name: string)
    ensures Named(WithoutTables(cat, names), name) <==> Named(cat, name) && name !in names
  {
    var rest := WithoutTables(cat, names);
    if Named(rest, name) {
      var i :| 0 <= i < |rest| && rest[i].name == name;
      WithoutMember(cat, names, rest[i]);
      var k :| 0 <= k < |cat| && cat[k] == rest[i];
    }
    if Named(cat, name) && name !in names {
      var k :| 0 <= k < |cat| && cat[k].name == name;
      WithoutMember(cat, names, cat[k]);
      var i :| 0 <= i < |rest| && rest[i] == cat[k];
    }
  }

  lemma {:induction false} WithoutDistinct(cat: Tables, names: seq<string>)
    requires DistinctTables(cat)
    ensures DistinctTables(WithoutTables(cat, names))
  {
    if cat != [] {
      var rest := WithoutTables(cat[1..], names);
      assert forall i :: 0 <= i < |cat[1..]| ==> cat[1..][i] == cat[i + 1];
      WithoutDistinct(cat[1..], names);
      forall i | 0 <= i < |rest|
        ensures rest[i].name != cat[0].name
      {
        WithoutMember(cat[1..], names, rest[i]);
      }
    }
  }

  lemma {:induction false} SoundWithout(b: Backend, cat: Tables, names: seq<string>)
    requires IsSound(b, cat) && !Held(b, cat, names)
    ensures IsSound(b, WithoutTables(cat, names))
  {
    var rest := WithoutTables(cat, names);
    WithoutDistinct(cat, names);
    if b.Postgres? {
      forall i, j | 0 <= i < |rest| && 0 <= j < |rest[i].foreignKeys|
        ensures Named(rest, rest[i].foreignKeys[j].parent)
      {
        WithoutMember(cat, names, rest[i]);
        var k :| 0 <= k < |cat| && cat[k] == rest[i];
        WithoutNamed(cat, names, cat[k].foreignKeys[j].parent);
      }
    }
  }

  lemma {:induction false} SoundCascade(b: Backend, cat: Tables, names: seq<string>, next: Tables)
    requires IsSound(b, cat) && SameNames(WithoutTables(cat, names), next)
    requires forall i :: 0 <= i < |next| ==>
               next[i].foreignKeys == KeysNotInto(WithoutTables(cat, names)[i].foreignKeys, names)
    ensures IsSound(b, next)
  {
    var rest := WithoutTables(cat, names);
    WithoutDistinct(cat, names);
    if b.Postgres? {
      forall i, j | 0 <= i < |next| && 0 <= j < |next[i].foreignKeys|
        ensures Named(next, next[i].foreignKeys[j].parent)
      {
        var fk := next[i].foreignKeys[j];
        KeysNotIntoAreKeys(rest[i].foreignKeys, names);
        assert fk in rest[i].foreignKeys && fk.parent !in names;
        WithoutMember(cat, names, rest[i]);
        var k :| 0 <= k < |cat| && cat[k] == rest[i];
        var l :| 0 <= l < |cat[k].foreignKeys| && cat[k].foreignKeys[l] == fk;
        WithoutNamed(cat, names, fk.parent);
        var p :| 0 <= p < |rest| && rest[p].name == fk.parent;
        assert next[p].name == fk.parent;
      }
    }
  }

  lemma {:induction false} SoundDrop(b: Backend, cat: Tables, names: seq<string>, ifExists: bool, cascade: bool)
    requires IsSound(b, cat) && ExecDrop(b, cat, names, ifExists, cascade).Some?
    ensures IsSound(b, ExecDrop(b, cat, names, ifExists, cascade).value)
  {
    if SomeNamed(cat, names) {
      if cascade {
        SoundCascade(b, cat, names, ExecDrop(b, cat, names, ifExists, cascade).value);
      } else {
        SoundWithout(b, cat, names);
      }
    }
  }

  // ----- Every change -----

  lemma {:induction false} CreateKeepsSound(db: Database, cat: Catalogue, s: Statement)
    requires s.CreateTable? && IsSound(db.backend, cat.tables) && Exec(db, cat, Whole(s)).Some?
    ensures IsSound(db.backend, Exec(db, cat, Whole(s)).value.tables)
  {
    var name := db.readAs(s.name[0]);
    if !s.form.Temporary? && !Taken(cat, name) {
      SoundCreate(db, cat.tables, name, s.ifNotExists, ReadDefs(db, s.columns), ReadConstraints(db, s.constraints),
                  s.form, if s.form.FromQuery? then db.gives(cat, s.form.query) else []);
    }
  }

  lemma {:induction false} PartKeepsSound(db: Database, cat: Catalogue, name: ObjectName, ifExists: bool, op: AlterOp)
    requires Trusted(db) && IsSound(db.backend, cat.tables) && Exec(db, cat, Part(name, ifExists, op)).Some?
    ensures IsSound(db.backend, Exec(db, cat, Part(name, ifExists, op)).value.tables)
  {
    match CatFind(cat.tables, db.readAs(name[0]))
    case Some(k) =>
      if !LeftToDatabase(db, cat.tables[k], ReadOp(db, op)) {
        SoundTableOp(db, cat.tables, k, ReadOp(db, op));
      }
    case None =>
  }

  /** Every change a database accepts keeps the catalogue sound. */
  lemma {:induction false} ExecKeepsSound(db: Database, cat: Catalogue, a: Action)
    requires Trusted(db) && IsSound(db.backend, cat.tables) && Exec(db, cat, a).Some?
    ensures IsSound(db.backend, Exec(db, cat, a).value.tables)
  {
    match a
    case Whole(s) =>
      if s.CreateTable? {
        CreateKeepsSound(db, cat, s);
      } else if s.DropTable? {
        SoundDrop(db.backend, cat.tables, ReadNames(db, s.names), s.ifExists, s.cascade);
      }
    case Part(name, ifExists, op) => PartKeepsSound(db, cat, name, ifExists, op);
  }

  /** So every catalogue reached from the empty one is sound. */
  lemma {:induction false} RunsKeepSound(db: Database, cat: Catalogue, actions: seq<Action>)
    requires Trusted(db) && IsSound(db.backend, cat.tables) && ExecAll(db, cat, actions).Some?
    ensures IsSound(db.backend, ExecAll(db, cat, actions).value.tables)
    decreases |actions|
  {
    if actions != [] {
      ExecKeepsSound(db, cat, actions[0]);
      RunsKeepSound(db, Exec(db, cat, actions[0]).value, actions[1..]);
    }
  }
}
