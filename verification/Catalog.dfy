/**
 What the generated DDL does to a database: an executable catalogue semantics for each backend.

 It is independent of the generator's model. A statement the database certainly refuses yields None; where a
 refusal depends on something not modelled here (uniqueness of referenced columns, defaults, stored rows) the
 statement is let through, so results about accepted scripts cover at least every script the database accepts.
 What depends on text the generator passes through unread is left to the functions of `Database`, which may be
 any functions.
 */
module Catalog {
  import opened Wrappers
  import opened Sql
  import opened SchemaModel

  datatype CatColumn = CatColumn(name: string, dataType: DataType, notNull: bool)

  datatype CatKey = CatKey(columns: seq<string>, parent: string, referred: seq<string>)

  datatype CatTable = CatTable(name: string, columns: seq<CatColumn>, primaryKey: seq<string>, foreignKeys: seq<CatKey>)

  /** The tables in order of creation. */
  type Tables = seq<CatTable>

  /**
   How something else hangs on tables: an index or a trigger goes with its table, a view pins it (in PostgreSQL,
   where its table cannot be dropped under it), and anything else is loose.
   */
  datatype Bond = Goes | Pins | Loose

  /**
   Whatever else there is in a database: its name, if it shares the tables' names, and the tables it hangs on,
   directly or through others.
   */
  datatype Relation = Relation(name: Option<string>, on: set<string>, bond: Bond)

  datatype Catalogue = Catalogue(tables: Tables, others: set<Relation>)

  const EMPTY: Catalogue := Catalogue([], {})

  /** A unit of change: a whole statement, or one operation of an ALTER TABLE. */
  datatype Action = Whole(statement: Statement) | Part(table: ObjectName, ifExists: bool, op: AlterOp)

  /** What the name in a DROP CONSTRAINT denotes in its table. */
  datatype Denoted = TheKey | ForeignKeyAt(index: nat) | OtherConstraint | NoConstraint

  /**
   A database: its backend, and its answers to what the syntax tree does not decide. `readAs` gives the name an
   identifier stands for (quotes removed, case folded), `legal` whether it can name a table at all (no reserved
   word), `forbids` whether an unread column option forbids NULL, `gives` the columns of an AS query, `denotes`
   what a constraint name refers to, `around` what else there is once a change has left these tables, and `other`
   the whole effect of every change the generator does not look into.
   */
  datatype Database = Database(
    backend: Backend,
    readAs: Ident -> string,
    legal: Ident -> bool,
    forbids: string -> bool,
    gives: (Catalogue, string) -> seq<CatColumn>,
    denotes: (CatTable, string) -> Denoted,
    around: (Catalogue, Action, Tables) -> set<Relation>,
    other: (Catalogue, Action) -> Option<Catalogue>)

  function ActionsOf(s: Statement): seq<Action> {
    match s
    case AlterTable(name, ifExists, ops) => seq(|ops|, i requires 0 <= i < |ops| => Part(name, ifExists, ops[i]))
    case _ => [Whole(s)]
  }

  function Actions(statements: seq<Statement>): seq<Action> {
    if statements == [] then [] else ActionsOf(statements[0]) + Actions(statements[1..])
  }

  // ----- Looking things up -----

  function CatFind(cat: Tables, name: string): (k: Option<nat>)
    ensures k.Some? ==> k.value < |cat| && cat[k.value].name == name
    ensures k.Some? ==> forall i :: 0 <= i < k.value ==> cat[i].name != name
    ensures k.None? ==> forall i :: 0 <= i < |cat| ==> cat[i].name != name
  {
    if cat == [] then None
    else if cat[0].name == name then Some(0)
    else
      match CatFind(cat[1..], name)
      case Some(k) => Some(k + 1)
      case None => None
  }

  predicate HasColumn(t: CatTable, name: string) {
    exists i :: 0 <= i < |t.columns| && t.columns[i].name == name
  }

  predicate Named(cat: Tables, name: string) {
    exists i :: 0 <= i < |cat| && cat[i].name == name
  }

  predicate Distinct(names: seq<string>) {
    forall i, j :: 0 <= i < j < |names| ==> names[i] != names[j]
  }

  // ----- Declarations in a CREATE TABLE -----

  function OptionDecls(name: string, options: seq<ColumnOption>): seq<seq<string>> {
    if options == [] then []
    else OptionDecls(name, options[..|options| - 1]) + if options[|options| - 1] == Unique(true) then [[name]] else []
  }

  function InlineDecls(columns: seq<ColumnDef>): seq<seq<string>> {
    if columns == [] then []
    else
      var c := columns[|columns| - 1];
      InlineDecls(columns[..|columns| - 1]) + OptionDecls(c.name.value, c.options)
  }

  function TableDecls(constraints: seq<TableConstraint>): seq<seq<string>> {
    if constraints == [] then []
    else
      var last := constraints[|constraints| - 1];
      TableDecls(constraints[..|constraints| - 1]) + if last.PrimaryKey? then [Names(last.columns)] else []
  }

  /** Every primary key a CREATE TABLE declares; the databases allow at most one. */
  function KeyDecls(columns: seq<ColumnDef>, constraints: seq<TableConstraint>): seq<seq<string>> {
    InlineDecls(columns) + TableDecls(constraints)
  }

  function OptionFks(name: string, options: seq<ColumnOption>): seq<CatKey> {
    if options == [] then []
    else
      var last := options[|options| - 1];
      OptionFks(name, options[..|options| - 1]) +
        if last.References? then [CatKey([name], LastIdent(last.parent), Names(last.referred))] else []
  }

  function InlineFks(columns: seq<ColumnDef>): seq<CatKey> {
    if columns == [] then []
    else
      var c := columns[|columns| - 1];
      InlineFks(columns[..|columns| - 1]) + OptionFks(c.name.value, c.options)
  }

  function ConstraintFks(constraints: seq<TableConstraint>): seq<CatKey> {
    if constraints == [] then []
    else
      var last := constraints[|constraints| - 1];
      ConstraintFks(constraints[..|constraints| - 1]) +
        if last.ForeignKey? then [CatKey(Names(last.columns), LastIdent(last.parent), Names(last.referred))] else []
  }

  /** Keys whose referenced columns are left out refer to the parent's primary key. */
  function WithReferred(cat: Tables, fks: seq<CatKey>): (r: seq<CatKey>)
    ensures |r| == |fks|
    ensures forall i :: 0 <= i < |fks| ==> r[i].columns == fks[i].columns && r[i].parent == fks[i].parent
  {
    seq(|fks|, i requires 0 <= i < |fks| =>
      var p := CatFind(cat, fks[i].parent);
      if fks[i].referred == [] && p.Some? then fks[i].(referred := cat[p.value].primaryKey) else fks[i])
  }

  // ----- Acceptance -----

  predicate KeysUsable(fks: seq<CatKey>, t: CatTable) {
    forall i :: 0 <= i < |fks| ==>
      fks[i].columns != [] && forall j :: 0 <= j < |fks[i].columns| ==> HasColumn(t, fks[i].columns[j])
  }

  /** PostgreSQL checks that a referenced table exists; SQLite does not. */
  predicate ParentsExist(b: Backend, cat: Tables, fks: seq<CatKey>) {
    b.Postgres? ==> forall i :: 0 <= i < |fks| ==> CatFind(cat, fks[i].parent).Some?
  }

  /** SQLite takes a key that repeats a column. */
  predicate KeyUsable(b: Backend, key: seq<string>, t: CatTable) {
    && key != []
    && (b.Postgres? ==> Distinct(key))
    && forall i :: 0 <= i < |key| ==> HasColumn(t, key[i])
  }

  const INTEGER_TYPE: DataType := Custom([Ident("INTEGER", None)], [])

  /**
   Whether a key forbids NULL in a column. In PostgreSQL a primary key always does; in SQLite only in tables
   declared so, or where a lone INTEGER column makes the key an alias of the row id.
   */
  predicate KeyForbidsNull(b: Backend, form: TableForm, key: seq<string>, column: string, dataType: DataType) {
    column in key && (b.Postgres? || form.KeysNotNull? || (key == [column] && dataType == INTEGER_TYPE))
  }

  /** Whether an option other than NOT NULL and PRIMARY KEY forbids NULL. */
  predicate OptionForbids(db: Database, def: ColumnDef) {
    exists i :: 0 <= i < |def.options| &&
      (def.options[i].Identity? || (def.options[i].OtherOption? && db.forbids(def.options[i].text)))
  }

  function CreatedColumn(db: Database, form: TableForm, c: ColumnDef, key: seq<string>): CatColumn {
    CatColumn(c.name.value, c.dataType,
              DeclaredNotNull(c) || OptionForbids(db, c) ||
              KeyForbidsNull(db.backend, form, key, c.name.value, c.dataType))
  }

  function CreatedColumns(db: Database, form: TableForm, columns: seq<ColumnDef>, key: seq<string>): (r: seq<CatColumn>)
    ensures |r| == |columns|
    ensures forall i :: 0 <= i < |columns| ==> r[i] == CreatedColumn(db, form, columns[i], key)
  {
    seq(|columns|, i requires 0 <= i < |columns| => CreatedColumn(db, form, columns[i], key))
  }

  function ColumnNames(columns: seq<CatColumn>): seq<string> {
    seq(|columns|, i requires 0 <= i < |columns| => columns[i].name)
  }

  /** The table a CREATE TABLE declares, before its foreign keys. */
  function BareTable(db: Database, name: string, columns: seq<ColumnDef>, constraints: seq<TableConstraint>,
                     form: TableForm): CatTable
  {
    var decls := KeyDecls(columns, constraints);
    var key := if decls == [] then [] else decls[0];
    CatTable(name, CreatedColumns(db, form, columns, key), key, [])
  }

  function ExecCreateDeclared(db: Database, cat: Tables, name: string, columns: seq<ColumnDef>,
                              constraints: seq<TableConstraint>, form: TableForm): Option<Tables>
  {
    var decls := KeyDecls(columns, constraints);
    var fks := InlineFks(columns) + ConstraintFks(constraints);
    var bare := BareTable(db, name, columns, constraints, form);
    if |decls| > 1 || !Distinct(ColumnNames(bare.columns)) || (decls != [] && !KeyUsable(db.backend, decls[0], bare)) ||
       !KeysUsable(fks, bare) || !ParentsExist(db.backend, cat + [bare], fks) then None
    else Some(cat + [bare.(foreignKeys := WithReferred(cat + [bare], fks))])
  }

  /** A table made by a query has the given columns of the query. */
  function ExecCreate(db: Database, cat: Tables, name: string, ifNotExists: bool, columns: seq<ColumnDef>,
                      constraints: seq<TableConstraint>, form: TableForm, given: seq<CatColumn>): Option<Tables>
  {
    if form.KeysNotNull? && db.backend.Postgres? then None
    else if CatFind(cat, name).Some? then
      if ifNotExists then Some(cat) else None
    else if form.FromQuery? then
      if columns != [] || constraints != [] then None
      else Some(cat + [CatTable(name, given, [], [])])
    else ExecCreateDeclared(db, cat, name, columns, constraints, form)
  }

  // ----- ALTER TABLE -----

  function ExecAddColumn(db: Database, cat: Tables, k: nat, ifNotExists: bool, def: ColumnDef): Option<Tables>
    requires k < |cat|
  {
    var t := cat[k];
    var decls := OptionDecls(def.name.value, def.options);
    var fks := OptionFks(def.name.value, def.options);
    if db.backend.Sqlite? && (ifNotExists || decls != []) then None
    else if HasColumn(t, def.name.value) then
      if ifNotExists then Some(cat) else None
    else if |decls| > 1 || (decls != [] && t.primaryKey != []) || !ParentsExist(db.backend, cat, fks) then None
    else
      var notNull := DeclaredNotNull(def) || OptionForbids(db, def) || decls != [];
      Some(cat[k := t.(columns := t.columns + [CatColumn(def.name.value, def.dataType, notNull)],
                       primaryKey := if decls != [] then decls[0] else t.primaryKey,
                       foreignKeys := t.foreignKeys + WithReferred(cat, fks))])
  }

  function Without(columns: seq<CatColumn>, name: string): seq<CatColumn> {
    if columns == [] then []
    else
      var last := columns[|columns| - 1];
      Without(columns[..|columns| - 1], name) + if last.name != name then [last] else []
  }

  /** Whether a key of some table refers to the column. */
  predicate RefersTo(fk: CatKey, table: string, column: string) {
    fk.parent == table && column in fk.referred
  }

  /** Whether some key does, not counting those of the table itself that start from the column and go with it. */
  predicate HeldBy(cat: Tables, k: nat, column: string)
    requires k < |cat|
  {
    exists i, j :: 0 <= i < |cat| && 0 <= j < |cat[i].foreignKeys| &&
        RefersTo(cat[i].foreignKeys[j], cat[k].name, column) &&
      !(i == k && column in cat[i].foreignKeys[j].columns)
  }

  predicate UsedByOwnKey(t: CatTable, column: string) {
    exists j :: 0 <= j < |t.foreignKeys| && column in t.foreignKeys[j].columns
  }

  /** The keys left when a column goes: neither starting from it (in its own table) nor referring to it. */
  function KeysLeft(fks: seq<CatKey>, own: bool, table: string, column: string): seq<CatKey> {
    if fks == [] then []
    else
      var last := fks[|fks| - 1];
      KeysLeft(fks[..|fks| - 1], own, table, column) +
        if (own && column in last.columns) || RefersTo(last, table, column) then [] else [last]
  }

  function ExecDropColumn(b: Backend, cat: Tables, k: nat, ifExists: bool, column: string,
                          cascade: bool): Option<Tables>
    requires k < |cat|
  {
    var t := cat[k];
    match b
    case Postgres =>
      if !HasColumn(t, column) then
        if ifExists then Some(cat) else None
      else if !cascade && HeldBy(cat, k, column) then None
      else
        Some(seq(|cat|, i requires 0 <= i < |cat| =>
          if i == k then
            t.(columns := Without(t.columns, column), primaryKey := if column in t.primaryKey then [] else t.primaryKey,
               foreignKeys := KeysLeft(t.foreignKeys, true, t.name, column))
          else cat[i].(foreignKeys := KeysLeft(cat[i].foreignKeys, false, t.name, column))))
    case Sqlite =>
      if ifExists || cascade || !HasColumn(t, column) || column in t.primaryKey || UsedByOwnKey(t, column) then None
      else Some(cat[k := t.(columns := Without(t.columns, column))])
  }

  function ExecAddConstraint(b: Backend, cat: Tables, k: nat, c: TableConstraint): Option<Tables>
    requires k < |cat|
  {
    var t := cat[k];
    if b.Sqlite? then None
    else
      match c
      case ForeignKey(_, _, _) =>
        var fks := ConstraintFks([c]);
        if !KeysUsable(fks, t) || !ParentsExist(b, cat, fks) then None
        else Some(cat[k := t.(foreignKeys := t.foreignKeys + WithReferred(cat, fks))])
      case PrimaryKey(columns) =>
        var key := Names(columns);
        if t.primaryKey != [] || !KeyUsable(b, key, t) then None
        else
          Some(cat[k := t.(primaryKey := key, columns := seq(|t.columns|, i requires 0 <= i < |t.columns| =>
            t.columns[i].(notNull := t.columns[i].notNull || t.columns[i].name in key)))])
      case UniqueOrCheck(_) => Some(cat)
  }

  /** The keys that lead to exactly these columns go when the key they rely on is dropped with CASCADE. */
  function KeysNotTo(fks: seq<CatKey>, table: string, key: seq<string>): seq<CatKey> {
    if fks == [] then []
    else
      var last := fks[|fks| - 1];
      KeysNotTo(fks[..|fks| - 1], table, key) + if last.parent == table && last.referred == key then [] else [last]
  }

  function ExecDropConstraint(db: Database, cat: Tables, k: nat, ifExists: bool, name: string,
                              cascade: bool): Option<Tables>
    requires k < |cat|
  {
    var t := cat[k];
    if db.backend.Sqlite? then None
    else
      match db.denotes(t, name)
      case NoConstraint => if ifExists then Some(cat) else None
      case OtherConstraint => Some(cat)
      case ForeignKeyAt(j) =>
        if j >= |t.foreignKeys| then None
        else Some(cat[k := t.(foreignKeys := t.foreignKeys[..j] + t.foreignKeys[j + 1..])])
      case TheKey =>
        if t.primaryKey == [] then None
        else
          Some(seq(|cat|, i requires 0 <= i < |cat| =>
            cat[i].(primaryKey := if i == k then [] else cat[i].primaryKey,
                    foreignKeys :=
                      if cascade then KeysNotTo(cat[i].foreignKeys, t.name, t.primaryKey) else cat[i].foreignKeys)))
  }

  /**
   The type a declaration denotes in PostgreSQL, by its name in the mapping table where it is one of those;
   any other spelling counts as a type of its own.
   */
  function PostgresType(dt: DataType): DataType {
    match dt
    case Timestamp(precision, tz) => if precision.None? && tz in {WithTimeZone, Tz} then Native(dt) else dt
    case Numeric(args) => if args == [] then Native(dt) else dt
    case Decimal(args) => if args == [] then Native(dt) else dt
    case Dec(args) => if args == [] then Native(dt) else dt
    case Json => dt
    case Float(_) => dt
    case _ => Native(dt)
  }

  function Native(dt: DataType): DataType {
    match MapType(dt)
    case Some(row) => NativeType(row, Postgres)
    case None => dt
  }

  function Changed(c: CatColumn, change: ColumnChange): CatColumn {
    match change
    case SetNotNull => c.(notNull := true)
    case DropNotNull => c.(notNull := false)
    case SetType(dt) => c.(dataType := PostgresType(dt))
  }

  /** Only PostgreSQL has ALTER COLUMN; it does not let go of NOT NULL in a key. */
  function ExecAlterColumn(db: Database, cat: Tables, k: nat, column: string, change: ColumnChange): Option<Tables>
    requires k < |cat|
  {
    var t := cat[k];
    if db.backend.Sqlite? || !HasColumn(t, column) || (change.DropNotNull? && column in t.primaryKey) then None
    else
      Some(cat[k := t.(columns := seq(|t.columns|, i requires 0 <= i < |t.columns| =>
        if t.columns[i].name == column then Changed(t.columns[i], change) else t.columns[i]))])
  }

  function Replace(names: seq<string>, from: string, to: string): seq<string> {
    seq(|names|, i requires 0 <= i < |names| => if names[i] == from then to else names[i])
  }

  function ExecRenameColumn(cat: Tables, k: nat, from: string, to: string): Option<Tables>
    requires k < |cat|
  {
    var t := cat[k];
    if !HasColumn(t, from) || HasColumn(t, to) then None
    else
      Some(seq(|cat|, i requires 0 <= i < |cat| =>
        var u := cat[i];
        var keys := seq(|u.foreignKeys|, j requires 0 <= j < |u.foreignKeys| =>
          var fk := u.foreignKeys[j];
          CatKey(if i == k then Replace(fk.columns, from, to) else fk.columns, fk.parent,
                 if fk.parent == t.name then Replace(fk.referred, from, to) else fk.referred));
        if i == k then
          u.(columns := seq(|u.columns|, j requires 0 <= j < |u.columns| =>
               u.columns[j].(name := if u.columns[j].name == from then to else u.columns[j].name)),
             primaryKey := Replace(u.primaryKey, from, to), foreignKeys := keys)
        else u.(foreignKeys := keys)))
  }

  function ExecRenameTable(cat: Tables, k: nat, to: string): Option<Tables>
    requires k < |cat|
  {
    var from := cat[k].name;
    if CatFind(cat, to).Some? then None
    else
      Some(seq(|cat|, i requires 0 <= i < |cat| =>
        var u := cat[i];
        u.(name := if i == k then to else u.name,
           foreignKeys := seq(|u.foreignKeys|, j requires 0 <= j < |u.foreignKeys| =>
             var fk := u.foreignKeys[j];
             fk.(parent := if fk.parent == from then to else fk.parent)))))
  }

  /**
   The operations whose effect is the database's own: those not looked into, and the end of a constraint that is
   no key itself, since with CASCADE foreign keys that rely on it go too.
   */
  predicate LeftToDatabase(db: Database, t: CatTable, op: AlterOp) {
    op.OtherOp? || (op.DropConstraint? && db.backend.Postgres? && db.denotes(t, op.name.value).OtherConstraint?)
  }

  /** All other operations, on the tables alone. */
  function ExecTableOp(db: Database, cat: Tables, k: nat, op: AlterOp): Option<Tables>
    requires k < |cat|
  {
    match op
    case AddColumn(ifNotExists, def) => ExecAddColumn(db, cat, k, ifNotExists, def)
    case DropColumn(ifExists, column, cascade) =>
      ExecDropColumn(db.backend, cat, k, ifExists, column.value, cascade)
    case AddConstraint(c) => ExecAddConstraint(db.backend, cat, k, c)
    case DropConstraint(ifExists, name, cascade) => ExecDropConstraint(db, cat, k, ifExists, name.value, cascade)
    case AlterColumn(column, change) => ExecAlterColumn(db, cat, k, column.value, change)
    case RenameColumn(from, to) => ExecRenameColumn(cat, k, from.value, to.value)
    case RenameTable(newName) => ExecRenameTable(cat, k, LastIdent(newName))
    case OtherOp(_) => Some(cat)
  }

  function ExecOp(db: Database, cat: Catalogue, k: nat, op: AlterOp): Option<Catalogue>
    requires k < |cat.tables|
  {
    var a := Part([Ident(cat.tables[k].name, None)], false, op);
    if LeftToDatabase(db, cat.tables[k], op) then db.other(cat, a)
    else
      match ExecTableOp(db, cat.tables, k, op)
      case Some(tables) => Some(Catalogue(tables, db.around(cat, a, tables)))
      case None => None
  }

  // ----- DROP TABLE -----

  /** The catalogue without the tables of these names. */
  function WithoutTables(cat: Tables, names: seq<string>): Tables {
    if cat == [] then []
    else (if cat[0].name in names then [] else [cat[0]]) + WithoutTables(cat[1..], names)
  }

  /** PostgreSQL refuses to drop a table that one which stays refers to; SQLite does not look. */
  predicate Held(b: Backend, cat: Tables, names: seq<string>) {
    && b.Postgres?
    && exists i, j :: 0 <= i < |cat| && 0 <= j < |cat[i].foreignKeys| && cat[i].name !in names &&
         cat[i].foreignKeys[j].parent in names
  }

  function KeysNotInto(fks: seq<CatKey>, names: seq<string>): seq<CatKey> {
    if fks == [] then []
    else KeysNotInto(fks[..|fks| - 1], names) + if fks[|fks| - 1].parent in names then [] else [fks[|fks| - 1]]
  }

  predicate SomeNamed(cat: Tables, names: seq<string>) {
    exists i :: 0 <= i < |cat| && cat[i].name in names
  }

  function ExecDrop(b: Backend, cat: Tables, names: seq<string>, ifExists: bool, cascade: bool): Option<Tables> {
    if b.Sqlite? && (|names| != 1 || cascade) then None
    else if !ifExists && exists i :: 0 <= i < |names| && !Named(cat, names[i]) then None
    else if !SomeNamed(cat, names) then Some(cat)
    else
      var rest := WithoutTables(cat, names);
      if cascade then
        Some(seq(|rest|, i requires 0 <= i < |rest| =>
          rest[i].(foreignKeys := KeysNotInto(rest[i].foreignKeys, names))))
      else if Held(b, cat, names) then None
      else Some(rest)
  }

  // ----- Names as the database reads them -----

  function ReadIdent(db: Database, id: Ident): Ident {
    Ident(db.readAs(id), None)
  }

  function ReadIdents(db: Database, ids: seq<Ident>): (r: seq<Ident>)
    ensures |r| == |ids| && forall i :: 0 <= i < |r| ==> r[i] == ReadIdent(db, ids[i])
  {
    seq(|ids|, i requires 0 <= i < |ids| => ReadIdent(db, ids[i]))
  }

  /** The object's own name read, its qualifiers kept. */
  function ReadName(db: Database, name: ObjectName): (r: ObjectName)
    ensures |r| == |name|
  {
    if name == [] then [] else name[..|name| - 1] + [ReadIdent(db, name[|name| - 1])]
  }

  function ReadOption(db: Database, o: ColumnOption): ColumnOption {
    match o
    case References(parent, referred) => References(ReadName(db, parent), ReadIdents(db, referred))
    case _ => o
  }

  function OptionsAsRead(db: Database, options: seq<ColumnOption>): (r: seq<ColumnOption>)
    ensures |r| == |options| && forall i :: 0 <= i < |r| ==> r[i] == ReadOption(db, options[i])
  {
    seq(|options|, i requires 0 <= i < |options| => ReadOption(db, options[i]))
  }

  function ReadDef(db: Database, def: ColumnDef): ColumnDef {
    ColumnDef(ReadIdent(db, def.name), def.dataType, OptionsAsRead(db, def.options))
  }

  function ReadDefs(db: Database, columns: seq<ColumnDef>): (r: seq<ColumnDef>)
    ensures |r| == |columns| && forall i :: 0 <= i < |r| ==> r[i] == ReadDef(db, columns[i])
  {
    seq(|columns|, i requires 0 <= i < |columns| => ReadDef(db, columns[i]))
  }

  function ReadConstraint(db: Database, c: TableConstraint): TableConstraint {
    match c
    case PrimaryKey(columns) => PrimaryKey(ReadIdents(db, columns))
    case ForeignKey(columns, parent, referred) =>
      ForeignKey(ReadIdents(db, columns), ReadName(db, parent), ReadIdents(db, referred))
    case UniqueOrCheck(_) => c
  }

  function ReadConstraints(db: Database, constraints: seq<TableConstraint>): (r: seq<TableConstraint>)
    ensures |r| == |constraints| && forall i :: 0 <= i < |r| ==> r[i] == ReadConstraint(db, constraints[i])
  {
    seq(|constraints|, i requires 0 <= i < |constraints| => ReadConstraint(db, constraints[i]))
  }

  function ReadOp(db: Database, op: AlterOp): AlterOp {
    match op
    case AddColumn(ifNotExists, def) => AddColumn(ifNotExists, ReadDef(db, def))
    case DropColumn(ifExists, column, cascade) => DropColumn(ifExists, ReadIdent(db, column), cascade)
    case AddConstraint(c) => AddConstraint(ReadConstraint(db, c))
    case DropConstraint(ifExists, name, cascade) => DropConstraint(ifExists, ReadIdent(db, name), cascade)
    case AlterColumn(column, change) => AlterColumn(ReadIdent(db, column), change)
    case RenameColumn(from, to) => RenameColumn(ReadIdent(db, from), ReadIdent(db, to))
    case RenameTable(newName) => RenameTable(ReadName(db, newName))
    case OtherOp(_) => op
  }

  function ReadNames(db: Database, names: seq<ObjectName>): (r: seq<string>)
    ensures |r| == |names| && forall i :: 0 <= i < |r| ==> r[i] == LastIdent(ReadName(db, names[i]))
  {
    seq(|names|, i requires 0 <= i < |names| => LastIdent(ReadName(db, names[i])))
  }

  // ----- Names taken by something else -----

  predicate Taken(cat: Catalogue, name: string) {
    exists r :: r in cat.others && r.name == Some(name)
  }

  /** SQLite looks for tables and views by name, and overlooks indexes. */
  predicate Trips(b: Backend, r: Relation, name: string) {
    r.name == Some(name) && (b.Postgres? || !r.bond.Goes?)
  }

  /** A statement on a table of this name comes upon something else. */
  predicate Mistaken(b: Backend, cat: Catalogue, name: string) {
    exists r :: r in cat.others && Trips(b, r, name)
  }

  predicate HangsOn(r: Relation, cat: Tables, names: seq<string>) {
    exists name :: name in r.on && name in names && Named(cat, name)
  }

  /** Something pins one of the tables. */
  predicate Pinned(b: Backend, cat: Catalogue, names: seq<string>) {
    b.Postgres? && exists r :: r in cat.others && r.bond.Pins? && HangsOn(r, cat.tables, names)
  }

  /** What a drop of these tables takes with it. */
  predicate Gone(r: Relation, cat: Tables, names: seq<string>, cascade: bool) {
    (r.bond.Goes? || (cascade && r.bond.Pins?)) && HangsOn(r, cat, names)
  }

  function OthersLeft(cat: Catalogue, names: seq<string>, cascade: bool): set<Relation> {
    set r | r in cat.others && !Gone(r, cat.tables, names, cascade)
  }

  // ----- Statements -----

  /** Only unqualified names, and only those the database takes as a table's, are resolved. */
  predicate Legal(db: Database, name: ObjectName) {
    |name| == 1 && db.legal(name[0])
  }

  /**
   CREATE TABLE under a name that something else has does nothing with IF NOT EXISTS, or fails. A temporary table
   is not part of the lasting catalogue.
   */
  function ExecCreateTable(db: Database, cat: Catalogue, a: Action, name: string, ifNotExists: bool,
                           columns: seq<ColumnDef>, constraints: seq<TableConstraint>,
                           form: TableForm): Option<Catalogue>
  {
    if form.Temporary? then Some(cat)
    else if Taken(cat, name) then
      if ifNotExists && Mistaken(db.backend, cat, name) then Some(cat) else None
    else
      var given := if form.FromQuery? then db.gives(cat, form.query) else [];
      match ExecCreate(db, cat.tables, name, ifNotExists, columns, constraints, form, given)
      case Some(tables) =>
        Some(if CatFind(cat.tables, name).Some? then cat else Catalogue(tables, db.around(cat, a, tables)))
      case None => None
  }

  /** DROP TABLE fails on the name of something else, and in PostgreSQL on a table that a view hangs on. */
  function ExecDropTable(b: Backend, cat: Catalogue, names: seq<string>, ifExists: bool,
                         cascade: bool): Option<Catalogue>
  {
    if (exists i :: 0 <= i < |names| && Mistaken(b, cat, names[i])) || (!cascade && Pinned(b, cat, names)) then None
    else
      match ExecDrop(b, cat.tables, names, ifExists, cascade)
      case Some(tables) => Some(Catalogue(tables, OthersLeft(cat, names, cascade)))
      case None => None
  }

  function Exec(db: Database, cat: Catalogue, a: Action): Option<Catalogue> {
    match a
    case Whole(CreateTable(name, ifNotExists, columns, constraints, form, _)) =>
      if !Legal(db, name) then None
      else
        ExecCreateTable(db, cat, a, db.readAs(name[0]), ifNotExists,
                        ReadDefs(db, columns), ReadConstraints(db, constraints), form)
    case Whole(DropTable(names, ifExists, cascade)) =>
      if exists i :: 0 <= i < |names| && !Legal(db, names[i]) then None
      else ExecDropTable(db.backend, cat, ReadNames(db, names), ifExists, cascade)
    case Whole(_) => db.other(cat, a)
    case Part(name, ifExists, op) =>
      if !Legal(db, name) then None
      else if op.RenameTable? && (!Legal(db, op.newName) || Taken(cat, db.readAs(op.newName[0]))) then None
      else
        match CatFind(cat.tables, db.readAs(name[0]))
        case Some(k) => ExecOp(db, cat, k, ReadOp(db, op))
        case None =>
          if Taken(cat, db.readAs(name[0])) then Some(Catalogue(cat.tables, db.around(cat, a, cat.tables)))
          else if ifExists && db.backend.Postgres? then Some(cat)
          else None
  }

  function ExecAll(db: Database, cat: Catalogue, actions: seq<Action>): Option<Catalogue>
    decreases |actions|
  {
    if actions == [] then Some(cat)
    else
      match Exec(db, cat, actions[0])
      case Some(next) => ExecAll(db, next, actions[1..])
      case None => None
  }

  lemma {:induction false} ExecAppend(db: Database, cat: Catalogue, x: seq<Action>, y: seq<Action>)
    ensures ExecAll(db, cat, x + y) ==
            match ExecAll(db, cat, x) { case Some(mid) => ExecAll(db, mid, y) case None => None }
    decreases |x|
  {
    if x == [] {
      assert x + y == y;
    } else {
      assert (x + y)[1..] == x[1..] + y;
      var next := Exec(db, cat, x[0]);
      if next.Some? {
        ExecAppend(db, next.value, x[1..], y);
      }
    }
  }
}
