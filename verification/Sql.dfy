/**
 The statements the generator distinguishes, the logical type table, and the errors it reports.
 Everything it only passes through is kept as opaque text inside the syntax tree.
 */
module Sql {
  import opened Wrappers

  datatype Backend = Postgres | Sqlite

  /** An identifier and its quote character, when it was quoted. */
  datatype Ident = Ident(value: string, quote: Option<char>)

  /** A possibly schema-qualified name, outermost qualifier first. */
  type ObjectName = seq<Ident>

  datatype TimezoneInfo = NoTimezone | WithTimeZone | WithoutTimeZone | Tz

  datatype DataType =
    | Uuid
    | Timestamp(precision: Option<nat>, tz: TimezoneInfo)
    | Json
    | Jsonb
    | Bytea
    | Numeric(args: seq<nat>)
    | Decimal(args: seq<nat>)
    | Dec(args: seq<nat>)
    | Text
    | SmallInt(width: Option<nat>)
    | Integer(width: Option<nat>)
    | Int(width: Option<nat>)
    | BigInt(width: Option<nat>)
    | Real
    | Float(width: Option<nat>)
    | Boolean
    | Bool
    | Custom(name: ObjectName, modifiers: seq<string>)
    | Unsupported(text: string)

  datatype ColumnOption =
    | NotNull
    | Unique(isPrimary: bool)
    | References(parent: ObjectName, referred: seq<Ident>)
    | Identity
    | OtherOption(text: string)

  datatype ColumnDef = ColumnDef(name: Ident, dataType: DataType, options: seq<ColumnOption>)

  datatype TableConstraint =
    | PrimaryKey(columns: seq<Ident>)
    | ForeignKey(columns: seq<Ident>, parent: ObjectName, referred: seq<Ident>)
    | UniqueOrCheck(text: string)

  /** The changes of ALTER COLUMN that show in a table's shape. */
  datatype ColumnChange = SetNotNull | DropNotNull | SetType(dataType: DataType)

  datatype AlterOp =
    | AddColumn(ifNotExists: bool, def: ColumnDef)
    | DropColumn(ifExists: bool, column: Ident, cascade: bool)
    | AddConstraint(constraint: TableConstraint)
    | DropConstraint(ifExists: bool, name: Ident, cascade: bool)
    | AlterColumn(column: Ident, change: ColumnChange)
    | RenameColumn(from: Ident, to: Ident)
    | RenameTable(newName: ObjectName)
    | OtherOp(text: string)

  /** The kinds of CREATE TABLE; `KeysNotNull` stands for SQLite's WITHOUT ROWID and STRICT. */
  datatype TableForm = Ordinary | KeysNotNull | Temporary | FromQuery(query: string)

  datatype Statement =
    | CreateTable(name: ObjectName, ifNotExists: bool, columns: seq<ColumnDef>,
                  constraints: seq<TableConstraint>, form: TableForm, tail: string)
    | AlterTable(name: ObjectName, ifExists: bool, operations: seq<AlterOp>)
    | DropTable(names: seq<ObjectName>, ifExists: bool, cascade: bool)
    | OtherStatement(text: string)

  /** The SQL library, of which nothing but its type is assumed: a parser and a printer. */
  datatype SqlLibrary = SqlLibrary(parse: string -> Result<seq<Statement>, string>,
                                   show: Statement -> string)

  /** Where a column without a type mapping was found. */
  datatype Site = CreateColumn(table: string, column: Ident) | AddedColumn(table: string, column: Ident)

  datatype Error =
    | NoMapping(site: Site, dataType: DataType)
    | AlterUnknownTable(table: string)
    | SqlParseError(message: string)
    | NestedBlock
    | EndWithoutBlock
    | UnknownDirective(name: string)
    | UnclosedBlock
    | InMigration(dirName: string, error: Error)

  // ----- The mapping table -----

  const DIESEL: string := "diesel::sql_types"
  const DUALDB: string := "diesel_dualdb::sql_types"

  /** The diesel SQL-type markers that the table mentions; `Text` is the path as it is written there. */
  datatype Marker =
    | UuidMarker | TimestampMarker | JsonMarker | BytesMarker | DecimalMarker
    | TextMarker | SmallIntMarker | IntegerMarker | BigIntMarker | FloatMarker | BoolMarker
  {
    function Name(): string {
      match this
      case UuidMarker => "Uuid"
      case TimestampMarker => "Timestamp"
      case JsonMarker => "Json"
      case BytesMarker => "Bytes"
      case DecimalMarker => "Decimal"
      case TextMarker => "Text"
      case SmallIntMarker => "SmallInt"
      case IntegerMarker => "Integer"
      case BigIntMarker => "BigInt"
      case FloatMarker => "Float"
      case BoolMarker => "Bool"
    }

    predicate IsPortable() {
      UuidMarker? || TimestampMarker? || JsonMarker? || BytesMarker? || DecimalMarker?
    }

    function Path(): string {
      if IsPortable() then DUALDB else DIESEL
    }

    function Text(): string {
      Path() + "::" + Name()
    }
  }

  /** One logical type's three renderings. */
  datatype Mapped = Mapped(pg: string, sqlite: string, marker: Marker) {
    function Native(b: Backend): string {
      match b
      case Postgres => pg
      case Sqlite => sqlite
    }
  }

  function MapType(dt: DataType): Option<Mapped> {
    match dt
    case Uuid => Some(Mapped("UUID", "BLOB", UuidMarker))
    case Timestamp(_, _) => Some(Mapped("TIMESTAMPTZ", "TEXT", TimestampMarker))
    case Json => Some(Mapped("JSONB", "TEXT", JsonMarker))
    case Jsonb => Some(Mapped("JSONB", "TEXT", JsonMarker))
    case Bytea => Some(Mapped("BYTEA", "BLOB", BytesMarker))
    case Numeric(_) => Some(Mapped("NUMERIC", "TEXT", DecimalMarker))
    case Decimal(_) => Some(Mapped("NUMERIC", "TEXT", DecimalMarker))
    case Dec(_) => Some(Mapped("NUMERIC", "TEXT", DecimalMarker))
    case Text => Some(Mapped("TEXT", "TEXT", TextMarker))
    case SmallInt(_) => Some(Mapped("SMALLINT", "SMALLINT", SmallIntMarker))
    case Integer(_) => Some(Mapped("INTEGER", "INTEGER", IntegerMarker))
    case Int(_) => Some(Mapped("INTEGER", "INTEGER", IntegerMarker))
    case BigInt(_) => Some(Mapped("BIGINT", "BIGINT", BigIntMarker))
    case Real => Some(Mapped("REAL", "REAL", FloatMarker))
    case Float(_) => Some(Mapped("REAL", "REAL", FloatMarker))
    case Boolean => Some(Mapped("BOOLEAN", "INTEGER", BoolMarker))
    case Bool => Some(Mapped("BOOLEAN", "INTEGER", BoolMarker))
    case Custom(_, _) => None
    case Unsupported(_) => None
  }

  /** A native type, injected into the syntax tree as a single-word custom name. */
  function NativeType(row: Mapped, b: Backend): DataType {
    Custom([Ident(row.Native(b), None)], [])
  }

  /** The row a marker belongs to: the mapping table read from its marker column. */
  function RowOf(marker: Marker): Mapped {
    match marker
    case UuidMarker => Mapped("UUID", "BLOB", marker)
    case TimestampMarker => Mapped("TIMESTAMPTZ", "TEXT", marker)
    case JsonMarker => Mapped("JSONB", "TEXT", marker)
    case BytesMarker => Mapped("BYTEA", "BLOB", marker)
    case DecimalMarker => Mapped("NUMERIC", "TEXT", marker)
    case TextMarker => Mapped("TEXT", "TEXT", marker)
    case SmallIntMarker => Mapped("SMALLINT", "SMALLINT", marker)
    case IntegerMarker => Mapped("INTEGER", "INTEGER", marker)
    case BigIntMarker => Mapped("BIGINT", "BIGINT", marker)
    case FloatMarker => Mapped("REAL", "REAL", marker)
    case BoolMarker => Mapped("BOOLEAN", "INTEGER", marker)
  }

  // ----- The table in writing -----

  /** What is written for a type: in PostgreSQL's DDL, in SQLite's, and, as a full path, in `schema.rs`. */
  datatype Letters = Letters(pg: string, sqlite: string, path: string)

  /** The promised spellings of every logical type. */
  function Promised(dt: DataType): Option<Letters> {
    match dt
    case Uuid => Some(Letters("UUID", "BLOB", "diesel_dualdb::sql_types::Uuid"))
    case Timestamp(_, _) => Some(Letters("TIMESTAMPTZ", "TEXT", "diesel_dualdb::sql_types::Timestamp"))
    case Json => Some(Letters("JSONB", "TEXT", "diesel_dualdb::sql_types::Json"))
    case Jsonb => Some(Letters("JSONB", "TEXT", "diesel_dualdb::sql_types::Json"))
    case Bytea => Some(Letters("BYTEA", "BLOB", "diesel_dualdb::sql_types::Bytes"))
    case Numeric(_) => Some(Letters("NUMERIC", "TEXT", "diesel_dualdb::sql_types::Decimal"))
    case Decimal(_) => Some(Letters("NUMERIC", "TEXT", "diesel_dualdb::sql_types::Decimal"))
    case Dec(_) => Some(Letters("NUMERIC", "TEXT", "diesel_dualdb::sql_types::Decimal"))
    case Text => Some(Letters("TEXT", "TEXT", "diesel::sql_types::Text"))
    case SmallInt(_) => Some(Letters("SMALLINT", "SMALLINT", "diesel::sql_types::SmallInt"))
    case Integer(_) => Some(Letters("INTEGER", "INTEGER", "diesel::sql_types::Integer"))
    case Int(_) => Some(Letters("INTEGER", "INTEGER", "diesel::sql_types::Integer"))
    case BigInt(_) => Some(Letters("BIGINT", "BIGINT", "diesel::sql_types::BigInt"))
    case Real => Some(Letters("REAL", "REAL", "diesel::sql_types::Float"))
    case Float(_) => Some(Letters("REAL", "REAL", "diesel::sql_types::Float"))
    case Boolean => Some(Letters("BOOLEAN", "INTEGER", "diesel::sql_types::Bool"))
    case Bool => Some(Letters("BOOLEAN", "INTEGER", "diesel::sql_types::Bool"))
    case Custom(_, _) => None
    case Unsupported(_) => None
  }

  lemma {:induction false} PortableInWriting(m: Marker)
    requires m.IsPortable()
    ensures m.Text() ==
            match m {
              case UuidMarker => "diesel_dualdb::sql_types::Uuid"
              case TimestampMarker => "diesel_dualdb::sql_types::Timestamp"
              case JsonMarker => "diesel_dualdb::sql_types::Json"
              case BytesMarker => "diesel_dualdb::sql_types::Bytes"
              case _ => "diesel_dualdb::sql_types::Decimal"
            }
  {
  }

  lemma {:induction false} DieselInWriting(m: Marker)
    requires !m.IsPortable()
    ensures m.Text() ==
            match m {
              case TextMarker => "diesel::sql_types::Text"
              case SmallIntMarker => "diesel::sql_types::SmallInt"
              case IntegerMarker => "diesel::sql_types::Integer"
              case BigIntMarker => "diesel::sql_types::BigInt"
              case FloatMarker => "diesel::sql_types::Float"
              case _ => "diesel::sql_types::Bool"
            }
  {
  }

  lemma {:induction false} NamesInWriting(dt: DataType)
    ensures MapType(dt).Some? <==> Promised(dt).Some?
    ensures MapType(dt).Some? ==> MapType(dt).value.pg == Promised(dt).value.pg
    ensures MapType(dt).Some? ==> MapType(dt).value.sqlite == Promised(dt).value.sqlite
  {
  }

  lemma {:induction false} PathInWriting(dt: DataType)
    requires MapType(dt).Some? && Promised(dt).Some?
    ensures MapType(dt).value.marker.Text() == Promised(dt).value.path
  {
    var m := MapType(dt).value.marker;
    if m.IsPortable() {
      PortableInWriting(m);
    } else {
      DieselInWriting(m);
    }
  }

  /** The mapping table says what is promised, letter by letter, and maps nothing else. */
  lemma {:induction false} TableInWriting(dt: DataType)
    ensures MapType(dt).Some? <==> Promised(dt).Some?
    ensures MapType(dt).Some? ==>
              var row, letters := MapType(dt).value, Promised(dt).value;
              && NativeType(row, Postgres) == Custom([Ident(letters.pg, None)], [])
              && NativeType(row, Sqlite) == Custom([Ident(letters.sqlite, None)], [])
              && row.marker.Text() == letters.path
  {
    NamesInWriting(dt);
    if MapType(dt).Some? {
      PathInWriting(dt);
    }
  }

  /** The last identifier of a name, without its qualifiers and quotes. */
  function LastIdent(name: ObjectName): string {
    if name == [] then "" else name[|name| - 1].value
  }
}
