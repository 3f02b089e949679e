/**
 * CTYPE: the column kinds of the table helpers and, per database backend,
 * the SQL type name of each and the way a primary-key column is written.
 */
module CType {
  import opened Wrappers

  datatype ColumnType = Long | Float | Str | StrKey | Blob | AutoIncrement

  /** The JdbcBase passed in: SQLite, MySQL, or anything else (including
      null), for which no `instanceof` test succeeds. */
  datatype Backend = Sqlite | MySql | OtherBackend

  /** get(base). */
  function Get(t: ColumnType, b: Backend): (r: Option<string>)
    ensures r.Some? <==> b != OtherBackend
  {
    match b
    case OtherBackend => None
    case Sqlite =>
      Some(match t
        case Long => "INTEGER"
        case Float => "REAL"
        case Str => "TEXT"
        case StrKey => "TEXT"
        case Blob => "BLOB"
        case AutoIncrement => "AUTOINCREMENT")
    case MySql =>
      Some(match t
        case Long => "BIGINT"
        case Float => "FLOAT"
        case Str => "TEXT"
        case StrKey => "VARCHAR(255)"
        case Blob => "LONGBLOB"
        case AutoIncrement => "AUTO_INCREMENT")
  }

  /** The pattern "({0})" with the key substituted. */
  function Wrapped(key: string): string
  {
    "(" + key + ")"
  }

  /** The pattern "({0}(255))" with the key substituted. */
  function WrappedSized(key: string): string
  {
    "(" + key + "(255))"
  }

  /** primary(base, key). */
  function Primary(t: ColumnType, b: Backend, key: string): (r: Option<string>)
    ensures r.None? <==> b == OtherBackend && t in {Str, StrKey, Blob}
  {
    match t
    case Long => Some(Wrapped(key))
    case Float => Some(Wrapped(key))
    case AutoIncrement => Some(key)
    case _ =>
      match b
      case Sqlite => Some(Wrapped(key))
      case MySql => Some(WrappedSized(key))
      case OtherBackend => None
  }

  /** On MySQL every kind has its own type name; on SQLite the two string
      kinds share TEXT and every other pair differs. */
  lemma TypeNamesDistinct(t: ColumnType, u: ColumnType)
    ensures t != u ==> Get(t, MySql) != Get(u, MySql)
    ensures t != u ==> (Get(t, Sqlite) == Get(u, Sqlite) <==> {t, u} == {Str, StrKey})
  {
  }

  /** The key written into a primary-key clause, read back. */
  function KeyOfPrimary(t: ColumnType, b: Backend, p: string): string
  {
    if t == AutoIncrement then p
    else if t in {Str, StrKey, Blob} && b == MySql then
      (if |p| >= 7 then p[1..|p| - 6] else p)
    else if |p| >= 2 then p[1..|p| - 1] else p
  }

  /** Round trip: the key can always be read back from its clause. */
  lemma PrimaryKeyRecoverable(t: ColumnType, b: Backend, key: string)
    requires Primary(t, b, key).Some?
    ensures KeyOfPrimary(t, b, Primary(t, b, key).value) == key
  {
    var p := Primary(t, b, key).value;
    if t != AutoIncrement {
      if t in {Str, StrKey, Blob} && b == MySql {
        assert p == WrappedSized(key);
        assert p[1..|p| - 6] == key;
      } else {
        assert p == Wrapped(key);
        assert p[1..|p| - 1] == key;
      }
    }
  }

  /** LONG and FLOAT ignore the backend; AUTOINCREMENT returns the key as is. */
  lemma PrimaryBackendIndependent(b: Backend, c: Backend, key: string)
    ensures Primary(Long, b, key) == Primary(Long, c, key) == Some("(" + key + ")")
    ensures Primary(Float, b, key) == Primary(Float, c, key) == Some("(" + key + ")")
    ensures Primary(AutoIncrement, b, key) == Some(key)
  {
  }
}
