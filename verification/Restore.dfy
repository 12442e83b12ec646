/**
 Restoring a backup: build the schema at the payload's version, import every table in one
 transaction, then migrate forward.
 */
module Restore {
  import opened Wrappers
  import opened BackupCells
  import opened Backup
  import opened BackupCounters

  /** A migration's statements either change the tables or fail as a whole. */
  datatype Migration = Migration(version: int, apply: Tables -> Option<Tables>)

  /** The constraints of the schema, checked at every insert and at commit, and the columns of automatic ids. */
  datatype Engine = Engine(rowsOk: Tables -> bool, referencesOk: Tables -> bool, idColumns: map<string, nat>)

  /** A database after an operation, with the error that ended it, if any. */
  datatype Outcome = Outcome(db: Database, error: Option<Error>)

  const EMPTY := Database(0, map[])

  // ----- migrating ----------------------------------------------------------------------------

  function LastVersion(ms: seq<Migration>): int {
    if ms == [] then 0 else ms[|ms| - 1].version
  }

  /** Apply in turn each migration newer than the database. */
  function ApplyNewer(db: Database, ms: seq<Migration>): Outcome
    decreases |ms|
  {
    if ms == [] then Outcome(db, None)
    else if ms[0].version <= db.version then ApplyNewer(db, ms[1..])
    else
      match ms[0].apply(db.tables)
      case None => Outcome(db, Some(MigrationFailed(ms[0].version)))
      case Some(tables) => ApplyNewer(Database(ms[0].version, tables), ms[1..])
  }

  function Migrated(db: Database, ms: seq<Migration>): Outcome {
    if db.version > LastVersion(ms) then Outcome(db, Some(SchemaTooNew(db.version, LastVersion(ms))))
    else ApplyNewer(db, ms)
  }

  // ----- importing ------------------------------------------------------------------------------

  /** The row an insert makes: named columns take the values given, the others their standard. */
  function Placed(columns: seq<Column>, named: seq<string>, values: Row): Row
    requires |values| == |named|
  {
    seq(|columns|, i requires 0 <= i < |columns| =>
      match Position(named, columns[i].name)
      case Some(k) => values[k]
      case None => columns[i].standard)
  }

  function ValuesOf(cells: seq<Cell>): (r: Result<Row, Error>)
    ensures r.Success? ==> |r.value| == |cells| && forall i :: 0 <= i < |cells| ==> IntoValue(cells[i]) == Success(r.value[i])
    ensures r.Failure? ==> r.error == InvalidBase64 && exists i :: 0 <= i < |cells| && IntoValue(cells[i]).Failure?
  {
    if cells == [] then Success([])
    else
      match IntoValue(cells[0])
      case Failure(e) => Failure(e)
      case Success(v) =>
        match ValuesOf(cells[1..])
        case Failure(e) =>
          assert exists i :: 0 <= i < |cells| && IntoValue(cells[i]).Failure? by {
            var i :| 0 <= i < |cells[1..]| && IntoValue(cells[1..][i]).Failure?;
            assert IntoValue(cells[i + 1]).Failure?;
          }
          Failure(e)
        case Success(rest) => Success([v] + rest)
  }

  function ImportRow(tables: Tables, name: string, columns: seq<string>, cells: seq<Cell>, engine: Engine): Result<Tables, Error>
    requires name in tables
  {
    if |cells| != |columns| then Failure(WidthMismatch(name))
    else
      match ValuesOf(cells)
      case Failure(e) => Failure(e)
      case Success(values) =>
        var t := tables[name];
        var next := tables[name := t.(rows := t.rows + [Placed(t.columns, columns, values)])];
        if engine.rowsOk(next) then Success(next) else Failure(ConstraintFailed)
  }

  function ImportRows(tables: Tables, name: string, columns: seq<string>, rows: seq<seq<Cell>>, engine: Engine)
    : (r: Result<Tables, Error>)
    requires name in tables
    ensures r.Success? ==> r.value.Keys == tables.Keys
    decreases |rows|
  {
    if rows == [] then Success(tables)
    else
      match ImportRow(tables, name, columns, rows[0], engine)
      case Failure(e) => Failure(e)
      case Success(next) => ImportRows(next, name, columns, rows[1..], engine)
  }

  function FirstBadName(names: seq<string>): (r: Option<string>)
    ensures r.None? <==> forall i :: 0 <= i < |names| ==> PlainName(names[i])
  {
    if names == [] then None
    else if !PlainName(names[0]) then Some(names[0])
    else FirstBadName(names[1..])
  }

  /** The insert statement names a table of the schema, and only columns of it. */
  predicate Prepares(tables: Tables, name: string, columns: seq<string>) {
    name in tables && columns != [] && forall i :: 0 <= i < |columns| ==> columns[i] in Names(tables[name].columns)
  }

  /** Names are checked even for a table without rows; everything else only where there is a row. */
  function ImportTable(tables: Tables, e: TableExport, engine: Engine): (r: Result<Tables, Error>)
    ensures r.Success? ==> r.value.Keys == tables.Keys
  {
    if !PlainName(e.name) then Failure(InvalidIdentifier(e.name))
    else if e.rows == [] then Success(tables)
    else
      match FirstBadName(e.columns)
      case Some(c) => Failure(InvalidIdentifier(c))
      case None =>
        if !Prepares(tables, e.name, e.columns) then Failure(SchemaMismatch(e.name))
        else ImportRows(tables, e.name, e.columns, e.rows, engine)
  }

  function ImportTables(tables: Tables, exports: seq<TableExport>, engine: Engine): Result<Tables, Error> {
    if exports == [] then Success(tables)
    else
      match ImportTable(tables, exports[0], engine)
      case Failure(e) => Failure(e)
      case Success(next) => ImportTables(next, exports[1..], engine)
  }

  /** The import as one transaction. */
  function Imported(tables: Tables, exports: seq<TableExport>, engine: Engine): Result<Tables, Error> {
    match ImportTables(tables, exports, engine)
    case Failure(e) => Failure(e)
    case Success(next) => if engine.referencesOk(next) then Success(next) else Failure(ConstraintFailed)
  }

  function VersionIndex(ms: seq<Migration>, version: int): (k: Option<nat>)
    ensures match k
            case Some(i) => i < |ms| && ms[i].version == version && forall j :: 0 <= j < i ==> ms[j].version != version
            case None => forall j :: 0 <= j < |ms| ==> ms[j].version != version
  {
    if ms == [] then None
    else if ms[0].version == version then Some(0)
    else
      var k := VersionIndex(ms[1..], version);
      if k.Some? then Some(k.value + 1)
      else
        assert forall j :: 0 < j < |ms| ==> ms[j] == ms[1..][j - 1];
        None
  }

  function Restored(db: Database, p: Payload, ms: seq<Migration>, engine: Engine): Outcome {
    match VersionIndex(ms, p.schemaVersion)
    case None => Outcome(db, Some(UnknownSchema(p.schemaVersion)))
    case Some(k) =>
      var built := Migrated(db, ms[..k + 1]);
      if built.error.Some? then built
      else
        match Imported(built.db.tables, p.tables, engine)
        case Failure(e) => Outcome(built.db, Some(e))
        case Success(tables) => Migrated(Database(built.db.version, tables), ms)
  }

  // ----- automatic ids -----------------------------------------------------------------------------

  type Counters = map<string, int>

  function Counter(counters: Counters, name: string): int {
    if name in counters then counters[name] else 0
  }

  /** The counters once the tables hold these rows: no id in them is given out again. */
  function CountersAfter(counters: Counters, tables: Tables, idColumns: map<string, nat>): Counters {
    map n | n in idColumns && n in tables :: Raised(Counter(counters, n), IdsOf(tables[n].rows, idColumns[n]))
  }

  /** The counters of a new database after a restore; only an import that is committed moves them. */
  function RestoredCounters(p: Payload, ms: seq<Migration>, engine: Engine): Counters {
    match VersionIndex(ms, p.schemaVersion)
    case None => map[]
    case Some(k) =>
      var built := Migrated(EMPTY, ms[..k + 1]);
      if built.error.Some? then map[]
      else
        match Imported(built.db.tables, p.tables, engine)
        case Failure(_) => map[]
        case Success(tables) => CountersAfter(map[], tables, engine.idColumns)
  }

  const RESTORED: Utf8 := Ascii("vault_restored_from_backup")

  /** The row that records the restore; its id is the next one the table gives. */
  function WithAudit(tables: Tables, id: int, at: Utf8): Tables
    requires "audit_events" in tables
  {
    var t := tables["audit_events"];
    var row := Placed(t.columns, ["id", "at", "event", "project_id", "credential_id", "detail"],
                      [Integer(id), Text(at), Text(RESTORED), Null, Null, Text([])]);
    tables["audit_events" := t.(rows := t.rows + [row])]
  }

  // ----- the connection -----------------------------------------------------------------------------

  class Connection {
    var db: Database
    var counters: Counters
    const engine: Engine

    constructor (db: Database, engine: Engine)
      ensures this.db == db && this.engine == engine && counters == map[]
    {
      this.db, this.engine, counters := db, engine, map[];
    }

    /** Migrations already applied are skipped; the first that fails ends the run at its predecessor. */
    method MigrateWith(ms: seq<Migration>) returns (error: Option<Error>)
      modifies this`db
      ensures Outcome(db, error) == Migrated(old(db), ms)
    {
      if db.version > LastVersion(ms) {
        return Some(SchemaTooNew(db.version, LastVersion(ms)));
      }
      var i := 0;
      while i < |ms|
        invariant 0 <= i <= |ms|
        invariant ApplyNewer(old(db), ms) == ApplyNewer(db, ms[i..])
      {
        if ms[i].version > db.version {
          var next := ms[i].apply(db.tables);
          if next.None? {
            return Some(MigrationFailed(ms[i].version));
          }
          db := Database(ms[i].version, next.value);
        }
        i := i + 1;
      }
      error := None;
    }

    /** Rows of one table, into the tables of an open transaction. */
    method InsertRows(tables: Tables, e: TableExport) returns (r: Result<Tables, Error>)
      requires e.name in tables
      ensures r == ImportRows(tables, e.name, e.columns, e.rows, engine)
    {
      var current := tables;
      var i := 0;
      while i < |e.rows|
        invariant 0 <= i <= |e.rows| && current.Keys == tables.Keys
        invariant ImportRows(tables, e.name, e.columns, e.rows, engine)
                  == ImportRows(current, e.name, e.columns, e.rows[i..], engine)
      {
        hide ImportRow;
        ImportRowKeys(current, e.name, e.columns, e.rows[i], engine);
        var next := ImportRow(current, e.name, e.columns, e.rows[i], engine);
        if next.Failure? {
          return Failure(next.error);
        }
        current := next.value;
        i := i + 1;
      }
      r := Success(current);
    }

    /** All tables in one transaction: on an error none of their rows is kept. */
    method Import(exports: seq<TableExport>) returns (error: Option<Error>)
      modifies this
      ensures match Imported(old(db).tables, exports, engine)
              case Failure(e) => error == Some(e) && db == old(db) && counters == old(counters)
              case Success(tables) =>
                && error == None && db == Database(old(db).version, tables)
                && counters == CountersAfter(old(counters), tables, engine.idColumns)
    {
      var tables := db.tables;
      var i := 0;
      while i < |exports|
        invariant 0 <= i <= |exports| && db == old(db) && counters == old(counters)
        invariant ImportTables(db.tables, exports, engine) == ImportTables(tables, exports[i..], engine)
      {
        hide ImportRows;
        var e := exports[i];
        if !PlainName(e.name) {
          return Some(InvalidIdentifier(e.name));
        }
        if e.rows != [] {
          var bad := FirstBadName(e.columns);
          if bad.Some? {
            return Some(InvalidIdentifier(bad.value));
          }
          if !Prepares(tables, e.name, e.columns) {
            return Some(SchemaMismatch(e.name));
          }
          var next := InsertRows(tables, e);
          if next.Failure? {
            return Some(next.error);
          }
          tables := next.value;
        }
        i := i + 1;
      }
      if !engine.referencesOk(tables) {
        return Some(ConstraintFailed);
      }
      db := db.(tables := tables);
      counters := CountersAfter(counters, tables, engine.idColumns);
      error := None;
    }

    /** An error leaves the schema as far as it was built, with none of the payload's rows. */
    method RestoreV2(p: Payload, ms: seq<Migration>) returns (error: Option<Error>)
      modifies this
      ensures Outcome(db, error) == Restored(old(db), p, ms, engine)
      ensures old(db) == EMPTY && old(counters) == map[] ==> counters == RestoredCounters(p, ms, engine)
    {
      hide Migrated, Imported, CountersAfter;
      var upto := VersionIndex(ms, p.schemaVersion);
      if upto.None? {
        return Some(UnknownSchema(p.schemaVersion));
      }
      error := MigrateWith(ms[..upto.value + 1]);
      if error.Some? {
        return;
      }
      error := Import(p.tables);
      if error.Some? {
        return;
      }
      error := MigrateWith(ms);
    }

    /** Restore into a new database and record that it happened. */
    method RestoreBackup(p: Payload, ms: seq<Migration>, at: Utf8) returns (error: Option<Error>)
      requires db == EMPTY && counters == map[]
      modifies this
      ensures p.schemaVersion > LastVersion(ms) ==>
                error == Some(PayloadTooNew(p.schemaVersion, LastVersion(ms))) && db == EMPTY
      ensures p.schemaVersion <= LastVersion(ms) ==>
                var restored := Restored(EMPTY, p, ms, engine);
                if restored.error.Some? || "audit_events" !in restored.db.tables then
                  db == restored.db && error == if restored.error.Some? then restored.error else Some(SchemaMismatch("audit_events"))
                else
                  var id := Counter(RestoredCounters(p, ms, engine), "audit_events") + 1;
                  error == None && db == restored.db.(tables := WithAudit(restored.db.tables, id, at))
    {
      hide WithAudit;
      if p.schemaVersion > LastVersion(ms) {
        return Some(PayloadTooNew(p.schemaVersion, LastVersion(ms)));
      }
      error := RestoreV2(p, ms);
      if error.Some? {
        return;
      }
      if "audit_events" !in db.tables {
        return Some(SchemaMismatch("audit_events"));
      }
      var id := Counter(counters, "audit_events") + 1;
      db := db.(tables := WithAudit(db.tables, id, at));
      counters := counters["audit_events" := id];
    }
  }

  lemma ImportRowKeys(tables: Tables, name: string, columns: seq<string>, cells: seq<Cell>, engine: Engine)
    requires name in tables
    ensures ImportRow(tables, name, columns, cells, engine).Success? ==>
              ImportRow(tables, name, columns, cells, engine).value.Keys == tables.Keys
  {
  }
}
