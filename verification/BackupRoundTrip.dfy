/** What a backup taken of any database restores to. */
module BackupRoundTrip {
  import opened Wrappers
  import opened BackupCells
  import opened Backup
  import opened Restore
  import opened BackupCounters

  ghost predicate SameSchema(a: Tables, b: Tables) {
    a.Keys == b.Keys && forall n :: n in a ==> a[n].columns == b[n].columns
  }

  /** The same tables, each with some first rows. */
  ghost predicate Below(a: Tables, b: Tables) {
    SameSchema(a, b) && forall n :: n in a ==> |a[n].rows| <= |b[n].rows| && a[n].rows == b[n].rows[..|a[n].rows|]
  }

  /** Row constraints that hold of a table's rows hold of fewer of them: uniqueness and checks do. */
  ghost predicate Downward(engine: Engine) {
    forall a, b :: Below(a, b) && engine.rowsOk(b) ==> engine.rowsOk(a)
  }

  ghost predicate Sound(db: Database, engine: Engine) {
    && (forall n :: n in db.tables ==> WellFormed(db.tables[n]))
    && engine.rowsOk(db.tables) && engine.referencesOk(db.tables)
  }

  // ----- one row ---------------------------------------------------------------------------------

  lemma {:induction false} ValuesBack(row: Row, cells: seq<Cell>)
    requires RowExported(row, cells)
    ensures ValuesOf(cells) == Success(row)
  {
    if cells != [] {
      assert FromValue(row[0]) == Success(cells[0]);
      ValueRoundTrip(row[0]);
      assert RowExported(row[1..], cells[1..]);
      ValuesBack(row[1..], cells[1..]);
      assert row == [row[0]] + row[1..];
    }
  }

  lemma PlacedInOrder(columns: seq<Column>, values: Row)
    requires |values| == |columns|
    requires forall i, j :: 0 <= i < j < |columns| ==> columns[i].name != columns[j].name
    ensures Placed(columns, Names(columns), values) == values
  {
    forall i | 0 <= i < |columns|
      ensures Position(Names(columns), columns[i].name) == Some(i)
    {
      var k := Position(Names(columns), columns[i].name);
      assert Names(columns)[i] == columns[i].name;
    }
  }

  /** Each column takes the value named for it, and its standard where none is. */
  lemma PlacedByName(columns: seq<Column>, named: seq<string>, values: Row, i: nat)
    requires |values| == |named| && i < |columns|
    requires forall j, k :: 0 <= j < k < |named| ==> named[j] != named[k]
    ensures |Placed(columns, named, values)| == |columns|
    ensures forall k :: 0 <= k < |named| && named[k] == columns[i].name ==> Placed(columns, named, values)[i] == values[k]
    ensures columns[i].name !in named ==> Placed(columns, named, values)[i] == columns[i].standard
  {
  }

  // ----- one table --------------------------------------------------------------------------------

  function WithRows(t: Table, j: nat): Table
    requires j <= |t.rows|
  {
    t.(rows := t.rows[..j])
  }

  lemma RowBack(current: Tables, all: Tables, e: TableExport, engine: Engine, j: nat)
    requires e.name in all && e.name in current && TableExported(e.name, all[e.name], e)
    requires j < |e.rows| && Below(current, all) && current[e.name] == WithRows(all[e.name], j)
    requires WellFormed(all[e.name]) && Downward(engine) && engine.rowsOk(all)
    ensures var next := current[e.name := WithRows(all[e.name], j + 1)];
            ImportRow(current, e.name, e.columns, e.rows[j], engine) == Success(next) && Below(next, all)
  {
    var t := all[e.name];
    assert RowExported(t.rows[j], e.rows[j]);
    ValuesBack(t.rows[j], e.rows[j]);
    PlacedInOrder(t.columns, t.rows[j]);
    assert t.rows[..j] + [t.rows[j]] == t.rows[..j + 1];
    hide ValuesOf, Placed, WellFormed, RowExported;
    var next := current[e.name := WithRows(t, j + 1)];
    assert Below(next, all);
  }

  lemma ImportRowsStep(current: Tables, next: Tables, e: TableExport, engine: Engine, j: nat)
    requires e.name in current && e.name in next && j < |e.rows|
    requires ImportRow(current, e.name, e.columns, e.rows[j], engine) == Success(next)
    ensures ImportRows(current, e.name, e.columns, e.rows[j..], engine) == ImportRows(next, e.name, e.columns, e.rows[j + 1..], engine)
  {
    hide ImportRow;
    assert e.rows[j..][0] == e.rows[j] && e.rows[j..][1..] == e.rows[j + 1..];
  }

  lemma {:induction false} RowsBack(current: Tables, all: Tables, e: TableExport, engine: Engine, j: nat)
    requires e.name in all && e.name in current && TableExported(e.name, all[e.name], e)
    requires j <= |e.rows| && Below(current, all) && current[e.name] == WithRows(all[e.name], j)
    requires WellFormed(all[e.name]) && Downward(engine) && engine.rowsOk(all)
    ensures ImportRows(current, e.name, e.columns, e.rows[j..], engine) == Success(current[e.name := all[e.name]])
    decreases |e.rows| - j
  {
    ExportedShape(e, all[e.name]);
    hide Below, SameSchema, ImportRow, ImportRows, TableExported, WellFormed, Downward;
    if j == |e.rows| {
      AllRowsBack(current, all, e, engine);
    } else {
      RowBack(current, all, e, engine, j);
      var next := current[e.name := WithRows(all[e.name], j + 1)];
      RowsBack(next, all, e, engine, j + 1);
      ImportRowsStep(current, next, e, engine, j);
      SetTwice(current, e.name, WithRows(all[e.name], j + 1), all[e.name]);
    }
  }

  lemma SetTwice(tables: Tables, name: string, a: Table, b: Table)
    ensures tables[name := a][name := b] == tables[name := b]
  {
  }

  lemma ExportedShape(e: TableExport, t: Table)
    requires TableExported(e.name, t, e)
    ensures |e.rows| == |t.rows| && e.columns == Names(t.columns)
  {
  }

  lemma AllRowsBack(current: Tables, all: Tables, e: TableExport, engine: Engine)
    requires e.name in all && e.name in current && TableExported(e.name, all[e.name], e)
    requires current[e.name] == WithRows(all[e.name], |e.rows|)
    ensures ImportRows(current, e.name, e.columns, e.rows[|e.rows|..], engine) == Success(current[e.name := all[e.name]])
  {
    hide RowExported, ImportRow;
    assert all[e.name].rows[..|e.rows|] == all[e.name].rows;
    assert current[e.name := all[e.name]] == current;
  }

  /** The columns of every exported table that has rows can be named in a statement. */
  predicate PlainColumns(exports: seq<TableExport>) {
    forall i, j :: 0 <= i < |exports| && exports[i].rows != [] && 0 <= j < |exports[i].columns| ==> PlainName(exports[i].columns[j])
  }

  lemma TableBack(current: Tables, all: Tables, e: TableExport, engine: Engine)
    requires e.name in all && TableExported(e.name, all[e.name], e) && PlainName(e.name)
    requires Below(current, all) && current[e.name].rows == []
    requires WellFormed(all[e.name]) && Downward(engine) && engine.rowsOk(all)
    requires PlainColumns([e]) && (all[e.name].columns == [] ==> e.rows == [])
    ensures ImportTable(current, e, engine) == Success(current[e.name := all[e.name]])
    ensures Below(current[e.name := all[e.name]], all)
  {
    hide ImportRows, Downward, WellFormed, TableExported, PlainName, FirstBadName;
    var t := all[e.name];
    ExportedShape(e, t);
    assert current[e.name].columns == t.columns;
    if e.rows == [] {
      assert current[e.name := t] == current;
    } else {
      assert current[e.name] == WithRows(t, 0) && e.rows[0..] == e.rows;
      RowsBack(current, all, e, engine, 0);
      assert [e][0] == e;
      FirstBadNameNone(e.columns);
      assert forall i :: 0 <= i < |e.columns| ==> e.columns[i] in Names(t.columns);
    }
  }

  lemma FirstBadNameNone(names: seq<string>)
    ensures FirstBadName(names).None? <==> forall i :: 0 <= i < |names| ==> PlainName(names[i])
  {
  }

  // ----- all tables ---------------------------------------------------------------------------------

  /** The tables once those exported have their rows. */
  function Filled(current: Tables, all: Tables, exports: seq<TableExport>): Tables
    requires current.Keys <= all.Keys
  {
    map n | n in current :: if Named(exports, n) then all[n] else current[n]
  }

  predicate Named(exports: seq<TableExport>, name: string) {
    exists i :: 0 <= i < |exports| && exports[i].name == name
  }

  /** An export of some of the tables, each once. */
  ghost predicate ExportsOf(all: Tables, exports: seq<TableExport>) {
    && (forall i :: 0 <= i < |exports| ==> PlainName(exports[i].name) && exports[i].name in all
                                           && TableExported(exports[i].name, all[exports[i].name], exports[i]))
    && (forall i, j :: 0 <= i < j < |exports| ==> exports[i].name != exports[j].name)
  }

  ghost predicate Ready(current: Tables, all: Tables, exports: seq<TableExport>) {
    Below(current, all) && forall i :: 0 <= i < |exports| ==> exports[i].name in current && current[exports[i].name].rows == []
  }

  ghost predicate HasColumns(all: Tables) {
    forall n :: n in all && all[n].columns == [] ==> all[n].rows == []
  }

  lemma ReadyRest(current: Tables, all: Tables, exports: seq<TableExport>)
    requires exports != [] && ExportsOf(all, exports) && Ready(current, all, exports)
    requires Below(current[exports[0].name := all[exports[0].name]], all)
    ensures ExportsOf(all, exports[1..])
    ensures Ready(current[exports[0].name := all[exports[0].name]], all, exports[1..])
    ensures Filled(current[exports[0].name := all[exports[0].name]], all, exports[1..]) == Filled(current, all, exports)
  {
    var rest := exports[1..];
    var next := current[exports[0].name := all[exports[0].name]];
    assert forall i :: 1 <= i < |exports| ==> exports[i] == rest[i - 1];
    assert forall i :: 0 <= i < |rest| ==> rest[i] == exports[i + 1];
    hide TableExported, Below, PlainName;
    forall n | n in current
      ensures Named(exports, n) <==> Named(rest, n) || n == exports[0].name
    {
      if Named(rest, n) {
        var i :| 0 <= i < |rest| && rest[i].name == n;
        assert exports[i + 1].name == n;
      }
      if Named(exports, n) && n != exports[0].name {
        var i :| 0 <= i < |exports| && exports[i].name == n;
        assert rest[i - 1].name == n;
      }
    }
  }

  lemma PlainColumnsRest(exports: seq<TableExport>)
    requires exports != []
    ensures PlainColumns(exports) <==> PlainColumns([exports[0]]) && PlainColumns(exports[1..])
  {
    var rest := exports[1..];
    hide PlainName;
    if PlainColumns([exports[0]]) && PlainColumns(rest) {
      forall i, j | 0 <= i < |exports| && exports[i].rows != [] && 0 <= j < |exports[i].columns|
        ensures PlainName(exports[i].columns[j])
      {
        if i > 0 {
          assert rest[i - 1] == exports[i];
        } else {
          assert [exports[0]][0].columns[j] == exports[i].columns[j];
        }
      }
    }
    if PlainColumns(exports) {
      forall i, j | 0 <= i < |rest| && rest[i].rows != [] && 0 <= j < |rest[i].columns|
        ensures PlainName(rest[i].columns[j])
      {
        assert exports[i + 1].columns[j] == rest[i].columns[j];
      }
      assert [exports[0]][0] == exports[0];
    }
  }

  lemma {:induction false} TablesBack(current: Tables, all: Tables, exports: seq<TableExport>, engine: Engine)
    requires ExportsOf(all, exports) && Ready(current, all, exports) && PlainColumns(exports)
    requires (forall n :: n in all ==> WellFormed(all[n])) && HasColumns(all) && Downward(engine) && engine.rowsOk(all)
    ensures ImportTables(current, exports, engine) == Success(Filled(current, all, exports))
    decreases |exports|
  {
    if exports != [] {
      var e := exports[0];
      PlainColumnsRest(exports);
      assert TableExported(e.name, all[e.name], e);
      assert |e.rows| == |all[e.name].rows|;
      TableBack(current, all, e, engine);
      ReadyRest(current, all, exports);
      hide ImportTable, Filled, WellFormed, Downward, ExportsOf, Ready, PlainColumns;
      TablesBack(current[e.name := all[e.name]], all, exports[1..], engine);
    } else {
      assert Filled(current, all, exports) == current;
    }
  }

  lemma {:induction false} BadColumnFails(current: Tables, exports: seq<TableExport>, engine: Engine)
    requires !PlainColumns(exports)
    ensures ImportTables(current, exports, engine).Failure?
    decreases |exports|
  {
    var i, j :| 0 <= i < |exports| && exports[i].rows != [] && 0 <= j < |exports[i].columns| && !PlainName(exports[i].columns[j]);
    FirstBadNameNone(exports[i].columns);
    if i > 0 {
      assert exports[1..][i - 1] == exports[i];
      match ImportTable(current, exports[0], engine)
      case Success(next) => BadColumnFails(next, exports[1..], engine);
      case _ =>
    }
  }

  // ----- the round trip ---------------------------------------------------------------------------------

  /**
   Tables the listing leaves out have no rows. The database's own tables are not among `tables`:
   the counters it keeps there are the subject of `BackupCounters`.
   */
  ghost predicate HiddenEmpty(tables: Tables) {
    forall n :: n in tables && Hidden(n) ==> tables[n].rows == []
  }

  lemma ExportsAreOf(db: Database, p: Payload)
    requires Exports(db, p) && AllExportable(db)
    ensures ExportsOf(db.tables, p.tables)
    ensures forall n :: n in db.tables ==> (Named(p.tables, n) <==> !Hidden(n))
  {
    hide TableExported, Hidden;
    forall i | 0 <= i < |p.tables|
      ensures PlainName(p.tables[i].name) && !Hidden(p.tables[i].name)
    {
      var n := p.tables[i].name;
      assert n in db.tables && !Hidden(n);
      assert Exportable(n, db.tables[n]);
    }
    forall i, j | 0 <= i < j < |p.tables|
      ensures p.tables[i].name != p.tables[j].name
    {
      BeforeIsTotal(p.tables[i].name, p.tables[i].name);
    }
  }

  /**
   Into an empty schema of the same shape, the payload of a database brings back exactly its
   tables, if and only if the columns of tables with rows have plain names and no table the
   listing leaves out has rows.
   */
  lemma ImportBringsBack(empty: Tables, db: Database, p: Payload, engine: Engine)
    requires Exports(db, p) && AllExportable(db) && Sound(db, engine) && HasColumns(db.tables) && Downward(engine)
    requires SameSchema(empty, db.tables) && forall n :: n in empty ==> empty[n].rows == []
    ensures Imported(empty, p.tables, engine) == Success(db.tables) <==> PlainColumns(p.tables) && HiddenEmpty(db.tables)
  {
    hide Exports, AllExportable, Downward, Hidden, WellFormed;
    ExportsAreOf(db, p);
    if PlainColumns(p.tables) {
      assert Ready(empty, db.tables, p.tables) by {
        assert forall i :: 0 <= i < |p.tables| ==> p.tables[i].name in db.tables;
      }
      hide ExportsOf, PlainColumns, Ready;
      TablesBack(empty, db.tables, p.tables, engine);
      hide ImportTables;
      FilledIsAll(empty, db.tables, p.tables);
      if HiddenEmpty(db.tables) {
        assert Filled(empty, db.tables, p.tables) == db.tables;
      }
    } else {
      BadColumnFails(empty, p.tables, engine);
    }
  }

  lemma FilledIsAll(empty: Tables, all: Tables, exports: seq<TableExport>)
    requires SameSchema(empty, all) && forall n :: n in empty ==> empty[n].rows == []
    requires forall n :: n in all ==> (Named(exports, n) <==> !Hidden(n))
    ensures Filled(empty, all, exports) == all <==> HiddenEmpty(all)
  {
    hide Hidden, Named;
    var filled := Filled(empty, all, exports);
    if HiddenEmpty(all) {
      forall n | n in all
        ensures filled[n] == all[n]
      {
        if Hidden(n) {
          assert empty[n] == Table(all[n].columns, []) == all[n];
        }
      }
      assert filled == all;
    }
    if filled == all {
      forall n | n in all && Hidden(n)
        ensures all[n].rows == []
      {
        assert filled[n] == empty[n];
      }
    }
  }

  // ----- migrating in stages -----------------------------------------------------------------------------

  /** Versions grow along the list, from above that of an empty database. */
  predicate Increasing(ms: seq<Migration>) {
    (forall i :: 0 <= i < |ms| ==> ms[i].version > 0) && forall i, j :: 0 <= i < j < |ms| ==> ms[i].version < ms[j].version
  }

  lemma {:induction false} ApplyInStages(db: Database, a: seq<Migration>, b: seq<Migration>)
    ensures ApplyNewer(db, a + b) == if ApplyNewer(db, a).error.Some? then ApplyNewer(db, a) else ApplyNewer(ApplyNewer(db, a).db, b)
    decreases |a|
  {
    if a == [] {
      assert a + b == b;
    } else {
      assert (a + b)[1..] == a[1..] + b;
      if a[0].version <= db.version {
        ApplyInStages(db, a[1..], b);
      } else if a[0].apply(db.tables).Some? {
        ApplyInStages(Database(a[0].version, a[0].apply(db.tables).value), a[1..], b);
      }
    }
  }

  lemma {:induction false} NothingNewer(db: Database, ms: seq<Migration>)
    requires forall i :: 0 <= i < |ms| ==> ms[i].version <= db.version
    ensures ApplyNewer(db, ms) == Outcome(db, None)
  {
    if ms != [] {
      NothingNewer(db, ms[1..]);
    }
  }

  lemma {:induction false} ReachesLast(db: Database, ms: seq<Migration>)
    requires Increasing(ms) && ms != [] && db.version <= LastVersion(ms) && ApplyNewer(db, ms).error.None?
    ensures ApplyNewer(db, ms).db.version == LastVersion(ms)
    decreases |ms|
  {
    var rest := ms[1..];
    if rest == [] {
      assert ms == [ms[0]];
    } else {
      assert Increasing(rest) && LastVersion(rest) == LastVersion(ms);
      if ms[0].version <= db.version {
        ReachesLast(db, rest);
      } else {
        assert ms[0].version < rest[|rest| - 1].version;
        ReachesLast(Database(ms[0].version, ms[0].apply(db.tables).value), rest);
      }
    }
  }

  /** Migrating up to some version and then to the newest is migrating to the newest at once. */
  lemma MigrateInStages(db: Database, ms: seq<Migration>, k: nat)
    requires Increasing(ms) && k < |ms| && db.version <= ms[k].version
    requires Migrated(db, ms[..k + 1]).error.None?
    ensures Migrated(db, ms[..k + 1]).db.version == ms[k].version
    ensures Migrated(Migrated(db, ms[..k + 1]).db, ms) == Migrated(db, ms)
  {
    var a, b := ms[..k + 1], ms[k + 1..];
    assert a + b == ms && LastVersion(a) == ms[k].version && Increasing(a);
    ReachesLast(db, a);
    var mid := ApplyNewer(db, a).db;
    ApplyInStages(db, a, b);
    ApplyInStages(mid, a, b);
    NothingNewer(mid, a);
    assert ms[k].version <= LastVersion(ms);
  }

  /** A migrated database is at the newest version, and migrating it again changes nothing. */
  lemma MigrateAgain(db: Database, ms: seq<Migration>)
    requires Increasing(ms) && ms != [] && Migrated(db, ms).error.None?
    ensures Migrated(db, ms).db.version == LastVersion(ms)
    ensures Migrated(Migrated(db, ms).db, ms) == Migrated(db, ms)
  {
    ReachesLast(db, ms);
    NothingNewer(Migrated(db, ms).db, ms);
  }

  /** Every schema can be built from nothing, and then holds no rows. */
  ghost predicate FreshAt(ms: seq<Migration>, k: nat, schema: Tables) {
    k < |ms| && var built := Migrated(EMPTY, ms[..k + 1]);
    built.error.None? && SameSchema(built.db.tables, schema) && forall n :: n in built.db.tables ==> built.db.tables[n].rows == []
  }

  /**
   Restoring the backup of a database at a known version gives what migrating that database
   forward gives, down to the error if a migration fails.
   */
  lemma RestoreIsMigrate(db: Database, p: Payload, ms: seq<Migration>, k: nat, engine: Engine)
    requires Increasing(ms) && k < |ms| && db.version == ms[k].version && FreshAt(ms, k, db.tables)
    requires Exports(db, p) && AllExportable(db) && Sound(db, engine) && HasColumns(db.tables) && Downward(engine)
    requires PlainColumns(p.tables) && HiddenEmpty(db.tables)
    ensures Restored(EMPTY, p, ms, engine) == Migrated(db, ms)
  {
    var built := Migrated(EMPTY, ms[..k + 1]);
    VersionIs(ms, k);
    assert p.schemaVersion == ms[k].version;
    hide Exports, AllExportable, Sound, HasColumns, Downward, PlainColumns, HiddenEmpty, Imported;
    MigrateInStages(EMPTY, ms, k);
    ImportBringsBack(built.db.tables, db, p, engine);
    hide ApplyNewer;
    assert built.db.version == db.version;
    assert Database(built.db.version, db.tables) == db;
  }

  /** The last row tells, by the names of the columns, of a restore: when, and nothing besides. */
  ghost predicate Records(audit: Table, id: int, at: Utf8) {
    audit.rows != []
    && var row := audit.rows[|audit.rows| - 1];
    |row| == |audit.columns| && forall i :: 0 <= i < |row| ==>
      && (audit.columns[i].name == "id" ==> row[i] == Integer(id))
      && (audit.columns[i].name == "at" ==> row[i] == Text(at))
      && (audit.columns[i].name == "event" ==> row[i] == Text(Ascii("vault_restored_from_backup")))
      && (audit.columns[i].name == "project_id" ==> row[i] == Null)
      && (audit.columns[i].name == "credential_id" ==> row[i] == Null)
      && (audit.columns[i].name == "detail" ==> row[i] == Text([]))
  }

  lemma AuditRow(tables: Tables, id: int, at: Utf8)
    requires "audit_events" in tables
    ensures var next := WithAudit(tables, id, at);
            && next.Keys == tables.Keys && (forall n :: n in tables && n != "audit_events" ==> next[n] == tables[n])
            && next["audit_events"].columns == tables["audit_events"].columns
            && |next["audit_events"].rows| == |tables["audit_events"].rows| + 1
            && next["audit_events"].rows[..|tables["audit_events"].rows|] == tables["audit_events"].rows
            && Records(next["audit_events"], id, at)
  {
    hide Ascii, ValidUtf8;
    var names := ["id", "at", "event", "project_id", "credential_id", "detail"];
    assert names[0] == "id" && names[1] == "at" && names[2] == "event" && names[3] == "project_id"
           && names[4] == "credential_id" && names[5] == "detail";
  }

  /** The restored vault is the migrated original with one more audit event, and nothing else. */
  lemma RestoredVault(db: Database, p: Payload, ms: seq<Migration>, k: nat, engine: Engine, id: int, at: Utf8)
    requires Increasing(ms) && k < |ms| && db.version == ms[k].version && FreshAt(ms, k, db.tables)
    requires Exports(db, p) && AllExportable(db) && Sound(db, engine) && HasColumns(db.tables) && Downward(engine)
    requires PlainColumns(p.tables) && HiddenEmpty(db.tables)
    requires Migrated(db, ms).error.None? && "audit_events" in Migrated(db, ms).db.tables
    ensures var restored := Restored(EMPTY, p, ms, engine);
            && restored.error.None? && restored.db.version == LastVersion(ms) && "audit_events" in restored.db.tables
            && var original, tables := Migrated(db, ms).db.tables, WithAudit(restored.db.tables, id, at);
            && tables.Keys == original.Keys
            && (forall n :: n in tables && n != "audit_events" ==> tables[n] == original[n])
            && tables["audit_events"].columns == original["audit_events"].columns
            && |tables["audit_events"].rows| == |original["audit_events"].rows| + 1
            && tables["audit_events"].rows[..|original["audit_events"].rows|] == original["audit_events"].rows
            && Records(tables["audit_events"], id, at)
  {
    RestoreIsMigrate(db, p, ms, k, engine);
    hide Restored, Exports, AllExportable, Sound, HasColumns, Downward, PlainColumns, HiddenEmpty, FreshAt;
    MigrateAgain(db, ms);
    hide Migrated, WithAudit, Records;
    AuditRow(Restored(EMPTY, p, ms, engine).db.tables, id, at);
  }

  lemma VersionIs(ms: seq<Migration>, k: nat)
    requires Increasing(ms) && k < |ms|
    ensures VersionIndex(ms, ms[k].version) == Some(k)
  {
    assert VersionIndex(ms, ms[k].version).Some?;
  }

  /** With a column that cannot be named, nothing is restored: only the empty schema stays. */
  lemma UnplainColumnIsLost(db: Database, p: Payload, ms: seq<Migration>, k: nat, engine: Engine)
    requires Increasing(ms) && k < |ms| && db.version == ms[k].version && FreshAt(ms, k, db.tables)
    requires Exports(db, p) && !PlainColumns(p.tables)
    ensures Restored(EMPTY, p, ms, engine).error.Some?
    ensures Restored(EMPTY, p, ms, engine).db == Migrated(EMPTY, ms[..k + 1]).db
  {
    VersionIs(ms, k);
    assert p.schemaVersion == ms[k].version;
    BadColumnFails(Migrated(EMPTY, ms[..k + 1]).db.tables, p.tables, engine);
  }

  lemma ExportedVersion(db: Database, p: Payload)
    requires Exports(db, p)
    ensures p.schemaVersion == db.version
  {
  }

  /**
   In the restored vault a table with automatic ids goes on from the highest id that came back: an
   id given out before is given out again if and only if its row had been deleted and none had a
   higher one.
   */
  lemma RestoredIds(db: Database, p: Payload, ms: seq<Migration>, k: nat, engine: Engine, n: string, counter: int)
    requires Increasing(ms) && k < |ms| && db.version == ms[k].version && FreshAt(ms, k, db.tables)
    requires Exports(db, p) && AllExportable(db) && Sound(db, engine) && HasColumns(db.tables) && Downward(engine)
    requires PlainColumns(p.tables) && HiddenEmpty(db.tables)
    requires n in db.tables && n in engine.idColumns && Counts(counter, IdsOf(db.tables[n].rows, engine.idColumns[n]))
    ensures var next := Counter(RestoredCounters(p, ms, engine), n) + 1;
            && next <= counter + 1
            && (next <= counter <==> counter > 0 && counter !in IdsOf(db.tables[n].rows, engine.idColumns[n]))
            && next !in IdsOf(db.tables[n].rows, engine.idColumns[n])
  {
    hide Exports, AllExportable, Sound, HasColumns, Downward, PlainColumns, HiddenEmpty, Imported, Migrated, VersionIndex;
    hide Increasing;
    var rows, column := db.tables[n].rows, engine.idColumns[n];
    VersionIs(ms, k);
    ExportedVersion(db, p);
    var built := Migrated(EMPTY, ms[..k + 1]);
    ImportBringsBack(built.db.tables, db, p, engine);
    assert RestoredCounters(p, ms, engine) == CountersAfter(map[], db.tables, engine.idColumns);
    hide Raised, IdsOf;
    RestoredCounter(counter, rows, column);
    RaisedIsHighest(0, IdsOf(rows, column));
  }
}
