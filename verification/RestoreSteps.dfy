/** What migrating and importing come to, step by step: which migrations were applied, and which rows were added. */
module RestoreSteps {
  import opened Wrappers
  import opened BackupCells
  import opened Backup
  import opened Restore
  import opened BackupRoundTrip

  // ----- migrating -------------------------------------------------------------------------------

  /** Each database results from the one before by the next migration. */
  ghost predicate Chain(ms: seq<Migration>, from: nat, states: seq<Database>)
    decreases |states|
  {
    && states != [] && from <= |ms|
    && (|states| > 1 ==>
          && from < |ms|
          && ms[from].apply(states[0].tables) == Some(states[1].tables) && states[1].version == ms[from].version
          && Chain(ms, from + 1, states[1..]))
  }

  lemma ApplyStep(db: Database, ms: seq<Migration>, k: nat)
    requires k <= |ms|
    ensures ApplyNewer(db, ms[k..]) ==
            if k == |ms| then Outcome(db, None)
            else if ms[k].version <= db.version then ApplyNewer(db, ms[k + 1..])
            else
              match ms[k].apply(db.tables)
              case None => Outcome(db, Some(MigrationFailed(ms[k].version)))
              case Some(tables) => ApplyNewer(Database(ms[k].version, tables), ms[k + 1..])
  {
    if k < |ms| {
      assert ms[k..][0] == ms[k] && ms[k..][1..] == ms[k + 1..];
    }
  }

  lemma {:induction false} AppliedInOrder(db: Database, ms: seq<Migration>, k: nat) returns (from: nat, states: seq<Database>)
    requires Increasing(ms) && k <= |ms|
    ensures k <= from <= |ms| && Chain(ms, from, states) && states[0] == db
    ensures forall i :: k <= i < from ==> ms[i].version <= db.version
    ensures forall i :: from <= i < |ms| ==> ms[i].version > db.version
    ensures var r, n := ApplyNewer(db, ms[k..]), from + |states| - 1;
            && n <= |ms| && r.db == states[|states| - 1]
            && if n == |ms| then r.error == None
               else ms[n].apply(r.db.tables) == None && r.error == Some(MigrationFailed(ms[n].version))
    decreases |ms| - k
  {
    ApplyStep(db, ms, k);
    hide ApplyNewer;
    if k == |ms| {
      from, states := k, [db];
    } else {
      if ms[k].version <= db.version {
        from, states := AppliedInOrder(db, ms, k + 1);
      } else {
        match ms[k].apply(db.tables)
        case None => from, states := k, [db];
        case Some(tables) =>
          var next := Database(ms[k].version, tables);
          var from', rest := AppliedInOrder(next, ms, k + 1);
          from, states := k, [db] + rest;
          assert from' == k + 1 && states[1..] == rest;
      }
    }
  }

  /**
   A database not newer than the program is taken through exactly the newer migrations, in order, up
   to the first that fails; then it is as that migration found it, and the error names it.
   */
  lemma MigratedInOrder(db: Database, ms: seq<Migration>) returns (from: nat, states: seq<Database>)
    requires Increasing(ms) && db.version <= LastVersion(ms)
    ensures from <= |ms| && Chain(ms, from, states) && states[0] == db
    ensures forall i :: 0 <= i < |ms| ==> (i >= from <==> ms[i].version > db.version)
    ensures var r, n := Migrated(db, ms), from + |states| - 1;
            && n <= |ms| && r.db == states[|states| - 1]
            && if n == |ms| then r.error == None
               else ms[n].apply(r.db.tables) == None && r.error == Some(MigrationFailed(ms[n].version))
  {
    assert ms[0..] == ms;
    from, states := AppliedInOrder(db, ms, 0);
  }

  // ----- importing ---------------------------------------------------------------------------------

  /** The rows the exports of a table add to it, in order. */
  function RowsFor(columns: seq<Column>, exports: seq<TableExport>, n: string): seq<Row> {
    if exports == [] then []
    else (if exports[0].name == n then RowsOfExport(columns, exports[0], |exports[0].rows|) else []) + RowsFor(columns, exports[1..], n)
  }

  function RowsOfExport(columns: seq<Column>, e: TableExport, k: nat): seq<Row>
    requires k <= |e.rows|
  {
    if k == 0 then [] else RowsOfExport(columns, e, k - 1) + [RowOf(columns, e, k - 1)]
  }

  /** A row as the table holds it: the exported value under each named column, the standard under others. */
  function RowOf(columns: seq<Column>, e: TableExport, k: nat): Row
    requires k < |e.rows|
  {
    seq(|columns|, i requires 0 <= i < |columns| =>
      match Position(e.columns, columns[i].name)
      case Some(c) => if c < |e.rows[k]| && IntoValue(e.rows[k][c]).Success? then IntoValue(e.rows[k][c]).value else Null
      case None => columns[i].standard)
  }

  /** The row has a readable value for each of the columns. */
  predicate Reads(e: TableExport, k: nat)
    requires k < |e.rows|
  {
    |e.rows[k]| == |e.columns| && forall c :: 0 <= c < |e.columns| ==> IntoValue(e.rows[k][c]).Success?
  }

  /** The export could be written as statements over the tables. */
  ghost predicate Fits(tables: Tables, e: TableExport) {
    && PlainName(e.name)
    && (e.rows != [] ==>
          && e.name in tables && e.columns != []
          && (forall c :: c in e.columns ==> PlainName(c) && c in Names(tables[e.name].columns))
          && (forall k :: 0 <= k < |e.rows| ==> Reads(e, k)))
  }

  /** Only rows were added to the tables: these. */
  ghost predicate Adds(tables: Tables, next: Tables, exports: seq<TableExport>) {
    && next.Keys == tables.Keys
    && forall n :: n in tables ==>
         next[n].columns == tables[n].columns && next[n].rows == tables[n].rows + RowsFor(tables[n].columns, exports, n)
  }

  lemma OneRowAdded(tables: Tables, e: TableExport, k: nat, engine: Engine)
    requires e.name in tables && k < |e.rows| && ImportRow(tables, e.name, e.columns, e.rows[k], engine).Success?
    ensures var next, t := ImportRow(tables, e.name, e.columns, e.rows[k], engine).value, tables[e.name];
            && next == tables[e.name := t.(rows := t.rows + [RowOf(t.columns, e, k)])] && engine.rowsOk(next)
    ensures Reads(e, k)
  {
    var t := tables[e.name];
    var values := ValuesOf(e.rows[k]).value;
    assert Placed(t.columns, e.columns, values) == RowOf(t.columns, e, k);
  }

  lemma {:induction false} RowsAdded(tables: Tables, e: TableExport, k: nat, engine: Engine)
    requires e.name in tables && k <= |e.rows|
    requires ImportRows(tables, e.name, e.columns, e.rows[k..], engine).Success?
    ensures var next, t := ImportRows(tables, e.name, e.columns, e.rows[k..], engine).value, tables[e.name];
            && next == tables[e.name := next[e.name]] && next[e.name].columns == t.columns
            && |next[e.name].rows| >= |t.rows| && next[e.name].rows[..|t.rows|] == t.rows
            && RowsOfExport(t.columns, e, k) + next[e.name].rows[|t.rows|..] == RowsOfExport(t.columns, e, |e.rows|)
            && (k < |e.rows| ==> engine.rowsOk(next))
    ensures forall i :: k <= i < |e.rows| ==> Reads(e, i)
    decreases |e.rows| - k
  {
    hide ImportRow, RowOf, Reads;
    if k < |e.rows| {
      assert e.rows[k..][0] == e.rows[k] && e.rows[k..][1..] == e.rows[k + 1..];
      OneRowAdded(tables, e, k, engine);
      var next := ImportRow(tables, e.name, e.columns, e.rows[k], engine).value;
      RowsAdded(next, e, k + 1, engine);
      if k + 1 == |e.rows| {
        assert ImportRows(next, e.name, e.columns, e.rows[k + 1..], engine) == Success(next);
      }
      OneInFront(tables[e.name], next[e.name], ImportRows(tables, e.name, e.columns, e.rows[k..], engine).value[e.name], e, k,
        RowsOfExport(tables[e.name].columns, e, |e.rows|));
    } else {
      assert RowsOfExport(tables[e.name].columns, e, k) + [] == RowsOfExport(tables[e.name].columns, e, k);
    }
  }

  lemma OneInFront(t: Table, one: Table, all: Table, e: TableExport, k: nat, whole: seq<Row>)
    requires k < |e.rows| && one == t.(rows := t.rows + [RowOf(t.columns, e, k)])
    requires |all.rows| > |t.rows| && all.rows[..|one.rows|] == one.rows
    requires RowsOfExport(t.columns, e, k + 1) + all.rows[|one.rows|..] == whole
    ensures all.rows[..|t.rows|] == t.rows
    ensures RowsOfExport(t.columns, e, k) + all.rows[|t.rows|..] == whole
  {
    hide RowOf;
    var row := RowOf(t.columns, e, k);
    assert RowsOfExport(t.columns, e, k + 1) == RowsOfExport(t.columns, e, k) + [row];
    hide RowsOfExport;
    assert all.rows[|t.rows|] == one.rows[|t.rows|] == row;
    assert all.rows[|t.rows|..] == [row] + all.rows[|one.rows|..];
    assert all.rows[..|t.rows|] == one.rows[..|t.rows|] == t.rows;
  }

  lemma TableAdded(tables: Tables, e: TableExport, engine: Engine)
    requires ImportTable(tables, e, engine).Success?
    ensures var next := ImportTable(tables, e, engine).value;
            && Fits(tables, e) && Adds(tables, next, [e])
            && (if e.rows == [] then next == tables else engine.rowsOk(next))
  {
    hide ImportRows, RowsOfExport, Reads, PlainName;
    var next := ImportTable(tables, e, engine).value;
    assert [e][1..] == [];
    if e.rows == [] {
      forall n | n in tables
        ensures tables[n].rows + RowsFor(tables[n].columns, [e], n) == tables[n].rows
      {
        OneExport(tables[n].columns, e, n);
        NoRows(tables[n].columns, e);
      }
    } else {
      assert e.rows[0..] == e.rows;
      NoRows(tables[e.name].columns, e);
      RowsAdded(tables, e, 0, engine);
      var t, added := tables[e.name], next[e.name].rows[|tables[e.name].rows|..];
      assert [] + added == added == RowsOfExport(t.columns, e, |e.rows|);
      assert next[e.name].rows == t.rows + added;
      forall n | n in tables
        ensures next[n].columns == tables[n].columns && next[n].rows == tables[n].rows + RowsFor(tables[n].columns, [e], n)
      {
        OneExport(tables[n].columns, e, n);
        assert n != e.name ==> next[n] == tables[n] && tables[n].rows + [] == tables[n].rows;
      }
    }
  }

  lemma NoRows(columns: seq<Column>, e: TableExport)
    ensures RowsOfExport(columns, e, 0) == []
  {
  }

  lemma OneExport(columns: seq<Column>, e: TableExport, n: string)
    ensures RowsFor(columns, [e], n) == if e.name == n then RowsOfExport(columns, e, |e.rows|) else []
  {
    hide RowsOfExport;
    assert [e][1..] == [];
  }

  lemma AddsMore(tables: Tables, one: Tables, next: Tables, exports: seq<TableExport>)
    requires exports != [] && Adds(tables, one, [exports[0]]) && Adds(one, next, exports[1..])
    ensures Adds(tables, next, exports)
  {
    hide RowsFor, RowsOfExport;
    forall n | n in tables
      ensures next[n].columns == tables[n].columns && next[n].rows == tables[n].rows + RowsFor(tables[n].columns, exports, n)
    {
      FirstExport(tables[n].columns, exports, n);
      Regroup(tables[n].rows, RowsFor(tables[n].columns, [exports[0]], n), RowsFor(tables[n].columns, exports[1..], n));
    }
  }

  lemma FirstExport(columns: seq<Column>, exports: seq<TableExport>, n: string)
    requires exports != []
    ensures RowsFor(columns, exports, n) == RowsFor(columns, [exports[0]], n) + RowsFor(columns, exports[1..], n)
  {
    OneExport(columns, exports[0], n);
    hide RowsOfExport;
  }

  lemma Regroup(a: seq<Row>, b: seq<Row>, c: seq<Row>)
    ensures a + b + c == a + (b + c)
  {
  }

  lemma {:induction false} TablesAdded(tables: Tables, exports: seq<TableExport>, engine: Engine)
    requires ImportTables(tables, exports, engine).Success?
    ensures var next := ImportTables(tables, exports, engine).value;
            && (forall e :: e in exports ==> Fits(tables, e)) && Adds(tables, next, exports)
            && (if forall e :: e in exports ==> e.rows == [] then next == tables else engine.rowsOk(next))
    decreases |exports|
  {
    if exports == [] {
      assert forall n :: n in tables ==> tables[n].rows + RowsFor(tables[n].columns, exports, n) == tables[n].rows;
    } else {
      hide ImportTable, Fits, Adds, Reads;
      var one := ImportTable(tables, exports[0], engine).value;
      TableAdded(tables, exports[0], engine);
      TablesAdded(one, exports[1..], engine);
      AddsMore(tables, one, ImportTables(tables, exports, engine).value, exports);
      forall e | e in exports
        ensures Fits(tables, e)
      {
        if e != exports[0] {
          assert e in exports[1..];
          SameFits(tables, one, [exports[0]], e);
        }
      }
      assert forall e :: e in exports[1..] ==> e in exports;
      assert forall e :: e in exports ==> e == exports[0] || e in exports[1..];
    }
  }

  lemma SameFits(tables: Tables, next: Tables, exports: seq<TableExport>, e: TableExport)
    requires Adds(tables, next, exports) && Fits(next, e)
    ensures Fits(tables, e)
  {
    hide RowsFor;
  }

  /**
   A successful import wrote every export in full: its names can be used, its rows have the width of
   its columns, and each table has its old rows and behind them those exported under its name, in
   order. The references hold then, and the other constraints held after the last row.
   */
  lemma ImportedMeans(tables: Tables, exports: seq<TableExport>, engine: Engine)
    requires Imported(tables, exports, engine).Success?
    ensures var next := Imported(tables, exports, engine).value;
            && Adds(tables, next, exports) && engine.referencesOk(next)
            && (forall e :: e in exports ==> Fits(tables, e))
            && ((exists e :: e in exports && e.rows != []) ==> engine.rowsOk(next))
  {
    TablesAdded(tables, exports, engine);
    hide ImportTables, Fits, Adds;
  }
}
