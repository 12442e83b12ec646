/** What a restore refuses: the first export, and in it the first row, that could not be written. */
module RestoreRefusals {
  import opened Wrappers
  import opened BackupCells
  import opened Backup
  import opened Restore
  import opened BackupRoundTrip
  import opened RestoreSteps

  /** An export cut behind its first `n` rows. */
  function Upto(e: TableExport, n: nat): TableExport
    requires n <= |e.rows|
  {
    e.(rows := e.rows[..n])
  }

  /** The row cannot be read, for this reason. */
  predicate RowRefused(e: TableExport, j: nat, error: Error)
    requires j < |e.rows|
  {
    if |e.rows[j]| != |e.columns| then error == WidthMismatch(e.name)
    else error == InvalidBase64 && exists c :: 0 <= c < |e.rows[j]| && IntoValue(e.rows[j][c]).Failure?
  }

  /** With this row, behind the exports before, the constraints no longer hold. */
  ghost predicate Breaks(tables: Tables, before: seq<TableExport>, e: TableExport, j: nat, reached: Tables, engine: Engine)
    requires j < |e.rows|
  {
    Reads(e, j) && Adds(tables, reached, before + [Upto(e, j + 1)]) && !engine.rowsOk(reached)
  }

  /** The export is refused, for this reason, at its row `j` if it is for a row. */
  ghost predicate TableRefused(tables: Tables, before: seq<TableExport>, e: TableExport, j: nat, reached: Tables,
                               error: Error, engine: Engine)
  {
    if error.InvalidIdentifier? then
      !PlainName(error.name) && (error.name == e.name || (e.rows != [] && PlainName(e.name) && error.name in e.columns))
    else
      && PlainName(e.name) && e.rows != [] && (forall c :: c in e.columns ==> PlainName(c))
      && if error.SchemaMismatch? then
           && error.table == e.name
           && !(e.name in tables && e.columns != [] && forall c :: c in e.columns ==> c in Names(tables[e.name].columns))
         else
           && e.name in tables && e.columns != [] && (forall c :: c in e.columns ==> c in Names(tables[e.name].columns))
           && j < |e.rows| && (forall i :: 0 <= i < j ==> Reads(e, i))
           && (RowRefused(e, j, error) || (error == ConstraintFailed && Breaks(tables, before, e, j, reached, engine)))
  }

  // ----- rows ----------------------------------------------------------------------------------------

  lemma OneRowRefused(tables: Tables, e: TableExport, j: nat, engine: Engine) returns (reached: Tables)
    requires e.name in tables && j < |e.rows| && ImportRow(tables, e.name, e.columns, e.rows[j], engine).Failure?
    ensures var error, t := ImportRow(tables, e.name, e.columns, e.rows[j], engine).error, tables[e.name];
            || RowRefused(e, j, error)
            || (error == ConstraintFailed && Reads(e, j) && !engine.rowsOk(reached)
                && reached == tables[e.name := t.(rows := t.rows + [RowOf(t.columns, e, j)])])
  {
    reached := tables;
    if |e.rows[j]| == |e.columns| && ValuesOf(e.rows[j]).Success? {
      var t := tables[e.name];
      assert Placed(t.columns, e.columns, ValuesOf(e.rows[j]).value) == RowOf(t.columns, e, j);
      reached := tables[e.name := t.(rows := t.rows + [RowOf(t.columns, e, j)])];
    }
  }

  lemma {:induction false} RowsRefused(tables: Tables, e: TableExport, k: nat, engine: Engine)
    returns (j: nat, reached: Tables)
    requires e.name in tables && k <= |e.rows|
    requires ImportRows(tables, e.name, e.columns, e.rows[k..], engine).Failure?
    ensures k <= j < |e.rows| && forall i :: k <= i < j ==> Reads(e, i)
    ensures var error, t := ImportRows(tables, e.name, e.columns, e.rows[k..], engine).error, tables[e.name];
            || RowRefused(e, j, error)
            || (error == ConstraintFailed && Reads(e, j) && !engine.rowsOk(reached)
                && e.name in reached && reached == tables[e.name := reached[e.name]] && reached[e.name].columns == t.columns
                && |reached[e.name].rows| > |t.rows| && reached[e.name].rows[..|t.rows|] == t.rows
                && RowsOfExport(t.columns, e, k) + reached[e.name].rows[|t.rows|..] == RowsOfExport(t.columns, e, j + 1))
    decreases |e.rows| - k
  {
    hide ImportRow, RowOf, Reads, RowRefused;
    assert k < |e.rows|;
    assert e.rows[k..][0] == e.rows[k] && e.rows[k..][1..] == e.rows[k + 1..];
    var t := tables[e.name];
    if ImportRow(tables, e.name, e.columns, e.rows[k], engine).Failure? {
      j := k;
      reached := OneRowRefused(tables, e, k, engine);
      assert (t.rows + [RowOf(t.columns, e, k)])[|t.rows|..] == [RowOf(t.columns, e, k)];
    } else {
      OneRowAdded(tables, e, k, engine);
      var next := ImportRow(tables, e.name, e.columns, e.rows[k], engine).value;
      j, reached := RowsRefused(next, e, k + 1, engine);
      if !RowRefused(e, j, ImportRows(tables, e.name, e.columns, e.rows[k..], engine).error) {
        OneInFront(t, next[e.name], reached[e.name], e, k, RowsOfExport(t.columns, e, j + 1));
      }
    }
  }

  lemma {:induction false} RowsOfUpto(columns: seq<Column>, e: TableExport, n: nat, k: nat)
    requires k <= n <= |e.rows|
    ensures RowsOfExport(columns, Upto(e, n), k) == RowsOfExport(columns, e, k)
  {
    if k > 0 {
      RowsOfUpto(columns, e, n, k - 1);
      assert RowOf(columns, Upto(e, n), k - 1) == RowOf(columns, e, k - 1);
    }
  }

  // ----- tables ----------------------------------------------------------------------------------------

  lemma ReachedAdds(tables: Tables, reached: Tables, e: TableExport, n: nat)
    requires e.name in tables && n <= |e.rows|
    requires e.name in reached && reached == tables[e.name := reached[e.name]]
    requires var t, r := tables[e.name], reached[e.name];
             r.columns == t.columns && |r.rows| >= |t.rows| && r.rows[..|t.rows|] == t.rows
             && r.rows[|t.rows|..] == RowsOfExport(t.columns, e, n)
    ensures Adds(tables, reached, [Upto(e, n)])
  {
    hide RowsOfExport;
    var cut := Upto(e, n);
    assert [cut][1..] == [];
    forall m | m in tables
      ensures reached[m].columns == tables[m].columns && reached[m].rows == tables[m].rows + RowsFor(tables[m].columns, [cut], m)
    {
      OneExport(tables[m].columns, cut, m);
      if m == e.name {
        RowsOfUpto(tables[m].columns, e, n, n);
        assert reached[m].rows == reached[m].rows[..|tables[m].rows|] + reached[m].rows[|tables[m].rows|..];
      } else {
        assert tables[m].rows + [] == tables[m].rows;
      }
    }
  }

  lemma BadNameOf(names: seq<string>)
    ensures FirstBadName(names).Some? ==> !PlainName(FirstBadName(names).value) && FirstBadName(names).value in names
  {
    hide PlainName;
  }

  lemma OneTableRefused(tables: Tables, e: TableExport, engine: Engine) returns (j: nat, reached: Tables)
    requires ImportTable(tables, e, engine).Failure?
    ensures TableRefused(tables, [], e, j, reached, ImportTable(tables, e, engine).error, engine)
  {
    hide ImportRows, PlainName, RowsOfExport, Adds, Reads;
    j, reached := 0, tables;
    BadNameOf(e.columns);
    if PlainName(e.name) && FirstBadName(e.columns).None? && Prepares(tables, e.name, e.columns) {
      assert e.rows[0..] == e.rows;
      j, reached := RowsRefused(tables, e, 0, engine);
      NoRows(tables[e.name].columns, e);
      if !RowRefused(e, j, ImportTable(tables, e, engine).error) {
        var added := reached[e.name].rows[|tables[e.name].rows|..];
        assert [] + added == added;
        ReachedAdds(tables, reached, e, j + 1);
        assert [] + [Upto(e, j + 1)] == [Upto(e, j + 1)];
      }
    }
  }

  // ----- all tables --------------------------------------------------------------------------------------

  lemma LaterRefusal(tables: Tables, one: Tables, first: TableExport, before: seq<TableExport>, e: TableExport, j: nat,
                     reached: Tables, error: Error, engine: Engine)
    requires Adds(tables, one, [first]) && TableRefused(one, before, e, j, reached, error, engine)
    ensures TableRefused(tables, [first] + before, e, j, reached, error, engine)
  {
    hide RowsFor, RowRefused, Reads, PlainName;
    if j < |e.rows| && Breaks(one, before, e, j, reached, engine) {
      var exports := [first] + before + [Upto(e, j + 1)];
      assert exports[0] == first && exports[1..] == before + [Upto(e, j + 1)];
      AddsMore(tables, one, reached, exports);
      assert [first] + before + [Upto(e, j + 1)] == exports;
    }
    hide Adds, Breaks;
  }

  lemma {:induction false} TablesRefused(tables: Tables, exports: seq<TableExport>, engine: Engine)
    returns (k: nat, j: nat, reached: Tables)
    requires ImportTables(tables, exports, engine).Failure?
    ensures k < |exports| && forall i :: 0 <= i < k ==> Fits(tables, exports[i])
    ensures TableRefused(tables, exports[..k], exports[k], j, reached, ImportTables(tables, exports, engine).error, engine)
    decreases |exports|
  {
    hide ImportTable, TableRefused, Fits, Adds;
    var first := exports[0];
    if ImportTable(tables, first, engine).Failure? {
      k := 0;
      j, reached := OneTableRefused(tables, first, engine);
    } else {
      var one := ImportTable(tables, first, engine).value;
      TableAdded(tables, first, engine);
      k, j, reached := TablesRefused(one, exports[1..], engine);
      var error := ImportTables(tables, exports, engine).error;
      LaterRefusal(tables, one, first, exports[1..][..k], exports[1..][k], j, reached, error, engine);
      assert [first] + exports[1..][..k] == exports[..k + 1] && exports[1..][k] == exports[k + 1];
      forall i | 0 <= i < k + 1
        ensures Fits(tables, exports[i])
      {
        if i > 0 {
          assert exports[1..][i - 1] == exports[i];
          SameFits(tables, one, [first], exports[i]);
        }
      }
      k := k + 1;
    }
  }

  /**
   A refused import fails at the first export that could not be written, with the error for its name,
   its columns, or its first row that is too wide or narrow, unreadable or against the constraints
   behind all the rows before it; or it was written and the references do not hold.
   */
  lemma ImportRefused(tables: Tables, exports: seq<TableExport>, engine: Engine) returns (k: nat, j: nat, reached: Tables)
    requires Imported(tables, exports, engine).Failure?
    ensures k <= |exports| && forall i :: 0 <= i < k ==> Fits(tables, exports[i])
    ensures var error := Imported(tables, exports, engine).error;
            if k < |exports| then TableRefused(tables, exports[..k], exports[k], j, reached, error, engine)
            else Adds(tables, reached, exports) && !engine.referencesOk(reached) && error == ConstraintFailed
  {
    hide ImportTables, TableRefused, Fits, Adds;
    if ImportTables(tables, exports, engine).Failure? {
      k, j, reached := TablesRefused(tables, exports, engine);
    } else {
      TablesAdded(tables, exports, engine);
      assert forall i :: 0 <= i < |exports| ==> exports[i] in exports;
      k, j, reached := |exports|, 0, ImportTables(tables, exports, engine).value;
    }
  }

  // ----- the restore ---------------------------------------------------------------------------------------

  lemma {:induction false} MigrationsFail(db: Database, ms: seq<Migration>)
    ensures var error := ApplyNewer(db, ms).error; error.Some? ==> error.value.MigrationFailed?
    decreases |ms|
  {
    if ms != [] {
      if ms[0].version <= db.version {
        MigrationsFail(db, ms[1..]);
      } else {
        match ms[0].apply(db.tables)
        case None =>
        case Some(tables) => MigrationsFail(Database(ms[0].version, tables), ms[1..]);
      }
    }
  }

  lemma ImportsFail(tables: Tables, exports: seq<TableExport>, engine: Engine)
    ensures Imported(tables, exports, engine).Failure? ==> !Imported(tables, exports, engine).error.UnknownSchema?
  {
    hide Imported, Adds, Breaks, Reads, PlainName, Fits;
    if Imported(tables, exports, engine).Failure? {
      var k, j, reached := ImportRefused(tables, exports, engine);
    }
  }

  /**
   A payload is unknown exactly if no migration has its version, and then nothing is built. Any other
   restore builds the schema of that version first; if the import is refused, that is all it leaves.
   */
  lemma RestoreCases(p: Payload, ms: seq<Migration>, engine: Engine)
    requires Increasing(ms)
    ensures var r := Restored(EMPTY, p, ms, engine);
            && (r.error == Some(UnknownSchema(p.schemaVersion)) <==> forall m :: m in ms ==> m.version != p.schemaVersion)
            && ((forall m :: m in ms ==> m.version != p.schemaVersion) ==> r.db == EMPTY)
            && forall k :: 0 <= k < |ms| && ms[k].version == p.schemaVersion ==>
                 var built := ApplyNewer(EMPTY, ms[..k + 1]);
                 if built.error.Some? then r == built
                 else var imported := Imported(built.db.tables, p.tables, engine);
                      imported.Failure? ==> r == Outcome(built.db, Some(imported.error))
  {
    hide ApplyNewer, Imported;
    var r := Restored(EMPTY, p, ms, engine);
    var found := VersionIndex(ms, p.schemaVersion);
    if found.Some? {
      var k := found.value;
      assert ms[k] in ms;
      assert LastVersion(ms[..k + 1]) == ms[k].version;
      MigrationsFail(EMPTY, ms[..k + 1]);
      var built := ApplyNewer(EMPTY, ms[..k + 1]);
      if built.error.None? {
        ImportsFail(built.db.tables, p.tables, engine);
        var imported := Imported(built.db.tables, p.tables, engine);
        if imported.Success? {
          MigrationsFail(Database(built.db.version, imported.value), ms);
        }
      }
    }
  }
}
