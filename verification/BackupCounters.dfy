/**
 Automatic row ids. The database keeps, outside the tables a backup lists, the highest id it ever
 gave out for a table; a restore rebuilds it from the ids of the rows it inserts.
 */
module BackupCounters {
  import opened Backup
  import opened BackupCells

  /** The counter after rows with these ids are inserted in turn: it never falls. */
  function Raised(counter: int, ids: seq<int>): int {
    if ids == [] then counter
    else
      var before := Raised(counter, ids[..|ids| - 1]);
      var id := ids[|ids| - 1];
      if before < id then id else before
  }

  lemma {:induction false} RaisedIsHighest(counter: int, ids: seq<int>)
    ensures counter <= Raised(counter, ids) && forall id :: id in ids ==> id <= Raised(counter, ids)
    ensures Raised(counter, ids) == counter || Raised(counter, ids) in ids
  {
    if ids != [] {
      var n := |ids| - 1;
      RaisedIsHighest(counter, ids[..n]);
      assert ids == ids[..n] + [ids[n]];
    }
  }

  /** The ids a table holds in one of its columns. */
  function IdsOf(rows: seq<Row>, column: nat): seq<int> {
    if rows == [] then []
    else
      var n := |rows| - 1;
      IdsOf(rows[..n], column) + if column < |rows[n]| && rows[n][column].Integer? then [rows[n][column].i] else []
  }

  lemma {:induction false} IdsOfHolds(rows: seq<Row>, column: nat, id: int)
    ensures id in IdsOf(rows, column) <==> exists i :: 0 <= i < |rows| && column < |rows[i]| && rows[i][column] == Integer(id)
  {
    if rows != [] {
      var n := |rows| - 1;
      IdsOfHolds(rows[..n], column, id);
      if i :| 0 <= i < |rows| && column < |rows[i]| && rows[i][column] == Integer(id) {
        assert i < n ==> rows[..n][i] == rows[i];
      }
    }
  }

  /** A live table's counter: no row has a higher id, nor an id below one. */
  predicate Counts(counter: int, ids: seq<int>) {
    0 <= counter && forall i :: 0 <= i < |ids| ==> 1 <= ids[i] <= counter
  }

  /** A restored table never counts further than the original, and as far only while its newest row was kept. */
  lemma RestoredCounter(counter: int, rows: seq<Row>, column: nat)
    requires Counts(counter, IdsOf(rows, column))
    ensures Raised(0, IdsOf(rows, column)) <= counter
    ensures Raised(0, IdsOf(rows, column)) == counter <==> counter == 0 || counter in IdsOf(rows, column)
  {
    RaisedIsHighest(0, IdsOf(rows, column));
  }

  /**
   The next id of a restored table had been given out before if and only if the row with the
   highest id ever given had been deleted.
   */
  lemma ReusesIdExactly(counter: int, rows: seq<Row>, column: nat)
    requires Counts(counter, IdsOf(rows, column))
    ensures Raised(0, IdsOf(rows, column)) + 1 <= counter <==> counter > 0 && counter !in IdsOf(rows, column)
  {
    RestoredCounter(counter, rows, column);
    RaisedIsHighest(0, IdsOf(rows, column));
  }
}
