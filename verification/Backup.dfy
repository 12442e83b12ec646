/**
 Collecting a backup: every user table, read inside one snapshot while others commit, then
 checked for credentials whose project is missing.
 */
module Backup {
  import opened Wrappers
  import opened BackupCells
  import Sql

  /** A column, with the value it takes when an insert does not name it. */
  datatype Column = Column(name: string, standard: Value)

  type Row = seq<Value>

  datatype Table = Table(columns: seq<Column>, rows: seq<Row>)

  type Tables = map<string, Table>

  datatype Database = Database(version: int, tables: Tables)

  datatype TableExport = TableExport(name: string, columns: seq<string>, rows: seq<seq<Cell>>)

  datatype Payload = Payload(schemaVersion: int, tables: seq<TableExport>)

  function Names(columns: seq<Column>): (names: seq<string>)
    ensures |names| == |columns| && forall i :: 0 <= i < |columns| ==> names[i] == columns[i].name
  {
    seq(|columns|, i requires 0 <= i < |columns| => columns[i].name)
  }

  /** Rows have a value for every column, and no two columns share a name. */
  ghost predicate WellFormed(t: Table) {
    && (forall i :: 0 <= i < |t.rows| ==> |t.rows[i]| == |t.columns|)
    && (forall i, j :: 0 <= i < j < |t.columns| ==> t.columns[i].name != t.columns[j].name)
  }

  // ----- which tables, in which order --------------------------------------------------------------

  /** Tables the listing leaves out: the pattern's underscore stands for any character. */
  predicate Hidden(name: string) {
    Sql.Like(name, "sqlite_%")
  }

  predicate Before(a: string, b: string) {
    b != "" && (a == "" || a[0] < b[0] || (a[0] == b[0] && Before(a[1..], b[1..])))
  }

  lemma {:induction false} BeforeIsTotal(a: string, b: string)
    ensures Before(a, b) || Before(b, a) || a == b
    ensures !(Before(a, b) && Before(b, a))
  {
    if a != "" && b != "" {
      BeforeIsTotal(a[1..], b[1..]);
      assert a == [a[0]] + a[1..] && b == [b[0]] + b[1..];
    }
  }

  lemma {:induction false} BeforeIsTransitive(a: string, b: string, c: string)
    requires Before(a, b) && Before(b, c)
    ensures Before(a, c)
  {
    if a != "" && a[0] == b[0] == c[0] {
      BeforeIsTransitive(a[1..], b[1..], c[1..]);
    }
  }

  /** Up to character `k` the names agree, and there the first one ends or has the lesser character. */
  predicate LessAt(a: string, b: string, k: nat) {
    k < |b| && k <= |a| && a[..k] == b[..k] && (k == |a| || a[k] < b[k])
  }

  lemma LessAtNext(a: string, b: string, k: nat)
    requires a != "" && b != "" && a[0] == b[0]
    ensures LessAt(a[1..], b[1..], k) <==> LessAt(a, b, k + 1)
  {
    if k < |a| && k < |b| {
      assert a[..k + 1] == [a[0]] + a[1..][..k] && b[..k + 1] == [b[0]] + b[1..][..k];
      assert a[..k + 1][1..] == a[1..][..k] && b[..k + 1][1..] == b[1..][..k];
    }
  }

  lemma SameStart(a: string, b: string, k: nat)
    requires LessAt(a, b, k)
    ensures k > 0 ==> a != "" && a[0] == b[0]
  {
    if k > 0 {
      assert a[0] == a[..k][0] && b[0] == b[..k][0];
    }
  }

  /** One name is before another where it ends first, or has the lesser of the first two characters that differ. */
  lemma {:induction false} BeforeMeans(a: string, b: string)
    ensures Before(a, b) <==> exists k: nat :: LessAt(a, b, k)
  {
    if b != "" {
      assert LessAt(a, b, 0) <==> a == "" || a[0] < b[0];
      if a != "" && a[0] == b[0] {
        BeforeMeans(a[1..], b[1..]);
        if k: nat :| LessAt(a[1..], b[1..], k) {
          LessAtNext(a, b, k);
        }
      }
      forall k: nat | LessAt(a, b, k) && k > 0
        ensures a != "" && a[0] == b[0] && LessAt(a[1..], b[1..], k - 1)
      {
        SameStart(a, b, k);
        LessAtNext(a, b, k - 1);
      }
    }
  }

  /** The visible tables in the order of their names. */
  ghost predicate IsListing(names: seq<string>, tables: Tables) {
    && (forall n :: n in names <==> n in tables && !Hidden(n))
    && (forall i, j :: 0 <= i < j < |names| ==> Before(names[i], names[j]))
  }

  lemma HasMember(names: seq<string>)
    requires names != []
    ensures exists n :: n in names
  {
    assert names[0] in names;
  }

  lemma {:induction false} SortedIsUnique(a: seq<string>, b: seq<string>)
    requires forall i, j :: 0 <= i < j < |a| ==> Before(a[i], a[j])
    requires forall i, j :: 0 <= i < j < |b| ==> Before(b[i], b[j])
    requires forall n :: n in a <==> n in b
    ensures a == b
  {
    if a == [] || b == [] {
      if a != [] {
        HasMember(a);
      }
      if b != [] {
        HasMember(b);
      }
    } else {
      assert a[0] in b && b[0] in a;
      var i :| 0 <= i < |b| && b[i] == a[0];
      var j :| 0 <= j < |a| && a[j] == b[0];
      BeforeIsTotal(a[0], b[0]);
      BeforeIsTotal(a[0], a[0]);
      assert a[0] == b[0];
      forall n
        ensures n in a[1..] <==> n in b[1..]
      {
        if n in a[1..] {
          BeforeIsTotal(n, n);
          assert n in a;
        }
        if n in b[1..] {
          BeforeIsTotal(n, n);
          assert n in b;
        }
        assert a == [a[0]] + a[1..] && b == [b[0]] + b[1..];
      }
      SortedIsUnique(a[1..], b[1..]);
    }
  }

  /** A database determines its listing. */
  lemma ListingIsUnique(a: seq<string>, b: seq<string>, tables: Tables)
    requires IsListing(a, tables) && IsListing(b, tables)
    ensures a == b
  {
    SortedIsUnique(a, b);
  }

  method InsertName(names: seq<string>, name: string) returns (r: seq<string>)
    requires forall i, j :: 0 <= i < j < |names| ==> Before(names[i], names[j])
    requires name !in names
    ensures forall i, j :: 0 <= i < j < |r| ==> Before(r[i], r[j])
    ensures forall n :: n in r <==> n in names || n == name
  {
    var k := 0;
    while k < |names| && Before(names[k], name)
      invariant 0 <= k <= |names|
      invariant forall i :: 0 <= i < k ==> Before(names[i], name)
    {
      k := k + 1;
    }
    forall i | k <= i < |names|
      ensures Before(name, names[i])
    {
      BeforeIsTotal(name, names[k]);
      if k < i {
        BeforeIsTransitive(name, names[k], names[i]);
      }
    }
    r := names[..k] + [name] + names[k..];
    assert names == names[..k] + names[k..];
  }

  method TableNames(tables: Tables) returns (names: seq<string>)
    ensures IsListing(names, tables)
  {
    names := [];
    var left := tables.Keys;
    while left != {}
      invariant left <= tables.Keys
      invariant forall n :: n in names <==> n in tables && n !in left && !Hidden(n)
      invariant forall i, j :: 0 <= i < j < |names| ==> Before(names[i], names[j])
      decreases left
    {
      hide Hidden, Before;
      var name :| name in left;
      left := left - {name};
      if !Hidden(name) {
        names := InsertName(names, name);
      }
    }
  }

  // ----- one table ------------------------------------------------------------------------------------

  ghost predicate RowExported(row: Row, cells: seq<Cell>) {
    |cells| == |row| && forall j :: 0 <= j < |row| ==> FromValue(row[j]) == Success(cells[j])
  }

  ghost predicate TableExported(name: string, t: Table, e: TableExport) {
    && e.name == name && e.columns == Names(t.columns) && |e.rows| == |t.rows|
    && forall i :: 0 <= i < |t.rows| ==> RowExported(t.rows[i], e.rows[i])
  }

  predicate Readable(row: Row) {
    forall j :: 0 <= j < |row| ==> FromValue(row[j]).Success?
  }

  predicate Exportable(name: string, t: Table) {
    PlainName(name) && forall i :: 0 <= i < |t.rows| ==> Readable(t.rows[i])
  }

  method ExportRow(row: Row) returns (r: Result<seq<Cell>, Error>)
    ensures if Readable(row) then r.Success? && RowExported(row, r.value) else r == Failure(NonUtf8Text)
  {
    var cells: seq<Cell> := [];
    var j := 0;
    while j < |row|
      invariant 0 <= j <= |row| && |cells| == j
      invariant forall k :: 0 <= k < j ==> FromValue(row[k]) == Success(cells[k])
    {
      var cell := FromValue(row[j]);
      if cell.Failure? {
        return Failure(cell.error);
      }
      cells := cells + [cell.value];
      j := j + 1;
    }
    r := Success(cells);
  }

  method ExportTable(name: string, t: Table) returns (r: Result<TableExport, Error>)
    ensures r.Success? <==> Exportable(name, t)
    ensures r.Success? ==> TableExported(name, t, r.value)
    ensures r.Failure? ==> r.error == if PlainName(name) then NonUtf8Text else InvalidIdentifier(name)
  {
    if !PlainName(name) {
      return Failure(InvalidIdentifier(name));
    }
    var rows: seq<seq<Cell>> := [];
    var i := 0;
    hide Readable, RowExported;
    while i < |t.rows|
      invariant 0 <= i <= |t.rows| && |rows| == i
      invariant forall k :: 0 <= k < i ==> Readable(t.rows[k]) && RowExported(t.rows[k], rows[k])
    {
      var cells := ExportRow(t.rows[i]);
      if cells.Failure? {
        return Failure(cells.error);
      }
      rows := rows + [cells.value];
      i := i + 1;
    }
    r := Success(TableExport(name, Names(t.columns), rows));
  }

  // ----- credentials without a project -----------------------------------------------------------------

  function Find(tables: seq<TableExport>, name: string): Option<TableExport> {
    if tables == [] then None
    else if tables[0].name == name then Some(tables[0])
    else Find(tables[1..], name)
  }

  function Position(names: seq<string>, name: string): (k: Option<nat>)
    ensures match k
            case Some(i) => i < |names| && names[i] == name && forall j :: 0 <= j < i ==> names[j] != name
            case None => name !in names
  {
    if names == [] then None
    else if names[0] == name then Some(0)
    else
      var k := Position(names[1..], name);
      if k.Some? then Some(k.value + 1) else None
  }

  /** Some row has this text in the column; rows may be too short to have the column. */
  predicate Holds(rows: seq<seq<Cell>>, column: nat, text: Utf8) {
    exists i :: 0 <= i < |rows| && column < |rows[i]| && rows[i][column] == TextCell(text)
  }

  predicate References(credentials: seq<seq<Cell>>, projectColumn: nat, projects: seq<seq<Cell>>, idColumn: nat) {
    forall i :: 0 <= i < |credentials| && projectColumn < |credentials[i]| && credentials[i][projectColumn].TextCell? ==>
      Holds(projects, idColumn, credentials[i][projectColumn].text)
  }

  /** Where both tables and both columns are there, every text project id names a project. */
  predicate Consistent(p: Payload) {
    var projects, credentials := Find(p.tables, "projects"), Find(p.tables, "credentials");
    projects.Some? && credentials.Some? ==>
      var id, project := Position(projects.value.columns, "id"), Position(credentials.value.columns, "project_id");
      id.Some? && project.Some? ==>
        References(credentials.value.rows, project.value, projects.value.rows, id.value)
  }

  method FindTable(tables: seq<TableExport>, name: string) returns (found: Option<TableExport>)
    ensures found == Find(tables, name)
  {
    var i := 0;
    while i < |tables|
      invariant 0 <= i <= |tables|
      invariant Find(tables, name) == Find(tables[i..], name)
    {
      if tables[i].name == name {
        return Some(tables[i]);
      }
      i := i + 1;
    }
    found := None;
  }

  method TextsIn(rows: seq<seq<Cell>>, column: nat) returns (texts: set<Utf8>)
    ensures forall t: Utf8 :: t in texts <==> Holds(rows, column, t)
  {
    texts := {};
    var i := 0;
    while i < |rows|
      invariant 0 <= i <= |rows|
      invariant forall t: Utf8 :: t in texts <==> Holds(rows[..i], column, t)
    {
      HoldsMore(rows, column, i);
      hide Holds;
      if column < |rows[i]| && rows[i][column].TextCell? {
        texts := texts + {rows[i][column].text};
      }
      i := i + 1;
    }
    assert rows[..i] == rows;
  }

  lemma HoldsMore(rows: seq<seq<Cell>>, column: nat, i: nat)
    requires i < |rows|
    ensures forall t: Utf8 :: Holds(rows[..i + 1], column, t) <==>
                          Holds(rows[..i], column, t) || (column < |rows[i]| && rows[i][column] == TextCell(t))
  {
    forall t: Utf8
      ensures Holds(rows[..i + 1], column, t) <==>
                Holds(rows[..i], column, t) || (column < |rows[i]| && rows[i][column] == TextCell(t))
    {
      var more, less := rows[..i + 1], rows[..i];
      if Holds(less, column, t) {
        var k :| 0 <= k < |less| && column < |less[k]| && less[k][column] == TextCell(t);
        assert more[k] == less[k];
      }
      if Holds(more, column, t) {
        var k :| 0 <= k < |more| && column < |more[k]| && more[k][column] == TextCell(t);
        assert k < i ==> less[k] == more[k];
      }
      assert more[i] == rows[i];
    }
  }

  method AssertPayloadConsistent(p: Payload) returns (r: Result<(), Error>)
    ensures r == if Consistent(p) then Success(()) else Failure(Inconsistent)
  {
    var projects := FindTable(p.tables, "projects");
    var credentials := FindTable(p.tables, "credentials");
    if projects.None? || credentials.None? {
      return Success(());
    }
    var id := Position(projects.value.columns, "id");
    var project := Position(credentials.value.columns, "project_id");
    if id.None? || project.None? {
      return Success(());
    }
    var ids := TextsIn(projects.value.rows, id.value);
    var rows: seq<seq<Cell>> := credentials.value.rows;
    hide Holds;
    var i := 0;
    while i < |rows|
      invariant 0 <= i <= |rows|
      invariant forall k :: 0 <= k < i && project.value < |rows[k]| && rows[k][project.value].TextCell? ==>
                              rows[k][project.value].text in ids
    {
      if project.value < |rows[i]| && rows[i][project.value].TextCell? && rows[i][project.value].text !in ids {
        return Failure(Inconsistent);
      }
      i := i + 1;
    }
    r := Success(());
  }

  // ----- the whole collection ------------------------------------------------------------------------------

  /** A payload holding the visible tables of one database state. */
  ghost predicate Exports(db: Database, p: Payload) {
    && p.schemaVersion == db.version
    && (forall i, j :: 0 <= i < j < |p.tables| ==> Before(p.tables[i].name, p.tables[j].name))
    && (forall i :: 0 <= i < |p.tables| ==>
          p.tables[i].name in db.tables && TableExported(p.tables[i].name, db.tables[p.tables[i].name], p.tables[i]))
    && (forall n :: n in db.tables && !Hidden(n) <==> exists i :: 0 <= i < |p.tables| && p.tables[i].name == n)
  }

  ghost predicate AllExportable(db: Database) {
    forall n :: n in db.tables && !Hidden(n) ==> Exportable(n, db.tables[n])
  }

  /** The first `k` tables could be exported; the next one could not, or they are all there are. */
  ghost predicate Collected(db: Database, names: seq<string>, k: nat, r: Result<Payload, Error>) {
    && IsListing(names, db.tables) && k <= |names|
    && (forall i :: 0 <= i < k ==> Exportable(names[i], db.tables[names[i]]))
    && if k < |names| then
         && !Exportable(names[k], db.tables[names[k]])
         && r == Failure(if PlainName(names[k]) then NonUtf8Text else InvalidIdentifier(names[k]))
       else
         exists p :: Exports(db, p) && r == if Consistent(p) then Success(p) else Failure(Inconsistent)
  }

  type Writer = (string, Database) -> Database

  /** The committed state once writers have run after each table was read. */
  function AfterWriters(db: Database, names: seq<string>, writer: Writer): Database {
    if names == [] then db
    else
      var n := |names| - 1;
      writer(names[n], AfterWriters(db, names[..n], writer))
  }

  lemma WritersMore(db: Database, names: seq<string>, i: nat, writer: Writer)
    requires i < |names|
    ensures AfterWriters(db, names[..i + 1], writer) == writer(names[i], AfterWriters(db, names[..i], writer))
  {
    assert names[..i + 1][..i] == names[..i];
  }

  lemma ListingExported(db: Database, names: seq<string>, tables: seq<TableExport>)
    requires IsListing(names, db.tables) && |tables| == |names|
    requires forall k :: 0 <= k < |names| ==> TableExported(names[k], db.tables[names[k]], tables[k])
    ensures Exports(db, Payload(db.version, tables))
  {
    hide Before, Hidden;
    forall n | n in db.tables && !Hidden(n)
      ensures exists i :: 0 <= i < |tables| && tables[i].name == n
    {
      assert n in names;
      var i :| 0 <= i < |names| && names[i] == n;
      assert tables[i].name == n;
    }
    forall i | 0 <= i < |tables|
      ensures tables[i].name == names[i] && names[i] in db.tables && !Hidden(names[i])
    {
      assert names[i] in names;
    }
  }

  lemma StoppedAt(db: Database, names: seq<string>, tables: seq<TableExport>, k: nat)
    requires IsListing(names, db.tables) && ReadSoFar(db, names, tables) && k == |tables| < |names| && names[k] in db.tables
    requires !Exportable(names[k], db.tables[names[k]])
    ensures Collected(db, names, k, Failure(if PlainName(names[k]) then NonUtf8Text else InvalidIdentifier(names[k])))
  {
    hide IsListing, Exportable, TableExported;
  }

  /** The first tables of the listing have been read. */
  ghost predicate ReadSoFar(db: Database, names: seq<string>, tables: seq<TableExport>) {
    |tables| <= |names|
    && forall k :: 0 <= k < |tables| ==>
         && names[k] in db.tables && Exportable(names[k], db.tables[names[k]])
         && TableExported(names[k], db.tables[names[k]], tables[k])
  }

  lemma ReadMore(db: Database, names: seq<string>, tables: seq<TableExport>, e: TableExport)
    requires ReadSoFar(db, names, tables) && |tables| < |names| && names[|tables|] in db.tables
    requires Exportable(names[|tables|], db.tables[names[|tables|]])
    requires TableExported(names[|tables|], db.tables[names[|tables|]], e)
    ensures ReadSoFar(db, names, tables + [e])
  {
    hide Exportable, TableExported;
  }

  lemma ReadAll(db: Database, names: seq<string>, tables: seq<TableExport>)
    requires IsListing(names, db.tables) && |tables| == |names| && ReadSoFar(db, names, tables)
    ensures var p := Payload(db.version, tables);
            Collected(db, names, |names|, if Consistent(p) then Success(p) else Failure(Inconsistent))
  {
    ListingExported(db, names, tables);
    hide IsListing, Exportable, Consistent, Exports, TableExported;
  }

  lemma ListedTables(names: seq<string>, tables: Tables)
    requires IsListing(names, tables)
    ensures forall k :: 0 <= k < |names| ==> names[k] in tables
  {
    hide Hidden, Before;
  }

  /** A connection: inside a transaction every read sees the state its first read saw. */
  class Vault {
    var committed: Database
    var reading: bool
    var snapshot: Option<Database>

    constructor (db: Database)
      ensures committed == db && !reading
    {
      committed, reading, snapshot := db, false, None;
    }

    /** What a read sees now. */
    function Visible(): Database
      reads this
    {
      if reading && snapshot.Some? then snapshot.value else committed
    }

    /** Begin a transaction; the state it reads is not fixed yet. */
    method Begin()
      modifies this`reading, this`snapshot
      ensures reading && snapshot == None
    {
      reading, snapshot := true, None;
    }

    method End()
      modifies this`reading, this`snapshot
      ensures !reading
    {
      reading, snapshot := false, None;
    }

    /** Every read goes through here; the first one in a transaction fixes the state for the rest. */
    method Read() returns (db: Database)
      modifies this`snapshot
      ensures db == old(Visible()) == Visible()
      ensures reading ==> snapshot == Some(db)
    {
      if !reading {
        return committed;
      }
      if snapshot.None? {
        snapshot := Some(committed);
      }
      db := snapshot.value;
    }

    /**
     Collect every visible table while `writer` commits after each. The payload is the state at
     the start, whatever is committed meanwhile; the writers are not held up.
     */
    method Collect(writer: Writer) returns (r: Result<Payload, Error>)
      requires !reading
      modifies this
      ensures !reading
      ensures exists names, k ::
                Collected(old(committed), names, k, r) && committed == AfterWriters(old(committed), names[..k], writer)
    {
      Begin();
      var db := Read();
      var version := db.version;
      ghost var start := db;
      db := Read();
      var names := TableNames(db.tables);
      var tables: seq<TableExport> := [];
      var i := 0;
      NoWriters(start, names, writer);
      ListedTables(names, start.tables);
      assert ReadSoFar(start, names, tables);
      hide IsListing, Exportable, TableExported, AfterWriters, Consistent, Collected, ReadSoFar;
      while i < |names|
        invariant 0 <= i <= |names| && |tables| == i
        invariant reading && snapshot == Some(start)
        invariant ReadSoFar(start, names, tables)
        invariant committed == AfterWriters(start, names[..i], writer)
      {
        db := Read();
        var table := ExportTable(names[i], db.tables[names[i]]);
        if table.Failure? {
          StoppedAt(start, names, tables, i);
          End();
          return Failure(table.error);
        }
        WritersMore(start, names, i, writer);
        committed := writer(names[i], committed);
        ReadMore(start, names, tables, table.value);
        tables := tables + [table.value];
        i := i + 1;
      }
      End();
      ReadAll(start, names, tables);
      var p := Payload(version, tables);
      var check := AssertPayloadConsistent(p);
      r := if check.Failure? then Failure(check.error) else Success(p);
    }
  }

  lemma NoWriters(db: Database, names: seq<string>, writer: Writer)
    ensures AfterWriters(db, names[..0], writer) == db
  {
  }
}
