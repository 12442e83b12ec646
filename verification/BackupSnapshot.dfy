/** Why one snapshot is enough for a backup to be consistent, and why one is needed. */
module BackupSnapshot {
  import opened Wrappers
  import opened BackupCells
  import opened Backup

  /** Every credential's text project id is the id of a project, where the schema has both. */
  ghost predicate CredentialsHaveProjects(tables: Tables) {
    "projects" in tables && "credentials" in tables ==>
      var id, project := Position(Names(tables["projects"].columns), "id"), Position(Names(tables["credentials"].columns), "project_id");
      id.Some? && project.Some? ==>
        RowsRefer(tables["credentials"].rows, project.value, tables["projects"].rows, id.value)
  }

  ghost predicate RowsRefer(credentials: seq<Row>, project: nat, projects: seq<Row>, id: nat) {
    forall i :: 0 <= i < |credentials| && project < |credentials[i]| && credentials[i][project].Text? ==>
      HasText(projects, id, credentials[i][project].bytes)
  }

  ghost predicate HasText(rows: seq<Row>, column: nat, text: seq<int>) {
    exists j :: 0 <= j < |rows| && column < |rows[j]| && rows[j][column].Text? && rows[j][column].bytes == text
  }

  /** A table is left out if and only if its name begins with `sqlite`, in either case, and goes on. */
  lemma LeftOutExactly(name: string)
    ensures Hidden(name) <==>
              |name| > 6 && forall i :: 0 <= i < 6 ==> name[i] == "sqlite"[i] || name[i] == "SQLITE"[i]
  {
    Sql.LikeOpens(name, "sqlite_");
    assert "sqlite_" + "%" == "sqlite_%";
    if |name| > 6 {
      Sql.LikeByCharacter(name[..7], "sqlite_");
    }
    forall k | 0 <= k <= |name|
      ensures Sql.Like(name[..k], "sqlite_") ==> k == 7
    {
      Sql.LikeByCharacter(name[..k], "sqlite_");
    }
    hide Sql.Like;
    if |name| > 6 {
      InEitherCase(name);
    }
  }

  lemma InEitherCase(name: string)
    requires |name| > 6
    ensures (forall i :: 0 <= i < 7 ==> "sqlite_"[i] == '_' || Sql.Lower(name[..7][i]) == Sql.Lower("sqlite_"[i])) <==>
            forall i :: 0 <= i < 6 ==> name[i] == "sqlite"[i] || name[i] == "SQLITE"[i]
  {
    forall i | 0 <= i < 6
      ensures Sql.Lower(name[..7][i]) == Sql.Lower("sqlite_"[i]) <==> name[i] == "sqlite"[i] || name[i] == "SQLITE"[i]
    {
      assert name[..7][i] == name[i] && "sqlite_"[i] == "sqlite"[i];
      var c := "sqlite"[i];
      assert 'a' <= c <= 'z' && "SQLITE"[i] == c - 'a' + 'A';
    }
  }

  /** Every other table is in the payload, row by row, and none besides. */
  lemma OthersAreExported(db: Database, p: Payload, name: string)
    requires Exports(db, p)
    ensures (exists i :: 0 <= i < |p.tables| && p.tables[i].name == name) <==>
              name in db.tables && !(|name| > 6 && forall i :: 0 <= i < 6 ==> name[i] == "sqlite"[i] || name[i] == "SQLITE"[i])
    ensures forall i :: 0 <= i < |p.tables| && p.tables[i].name == name ==> |p.tables[i].rows| == |db.tables[name].rows|
  {
    LeftOutExactly(name);
    hide Hidden;
  }

  /** A table can be exported if and only if its name is of letters, digits and underscores, and its texts are UTF-8. */
  lemma ExportableExactly(name: string, t: Table)
    ensures Exportable(name, t) <==>
              && name != ""
              && (forall i :: 0 <= i < |name| ==>
                    'a' <= name[i] <= 'z' || 'A' <= name[i] <= 'Z' || '0' <= name[i] <= '9' || name[i] == '_')
              && forall i, j :: 0 <= i < |t.rows| && 0 <= j < |t.rows[i]| && t.rows[i][j].Text? ==> ValidUtf8(t.rows[i][j].bytes)
  {
    hide ValidUtf8;
  }

  lemma VisibleNames()
    ensures !Hidden("projects") && !Hidden("credentials")
  {
  }

  lemma {:induction false} FindIs(tables: seq<TableExport>, name: string, k: nat)
    requires k < |tables| && tables[k].name == name && forall j :: 0 <= j < k ==> tables[j].name != name
    ensures Find(tables, name) == Some(tables[k])
  {
    if k > 0 {
      FindIs(tables[1..], name, k - 1);
    }
  }

  lemma {:induction false} FindNone(tables: seq<TableExport>, name: string)
    requires forall k :: 0 <= k < |tables| ==> tables[k].name != name
    ensures Find(tables, name) == None
  {
    if tables != [] {
      FindNone(tables[1..], name);
    }
  }

  /** A payload finds a visible table exactly when the state has it. */
  lemma FindExported(db: Database, p: Payload, name: string)
    requires Exports(db, p) && !Hidden(name)
    ensures Find(p.tables, name).Some? <==> name in db.tables
    ensures name in db.tables ==> TableExported(name, db.tables[name], Find(p.tables, name).value)
  {
    hide Hidden, TableExported;
    if name in db.tables {
      var k :| 0 <= k < |p.tables| && p.tables[k].name == name;
      forall j | 0 <= j < k
        ensures p.tables[j].name != name
      {
        BeforeIsTotal(name, name);
      }
      FindIs(p.tables, name, k);
    } else {
      FindNone(p.tables, name);
    }
  }

  lemma HoldsIsHasText(rows: seq<Row>, cells: seq<seq<Cell>>, column: nat, text: Utf8)
    requires |cells| == |rows| && forall i :: 0 <= i < |rows| ==> RowExported(rows[i], cells[i])
    ensures Holds(cells, column, text) <==> HasText(rows, column, text)
  {
    hide ValidUtf8;
    if Holds(cells, column, text) {
      var i :| 0 <= i < |cells| && column < |cells[i]| && cells[i][column] == TextCell(text);
      assert RowExported(rows[i], cells[i]);
      assert FromValue(rows[i][column]) == Success(TextCell(text));
    }
    if HasText(rows, column, text) {
      var i :| 0 <= i < |rows| && column < |rows[i]| && rows[i][column].Text? && rows[i][column].bytes == text;
      assert RowExported(rows[i], cells[i]);
      assert FromValue(rows[i][column]) == Success(cells[i][column]);
    }
  }

  lemma ReferencesMean(credentials: seq<Row>, c: seq<seq<Cell>>, project: nat, projects: seq<Row>, p: seq<seq<Cell>>, id: nat)
    requires |c| == |credentials| && forall i :: 0 <= i < |c| ==> RowExported(credentials[i], c[i])
    requires |p| == |projects| && forall i :: 0 <= i < |p| ==> RowExported(projects[i], p[i])
    ensures References(c, project, p, id) <==> RowsRefer(credentials, project, projects, id)
  {
    forall i | 0 <= i < |c| && project < |c[i]|
      ensures c[i][project].TextCell? <==> credentials[i][project].Text?
      ensures c[i][project].TextCell? ==> c[i][project].text == credentials[i][project].bytes
      ensures c[i][project].TextCell? ==>
                (Holds(p, id, c[i][project].text) <==> HasText(projects, id, credentials[i][project].bytes))
    {
      assert RowExported(credentials[i], c[i]);
      assert FromValue(credentials[i][project]) == Success(c[i][project]);
      if c[i][project].TextCell? {
        HoldsIsHasText(projects, p, id, c[i][project].text);
      }
    }
    hide Holds, HasText;
    assert forall i :: 0 <= i < |c| ==> |c[i]| == |credentials[i]|;
  }

  /** A payload of one state passes the check exactly when that state keeps the reference. */
  lemma SnapshotIsConsistent(db: Database, p: Payload)
    requires Exports(db, p)
    ensures Consistent(p) <==> CredentialsHaveProjects(db.tables)
  {
    VisibleNames();
    hide Hidden, Exports;
    FindExported(db, p, "projects");
    FindExported(db, p, "credentials");
    if "projects" in db.tables && "credentials" in db.tables {
      var projects, credentials := Find(p.tables, "projects").value, Find(p.tables, "credentials").value;
      var id, project := Position(projects.columns, "id"), Position(credentials.columns, "project_id");
      if id.Some? && project.Some? {
        ReferencesMean(db.tables["credentials"].rows, credentials.rows, project.value,
                       db.tables["projects"].rows, projects.rows, id.value);
      }
    }
  }

  /**
   Whatever is committed during the collection, a database that keeps the reference is never
   refused as inconsistent.
   */
  lemma NeverInconsistent(db: Database, names: seq<string>, k: nat, r: Result<Payload, Error>)
    requires Collected(db, names, k, r) && CredentialsHaveProjects(db.tables)
    ensures r != Failure(Inconsistent)
    ensures r.Success? <==> forall n :: n in db.tables && !Hidden(n) ==> Exportable(n, db.tables[n])
  {
    hide Hidden, Before, Exportable, Consistent, CredentialsHaveProjects;
    if k == |names| {
      var p :| Exports(db, p) && r == if Consistent(p) then Success(p) else Failure(Inconsistent);
      SnapshotIsConsistent(db, p);
      assert forall n :: n in db.tables && !Hidden(n) ==> n in names;
    } else {
      assert names[k] in names;
    }
  }

  // ----- without a snapshot ----------------------------------------------------------------------------

  /** Each table as some state had it: what reading without a snapshot could return. */
  ghost predicate Torn(states: seq<Database>, p: Payload) {
    && |states| == |p.tables|
    && forall i :: 0 <= i < |p.tables| ==>
         p.tables[i].name in states[i].tables && TableExported(p.tables[i].name, states[i].tables[p.tables[i].name], p.tables[i])
  }

  const ONE_ID: Value := Text([0x70])

  function Schema(credentials: seq<Row>, projects: seq<Row>): Database {
    Database(1, map["credentials" := Table([Column("project_id", Null)], credentials),
                    "projects" := Table([Column("id", Null)], projects)])
  }

  /** A project and its credential deleted between the two reads: both states are sound, the payload is not. */
  lemma TornReadIsInconsistent()
    ensures exists a: Database, b: Database, p :: CredentialsHaveProjects(a.tables) && CredentialsHaveProjects(b.tables)
                              && Torn([a, b], p) && !Consistent(p)
  {
    var a, b := Schema([[ONE_ID]], [[ONE_ID]]), Schema([], []);
    assert ValidUtf8([0x70]);
    var p := Payload(1, [TableExport("credentials", ["project_id"], [[TextCell([0x70])]]), TableExport("projects", ["id"], [])]);
    assert CredentialsHaveProjects(a.tables) by {
      assert HasText([[ONE_ID]], 0, [0x70]) by {
        assert [[ONE_ID]][0][0].Text?;
      }
    }
    assert Torn([a, b], p) by {
      assert Names(a.tables["credentials"].columns) == ["project_id"];
      assert Names(b.tables["projects"].columns) == ["id"];
      assert RowExported([ONE_ID], [TextCell([0x70])]);
    }
    assert !Consistent(p) by {
      FindIs(p.tables, "credentials", 0);
      FindIs(p.tables, "projects", 1);
      var row := p.tables[0].rows[0];
      assert row[0] == TextCell([0x70]);
      assert !Holds([], 0, [0x70]);
    }
  }
}
