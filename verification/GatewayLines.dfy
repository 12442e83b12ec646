/** Register rows, and which of them one piece of a line can emit. */
module GatewayLines {
  import opened ShellLists
  import opened GatewaySites

  /** A check that ran, under the label `tag` of the script. */
  datatype Row = Row(optional: bool, group: string, tag: string)

  function Only(rows: seq<Row>, optional: bool): seq<Row> {
    if rows == [] then []
    else (if rows[0].optional == optional then [rows[0]] else []) + Only(rows[1..], optional)
  }

  function Required(rows: seq<Row>): seq<Row> {
    Only(rows, false)
  }

  function Optional(rows: seq<Row>): seq<Row> {
    Only(rows, true)
  }

  lemma {:induction false} OnlyConcat(a: seq<Row>, b: seq<Row>, optional: bool)
    ensures Only(a + b, optional) == Only(a, optional) + Only(b, optional)
  {
    if a == [] {
      assert a + b == b;
    } else {
      assert (a + b)[1..] == a[1..] + b;
      OnlyConcat(a[1..], b, optional);
    }
  }

  lemma SplitRows(rows: seq<Row>, k: nat)
    requires k <= |rows|
    ensures Required(rows) == Required(rows[..k]) + Required(rows[k..])
    ensures Optional(rows) == Optional(rows[..k]) + Optional(rows[k..])
  {
    assert rows == rows[..k] + rows[k..];
    OnlyConcat(rows[..k], rows[k..], false);
    OnlyConcat(rows[..k], rows[k..], true);
  }

  // ----- executions of a line ---------------------------------------------------------------------

  /** In group `g` the rest of a line can emit these rows after a command that succeeded or failed. */
  predicate Emits(line: seq<Part>, ok: bool, g: string, rows: seq<Row>)
    decreases |line|
  {
    if line == [] then rows == []
    else if !Executes(line[0].op, ok) then Emits(line[1..], ok, g, rows)
    else
      match line[0].command
      case Other => Emits(line[1..], true, g, rows) || Emits(line[1..], false, g, rows)
      case Check(optional, tag) =>
        rows != [] && rows[0] == Row(optional, g, tag) && Emits(line[1..], true, g, rows[1..])
  }

  predicate LineRuns(c: Checks, g: string, rows: seq<Row>) {
    Emits(c.line, true, g, rows)
  }

  /** What stands behind a keyword runs after a command of either status. */
  predicate MayRun(c: Checks, g: string, rows: seq<Row>) {
    Emits(c.line, true, g, rows) || Emits(c.line, false, g, rows)
  }

  function LeastOf(c: Checks): nat {
    Min(Least(c.line, true), Least(c.line, false))
  }

  function MostOf(c: Checks): nat {
    Max(Most(c.line, true), Most(c.line, false))
  }

  lemma HeadRow(row: Row, rest: seq<Row>)
    ensures Required([row] + rest) == (if row.optional then [] else [row]) + Required(rest)
    ensures Optional([row] + rest) == (if row.optional then [row] else []) + Optional(rest)
  {
    assert ([row] + rest)[1..] == rest;
  }

  /** Every execution emits between the least and the greatest number of required checks. */
  lemma {:induction false} EmitsBetween(line: seq<Part>, ok: bool, g: string, rows: seq<Row>)
    requires Emits(line, ok, g, rows)
    ensures Least(line, ok) <= |Required(rows)| <= Most(line, ok)
    decreases |line|
  {
    if line == [] {
    } else if !Executes(line[0].op, ok) {
      EmitsBetween(line[1..], ok, g, rows);
    } else if line[0].command.Other? {
      if Emits(line[1..], true, g, rows) {
        EmitsBetween(line[1..], true, g, rows);
      } else {
        EmitsBetween(line[1..], false, g, rows);
      }
    } else {
      EmitsBetween(line[1..], true, g, rows[1..]);
      HeadRow(rows[0], rows[1..]);
      assert [rows[0]] + rows[1..] == rows;
    }
  }

  /** Both numbers are reached. */
  lemma {:induction false} SomeEmission(line: seq<Part>, ok: bool, g: string, most: bool) returns (rows: seq<Row>)
    ensures Emits(line, ok, g, rows)
    ensures |Required(rows)| == if most then Most(line, ok) else Least(line, ok)
    decreases |line|
  {
    if line == [] {
      rows := [];
    } else if !Executes(line[0].op, ok) {
      rows := SomeEmission(line[1..], ok, g, most);
    } else if line[0].command.Other? {
      var a := SomeEmission(line[1..], true, g, most);
      var b := SomeEmission(line[1..], false, g, most);
      rows := if (|Required(a)| <= |Required(b)|) == most then b else a;
    } else {
      var rest := SomeEmission(line[1..], true, g, most);
      var row := Row(line[0].command.optional, g, line[0].command.tag);
      HeadRow(row, rest);
      rows := [row] + rest;
      assert rows[1..] == rest;
    }
  }

  lemma SomeLine(c: Checks, g: string, most: bool) returns (rows: seq<Row>)
    ensures LineRuns(c, g, rows) && |Required(rows)| == if most then Most(c.line, true) else Least(c.line, true)
  {
    rows := SomeEmission(c.line, true, g, most);
  }

  lemma SomeMayRun(c: Checks, g: string, most: bool) returns (rows: seq<Row>)
    ensures MayRun(c, g, rows) && |Required(rows)| == if most then MostOf(c) else LeastOf(c)
  {
    var a := SomeEmission(c.line, true, g, most);
    var b := SomeEmission(c.line, false, g, most);
    rows := if (|Required(a)| <= |Required(b)|) == most then b else a;
  }

  lemma MayRunBetween(c: Checks, g: string, rows: seq<Row>)
    requires MayRun(c, g, rows)
    ensures LeastOf(c) <= |Required(rows)| <= MostOf(c)
  {
    if Emits(c.line, true, g, rows) {
      EmitsBetween(c.line, true, g, rows);
    } else {
      EmitsBetween(c.line, false, g, rows);
    }
  }

  // ----- what is emitted is written -------------------------------------------------------------------

  /** The rows are checks under some of the labels, each at most once and in order. */
  predicate Picks(labels: seq<string>, g: string, rows: seq<Row>)
    decreases |labels|
  {
    if labels == [] then rows == []
    else
      || Picks(labels[1..], g, rows)
      || (rows != [] && rows[0].group == g && rows[0].tag == labels[0] && Picks(labels[1..], g, rows[1..]))
  }

  lemma PicksMore(first: string, labels: seq<string>, g: string, rows: seq<Row>)
    requires Picks(labels, g, rows)
    ensures Picks([first] + labels, g, rows)
  {
    assert ([first] + labels)[1..] == labels;
  }

  lemma PicksHead(row: Row, labels: seq<string>, rows: seq<Row>)
    requires Picks(labels, row.group, rows)
    ensures Picks([row.tag] + labels, row.group, [row] + rows)
  {
    assert ([row.tag] + labels)[1..] == labels && ([row] + rows)[1..] == rows;
  }

  lemma {:induction false} EmitsPicks(line: seq<Part>, ok: bool, g: string, rows: seq<Row>)
    requires Emits(line, ok, g, rows)
    ensures Picks(TagsOf(line, false), g, Required(rows)) && Picks(TagsOf(line, true), g, Optional(rows))
    decreases |line|
  {
    if line == [] {
    } else {
      var p, rest := line[0], line[1..];
      if !Executes(p.op, ok) {
        EmitsPicks(rest, ok, g, rows);
      } else if p.command.Other? {
        EmitsPicks(rest, Emits(rest, true, g, rows), g, rows);
      } else {
        EmitsPicks(rest, true, g, rows[1..]);
      }
      hide Emits, Picks;
      PicksOn(p, rest, ok, g, rows, if !Executes(p.op, ok) || p.command.Other? then rows else rows[1..]);
    }
  }

  /** One part adds its label, and a row if it is a check that runs. */
  lemma PicksOn(p: Part, rest: seq<Part>, ok: bool, g: string, rows: seq<Row>, after: seq<Row>)
    requires Picks(TagsOf(rest, false), g, Required(after)) && Picks(TagsOf(rest, true), g, Optional(after))
    requires rows == after || (p.command.Check? && rows == [Row(p.command.optional, g, p.command.tag)] + after)
    ensures Picks(TagsOf([p] + rest, false), g, Required(rows)) && Picks(TagsOf([p] + rest, true), g, Optional(rows))
  {
    var line := [p] + rest;
    assert line[1..] == rest;
    hide Picks;
    if p.command.Check? {
      var o, t := p.command.optional, p.command.tag;
      assert TagsOf(line, o) == [t] + TagsOf(rest, o) && TagsOf(line, !o) == [] + TagsOf(rest, !o) == TagsOf(rest, !o);
      PicksMore(t, TagsOf(rest, o), g, Only(after, o));
      HeadRow(Row(o, g, t), after);
      PicksHead(Row(o, g, t), TagsOf(rest, o), Only(after, o));
      assert [] + Only(after, !o) == Only(after, !o);
    } else {
      assert TagsOf(line, false) == [] + TagsOf(rest, false) == TagsOf(rest, false);
      assert TagsOf(line, true) == [] + TagsOf(rest, true) == TagsOf(rest, true);
    }
  }

  lemma {:induction false} PickedAreWritten(labels: seq<string>, g: string, rows: seq<Row>)
    requires Picks(labels, g, rows)
    ensures |rows| <= |labels| && forall i :: 0 <= i < |rows| ==> rows[i].group == g && rows[i].tag in labels
    ensures |rows| == |labels| ==> forall i :: 0 <= i < |rows| ==> rows[i].tag == labels[i]
    decreases |labels|
  {
    if labels != [] {
      if Picks(labels[1..], g, rows) {
        PickedAreWritten(labels[1..], g, rows);
      } else {
        PickedAreWritten(labels[1..], g, rows[1..]);
      }
    }
  }

  lemma {:induction false} NothingPicked(labels: seq<string>, g: string)
    ensures Picks(labels, g, [])
  {
    if labels != [] {
      NothingPicked(labels[1..], g);
    }
  }

  /** The required rows of a line, and of what stands behind a keyword, are under its labels. */
  lemma LinePicks(c: Checks, g: string, rows: seq<Row>)
    requires MayRun(c, g, rows)
    ensures Picks(c.required, g, Required(rows)) && Picks(c.optional, g, Optional(rows))
    ensures |Required(rows)| <= |c.required|
    ensures forall i :: 0 <= i < |Required(rows)| ==> Required(rows)[i].group == g && Required(rows)[i].tag in c.required
    ensures |Required(rows)| == |c.required| ==> forall i :: 0 <= i < |c.required| ==> Required(rows)[i].tag == c.required[i]
  {
    EmitsPicks(c.line, Emits(c.line, true, g, rows), g, rows);
    hide Emits, Only;
    PickedAreWritten(c.required, g, Required(rows));
  }
}
