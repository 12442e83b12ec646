/** Which results documents are accepted, read off the document, the request and the manifest alone. */
module DocumentGuarantees {
  import opened Wrappers
  import opened Manifest
  import opened Assignment
  import opened ResultsValidator
  import opened RegisterGuarantees

  // ----- what a document has to hold -------------------------------------------------------------

  /** A number, or the truth value that counts as it. */
  predicate Is(j: Json, n: int) {
    j == Number(n as real) || (n == 0 && j == Bool(false)) || (n == 1 && j == Bool(true))
  }

  /** The same value, be it a truth value on one side and 0 or 1 on the other. */
  predicate Alike(a: Json, b: Json) {
    || a == b
    || (a == Bool(false) && b == Number(0.0)) || (a == Number(0.0) && b == Bool(false))
    || (a == Bool(true) && b == Number(1.0)) || (a == Number(1.0) && b == Bool(true))
  }

  /** It is about what was asked for. */
  predicate AskedFor(asked: Request, values: map<string, Json>) {
    && Alike(if "schema" in values then values["schema"] else NULL, asked.schema)
    && "scope" in values && values["scope"] == Text(asked.scope)
    && "mode" in values && values["mode"] == Text(asked.mode)
    && (asked.commit.Some? ==> "commit" in values && values["commit"] == Text(asked.commit.value))
  }

  /** It tells of a pass without exceptions, with the total of the manifest. */
  predicate Clean(total: int, values: map<string, Json>) {
    && "verdict" in values && values["verdict"] == Text("PASS")
    && "failed" in values && Is(values["failed"], 0)
    && "skipped" in values && Is(values["skipped"], 0)
    && "duplicate_names" in values && Is(values["duplicate_names"], 0)
    && "executed_total" in values && Is(values["executed_total"], total)
    && "expected_total" in values && Is(values["expected_total"], total)
  }

  predicate OfGroup(entries: seq<Entry>, g: string) {
    exists k :: 0 <= k < |entries| && entries[k].group == g
  }

  /** Each group of the manifest reports once, with its count, and nothing that is not declared does; none failed. */
  ghost predicate Reports(spec: Spec, groups: seq<Report>) {
    && groups != []
    && (forall k :: 0 <= k < |groups| ==>
          && groups[k].Report? && groups[k].name.Text? && Is(groups[k].failed, 0)
          && (groups[k].name.s in spec.groups || OfGroup(spec.optional, groups[k].name.s))
          && (groups[k].name.s in spec.groups ==> Is(groups[k].executed, spec.groups[groups[k].name.s])))
    && (forall i, k :: 0 <= i < k < |groups| ==> groups[i].name != groups[k].name)
    && (forall g :: g in spec.groups ==> exists k :: 0 <= k < |groups| && groups[k].name == Text(g))
  }

  /** The rows that are not flagged optional. */
  function RequiredRows(rows: seq<Check>): set<nat> {
    set j: nat | j < |rows| && rows[j].optional != Bool(true)
  }

  function RequiredIn(rows: seq<Check>, g: string): set<nat> {
    set j: nat | j < |rows| && rows[j].optional != Bool(true) && rows[j].group == Text(g)
  }

  /** The register consists of these rows: all passed, all names different, in the numbers declared. */
  ghost predicate Registers(spec: Spec, items: seq<Item>, rows: seq<Check>) {
    && |items| == |rows|
    && (forall j :: 0 <= j < |rows| ==> items[j] == Row(rows[j]) && rows[j].result == Text("pass"))
    && (forall i, j :: 0 <= i < j < |rows| ==> rows[i].name != rows[j].name)
    && |RequiredRows(rows)| == spec.expectedTotal
    && (forall g :: g in spec.groups ==> |RequiredIn(rows, g)| == spec.groups[g])
  }

  /** Row `j` is a check of entry `owner[j]`: one entry for each row, a row for each required entry. */
  ghost predicate Owned(spec: Spec, rows: seq<Check>, owner: seq<nat>) {
    var entries := spec.required + spec.optional;
    && |owner| == |rows|
    && (forall j :: 0 <= j < |rows| ==>
          && owner[j] < |entries| && rows[j].group == Text(entries[owner[j]].group) && rows[j].name.Text?
          && (exists p :: p in entries[owner[j]].prefixes && p <= rows[j].name.s)
          && (rows[j].optional == Bool(true) <==> owner[j] >= |spec.required|))
    && (forall i, j :: 0 <= i < j < |rows| ==> owner[i] != owner[j])
    && (forall k :: 0 <= k < |spec.required| ==> k in owner)
  }

  /** The manifest names checks, with prefixes, for every group it counts. */
  ghost predicate NamesChecks(spec: Spec) {
    && spec.required != []
    && (forall e :: e in spec.required + spec.optional ==> e.prefixes != [] && "" !in e.prefixes)
    && (forall g :: g in spec.groups && spec.groups[g] != 0 ==> OfGroup(spec.required, g))
  }

  ghost predicate Deserves(spec: Spec, asked: Request, results: Results, rows: seq<Check>, owner: seq<nat>) {
    && NamesChecks(spec) && AskedFor(asked, results.values) && Clean(spec.expectedTotal, results.values)
    && results.groups.Some? && Reports(spec, results.groups.value)
    && results.checks.Some? && Registers(spec, results.checks.value, rows)
    && Owned(spec, rows, owner)
  }

  // ----- part by part ------------------------------------------------------------------------------

  lemma StatedMeans(spec: Spec, asked: Request, results: Results)
    ensures StatedOk(spec, asked, results) <==> AskedFor(asked, results.values) && Clean(spec.expectedTotal, results.values)
  {
    SameIsAlike(Stated(results, "schema"), asked.schema);
    hide Same, Alike;
    forall key: string, n: int
      ensures Tells(results, key, n) <==> key in results.values && Is(results.values[key], n)
    {
      IntMeans(Stated(results, key), n);
    }
    hide Is, Tells;
  }

  lemma SameIsAlike(a: Json, b: Json)
    ensures Same(a, b) <==> Alike(a, b)
  {
  }

  lemma IntMeans(j: Json, n: int)
    ensures IsInt(j, n) <==> Is(j, n)
  {
  }

  lemma BreakdownMeans(spec: Spec, groups: Option<seq<Report>>)
    ensures BreakdownOk(spec, groups) <==> groups.Some? && Reports(spec, groups.value)
  {
    forall j, n
      ensures IsInt(j, n) <==> Is(j, n)
    {
      IntMeans(j, n);
    }
    hide IsInt, Is;
    forall entries, g
      ensures HasGroup(entries, g) <==> OfGroup(entries, g)
    {
    }
    hide HasGroup, OfGroup;
  }

  lemma UsableMeans(spec: Spec)
    ensures Usable(spec) <==> NamesChecks(spec)
  {
    var entries := spec.required + spec.optional;
    forall g
      ensures HasGroup(spec.required, g) <==> OfGroup(spec.required, g)
    {
    }
    EntriesMean(entries);
    assert Declared(spec) == entries;
    hide HasGroup, OfGroup, EntryOk;
    assert forall g :: g in spec.groups && spec.groups[g] != 0 ==> (HasGroup(spec.required, g) <==> OfGroup(spec.required, g));
  }

  lemma EntriesMean(entries: seq<Entry>)
    ensures (forall k :: 0 <= k < |entries| ==> EntryOk(entries[k])) <==> forall e :: e in entries ==> e.prefixes != [] && "" !in e.prefixes
  {
    if forall k :: 0 <= k < |entries| ==> EntryOk(entries[k]) {
      forall e | e in entries
        ensures e.prefixes != [] && "" !in e.prefixes
      {
        var k :| 0 <= k < |entries| && entries[k] == e;
        assert EntryOk(entries[k]);
      }
    }
    if forall e :: e in entries ==> e.prefixes != [] && "" !in e.prefixes {
      forall k | 0 <= k < |entries|
        ensures EntryOk(entries[k])
      {
        assert entries[k] in entries;
      }
    }
  }

  lemma {:induction false} CountedRows(items: seq<Item>, rows: seq<Check>, g: string)
    requires |items| == |rows| && forall j :: 0 <= j < |rows| ==> items[j] == Row(rows[j])
    ensures CountRequired(items) == |RequiredRows(rows)| && CountInGroup(items, Text(g)) == |RequiredIn(rows, g)|
  {
    if rows == [] {
      assert RequiredRows(rows) == {} && RequiredIn(rows, g) == {};
    } else {
      hide RequiredRows, RequiredIn;
      var n := |rows| - 1;
      CountedRows(items[..n], rows[..n], g);
      OneRow(rows, g);
    }
  }

  lemma OneRow(rows: seq<Check>, g: string)
    requires rows != []
    ensures var n := |rows| - 1;
            && |RequiredRows(rows)| == |RequiredRows(rows[..n])| + (if rows[n].optional != Bool(true) then 1 else 0)
            && |RequiredIn(rows, g)| == |RequiredIn(rows[..n], g)|
                                        + if rows[n].optional != Bool(true) && rows[n].group == Text(g) then 1 else 0
  {
    LastRequired(rows);
    LastRequiredIn(rows, g);
    hide RequiredRows, RequiredIn;
  }

  lemma LastRequired(rows: seq<Check>)
    requires rows != []
    ensures var n := |rows| - 1;
            |RequiredRows(rows)| == |RequiredRows(rows[..n])| + if rows[n].optional != Bool(true) then 1 else 0
  {
    var n := |rows| - 1;
    var one: set<nat> := if rows[n].optional != Bool(true) then {n} else {};
    assert RequiredRows(rows) == RequiredRows(rows[..n]) + one;
  }

  lemma LastRequiredIn(rows: seq<Check>, g: string)
    requires rows != []
    ensures var n := |rows| - 1;
            |RequiredIn(rows, g)| == |RequiredIn(rows[..n], g)|
                                     + if rows[n].optional != Bool(true) && rows[n].group == Text(g) then 1 else 0
  {
    var n := |rows| - 1;
    var one: set<nat> := if rows[n].optional != Bool(true) && rows[n].group == Text(g) then {n} else {};
    assert RequiredIn(rows, g) == RequiredIn(rows[..n], g) + one;
  }

  lemma RegisterMeans(spec: Spec, items: seq<Item>, rows: seq<Check>)
    requires |items| == |rows| && forall j :: 0 <= j < |rows| ==> items[j] == Row(rows[j])
    ensures RegisterOk(spec, Some(items)) <==> Registers(spec, items, rows)
  {
    forall g
      ensures CountRequired(items) == |RequiredRows(rows)| && CountInGroup(items, Text(g)) == |RequiredIn(rows, g)|
    {
      CountedRows(items, rows, g);
    }
    CountedRows(items, rows, "");
    hide CountRequired, CountInGroup, RequiredRows, RequiredIn;
  }

  lemma OwnedMeans(spec: Spec, rows: seq<Check>, owner: seq<nat>)
    ensures Bijection(spec, rows, owner) <==> Owned(spec, rows, owner)
  {
    forall e: Entry, row: Check
      ensures Candidate(e, row) <==> row.group == Text(e.group) && row.name.Text? && exists p :: p in e.prefixes && p <= row.name.s
    {
      if row.name.Text? {
        CandidateMeans(e.prefixes, row.name.s);
      }
    }
    hide Candidate, BestLength;
  }

  // ----- the main results ---------------------------------------------------------------------------

  /** Whatever the manifest, an accepted document deserves it. */
  lemma AcceptedDeserves(spec: Spec, asked: Request, results: Results) returns (rows: seq<Check>, owner: seq<nat>)
    requires Accepts(spec, asked, results)
    ensures Deserves(spec, asked, results, rows, owner)
  {
    StatedMeans(spec, asked, results);
    BreakdownMeans(spec, results.groups);
    UsableMeans(spec);
    rows := RowsOf(results);
    RowsArePassed(spec, results);
    RegisterMeans(spec, results.checks.value, rows);
    owner := AssignmentIsBijection(spec, rows);
    OwnedMeans(spec, rows, owner);
    hide StatedOk, BreakdownOk, RegisterOk, AssignmentOk, Usable, NamesChecks, AskedFor, Clean, Reports, Registers, Owned, Bijection;
  }

  lemma RowsArePassed(spec: Spec, results: Results)
    requires RegisterOk(spec, results.checks)
    ensures var items, rows := results.checks.value, RowsOf(results);
            |items| == |rows| && forall j :: 0 <= j < |rows| ==> items[j] == Row(rows[j])
  {
    hide CountRequired, CountInGroup;
    var items := results.checks.value;
    assert forall k :: 0 <= k < |items| ==> Passed(items[k]);
    AllRows(items);
  }

  /** On a manifest without shadowing, a document is accepted if and only if it deserves it. */
  lemma AcceptedExactly(spec: Spec, asked: Request, results: Results)
    requires NonShadowing(Declared(spec))
    ensures Accepts(spec, asked, results) <==> exists rows, owner :: Deserves(spec, asked, results, rows, owner)
  {
    if Accepts(spec, asked, results) {
      var rows, owner := AcceptedDeserves(spec, asked, results);
    }
    if rows, owner :| Deserves(spec, asked, results, rows, owner) {
      DeservedIsAccepted(spec, asked, results, rows, owner);
    }
  }

  lemma DeservedIsAccepted(spec: Spec, asked: Request, results: Results, rows: seq<Check>, owner: seq<nat>)
    requires NonShadowing(Declared(spec)) && Deserves(spec, asked, results, rows, owner)
    ensures Accepts(spec, asked, results)
  {
    StatedMeans(spec, asked, results);
    BreakdownMeans(spec, results.groups);
    UsableMeans(spec);
    var items := results.checks.value;
    RegisterMeans(spec, items, rows);
    OwnedMeans(spec, rows, owner);
    AllRows(items);
    assert RowsOf(results) == rows;
    hide StatedOk, BreakdownOk, RegisterOk, AssignmentOk, Usable, NamesChecks, AskedFor, Clean, Reports, Owned, Bijection, Registers;
    BijectionIsFound(spec, rows, owner);
  }
}
