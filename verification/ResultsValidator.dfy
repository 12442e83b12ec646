/**
 Judging a results document against one scope of the manifest: what it states of itself, the group
 breakdown, the check register, and the exact set of required checks.
 */
module ResultsValidator {
  import opened Wrappers
  import opened Manifest
  import opened Assignment

  /** What the manifest declares for a scope. */
  datatype Spec = Spec(expectedTotal: int, groups: map<string, int>, required: seq<Entry>, optional: seq<Entry>)

  datatype Report = NotAReport | Report(name: Json, executed: Json, failed: Json)

  datatype Item = NotAnObject | Row(check: Check)

  /** A results document: its single values by key, and its two lists; a list that is none is absent. */
  datatype Results = Results(values: map<string, Json>, groups: Option<seq<Report>>, checks: Option<seq<Item>>)

  /** What the document has to be about; without a commit any commit will do. */
  datatype Request = Request(schema: Json, scope: string, mode: string, commit: Option<string>)

  datatype Failure =
    | Differs(key: string)
    | Breakdown(name: Json)
    | Register(item: Option<nat>)
    | MissingRequired(entry: nat)
    | WrongRequiredness(entry: nat)
    | Unrecognised(row: nat)
    | SetsDiffer

  /** A manifest that cannot be used is refused before any judgement. */
  datatype Verdict = Refused | Judged(fails: seq<Failure>)

  /** A JSON value equals an integer; `true` and `false` count as 1 and 0. */
  predicate IsInt(j: Json, n: int) {
    match j
    case Number(r) => r == n as real
    case Bool(b) => n == if b then 1 else 0
    case _ => false
  }

  // ----- what the document states of itself ---------------------------------------------------

  /** A value that is absent reads as null. */
  const NULL := Other(0)

  function Stated(results: Results, key: string): Json {
    if key in results.values then results.values[key] else NULL
  }

  function Counted(j: Json): Json {
    if j.Bool? then Number(if j.b then 1.0 else 0.0) else j
  }

  /** Equal values; `true` and `false` count as 1 and 0. */
  predicate Same(a: Json, b: Json) {
    Counted(a) == Counted(b)
  }

  predicate Tells(results: Results, key: string, n: int) {
    IsInt(Stated(results, key), n)
  }

  /** About this scope, mode and commit. */
  predicate IdentityOk(asked: Request, results: Results) {
    && Same(Stated(results, "schema"), asked.schema)
    && Stated(results, "scope") == Text(asked.scope) && Stated(results, "mode") == Text(asked.mode)
    && (asked.commit.Some? ==> Stated(results, "commit") == Text(asked.commit.value))
  }

  /** Passed without exception, and with the total of the manifest. */
  predicate OutcomeOk(spec: Spec, results: Results) {
    && Stated(results, "verdict") == Text("PASS")
    && Tells(results, "failed", 0) && Tells(results, "skipped", 0) && Tells(results, "duplicate_names", 0)
    && Tells(results, "executed_total", spec.expectedTotal) && Tells(results, "expected_total", spec.expectedTotal)
  }

  predicate StatedOk(spec: Spec, asked: Request, results: Results) {
    IdentityOk(asked, results) && OutcomeOk(spec, results)
  }

  method Want(results: Results, key: string, wanted: Json) returns (fails: seq<Failure>)
    ensures fails == if Same(Stated(results, key), wanted) then [] else [Differs(key)]
  {
    var got := if key in results.values then results.values[key] else NULL;
    fails := if Same(got, wanted) then [] else [Differs(key)];
  }

  lemma SameMeans(j: Json, n: int, t: string)
    ensures Same(j, Number(n as real)) <==> IsInt(j, n)
    ensures Same(j, Text(t)) <==> j == Text(t)
  {
  }

  method WantNone(results: Results, key: string) returns (fails: seq<Failure>)
    ensures fails == [] <==> Tells(results, key, 0)
    ensures forall f :: f in fails ==> f == Differs(key)
  {
    SameMeans(Stated(results, key), 0, "");
    fails := Want(results, key, Number(0.0));
  }

  method WantText(results: Results, key: string, t: string) returns (fails: seq<Failure>)
    ensures fails == [] <==> Stated(results, key) == Text(t)
    ensures forall f :: f in fails ==> f == Differs(key)
  {
    SameMeans(Stated(results, key), 0, t);
    fails := Want(results, key, Text(t));
  }

  method CheckIdentity(asked: Request, results: Results) returns (fails: seq<Failure>)
    ensures fails == [] <==> IdentityOk(asked, results)
    ensures forall f :: f in fails ==> f.Differs?
  {
    hide Same, Stated;
    var schema := Want(results, "schema", asked.schema);
    var scope := WantText(results, "scope", asked.scope);
    var mode := WantText(results, "mode", asked.mode);
    fails := schema + scope + mode;
    if asked.commit.Some? {
      var commit := WantText(results, "commit", asked.commit.value);
      fails := fails + commit;
    }
  }

  method CheckOutcome(spec: Spec, results: Results) returns (fails: seq<Failure>)
    ensures fails == [] <==> OutcomeOk(spec, results)
    ensures forall f :: f in fails ==> f.Differs?
  {
    hide Same, IsInt, Stated;
    var verdict := WantText(results, "verdict", "PASS");
    var failed := WantNone(results, "failed");
    var skipped := WantNone(results, "skipped");
    var duplicates := WantNone(results, "duplicate_names");
    fails := verdict + failed + skipped + duplicates;
    var total := Number(spec.expectedTotal as real);
    SameMeans(Stated(results, "executed_total"), spec.expectedTotal, "");
    SameMeans(Stated(results, "expected_total"), spec.expectedTotal, "");
    var executed := Want(results, "executed_total", total);
    var expected := Want(results, "expected_total", total);
    fails := fails + executed + expected;
  }

  // ----- the group breakdown ---------------------------------------------------------------

  predicate HasGroup(entries: seq<Entry>, g: string) {
    exists k :: 0 <= k < |entries| && entries[k].group == g
  }

  predicate ReportOk(spec: Spec, r: Report) {
    && r.Report? && r.name.Text?
    && (r.name.s in spec.groups || HasGroup(spec.optional, r.name.s))
    && (r.name.s in spec.groups ==> IsInt(r.executed, spec.groups[r.name.s]))
    && IsInt(r.failed, 0)
  }

  ghost predicate Reported(groups: seq<Report>, g: string) {
    exists k :: 0 <= k < |groups| && groups[k].Report? && groups[k].name == Text(g)
  }

  ghost predicate NamesDiffer(groups: seq<Report>) {
    forall i, j :: 0 <= i < j < |groups| && groups[i].Report? && groups[j].Report? ==> groups[i].name != groups[j].name
  }

  ghost predicate BreakdownOk(spec: Spec, groups: Option<seq<Report>>) {
    && groups.Some? && groups.value != []
    && NamesDiffer(groups.value)
    && (forall k :: 0 <= k < |groups.value| ==> ReportOk(spec, groups.value[k]))
    && (forall g :: g in spec.groups ==> Reported(groups.value, g))
  }

  method CheckReport(spec: Spec, r: Report) returns (ok: bool)
    requires r.Report?
    ensures ok <==> ReportOk(spec, r)
  {
    if !(r.name.Text? && (r.name.s in spec.groups || HasGroup(spec.optional, r.name.s))) {
      return false;
    }
    if r.name.s !in spec.groups {
      return IsInt(r.failed, 0);
    }
    ok := IsInt(r.executed, spec.groups[r.name.s]) && IsInt(r.failed, 0);
  }

  method CheckBreakdown(spec: Spec, reported: Option<seq<Report>>) returns (fails: seq<Failure>)
    ensures fails == [] <==> BreakdownOk(spec, reported)
    ensures forall f :: f in fails ==> f.Breakdown?
  {
    fails := [];
    var groups: seq<Report> := [];
    if reported.None? || reported.value == [] {
      fails := [Breakdown(Other(0))];
    } else {
      groups := reported.value;
    }
    var seen: set<Json> := {};
    for k := 0 to |groups|
      invariant forall f :: f in fails ==> f.Breakdown?
      invariant forall n :: n in seen <==> exists i :: 0 <= i < k && groups[i].Report? && groups[i].name == n
      invariant fails == [] <==> groups != [] && NamesDiffer(groups[..k])
                                 && forall i :: 0 <= i < k ==> ReportOk(spec, groups[i])
    {
      var r := groups[k];
      assert groups[..k + 1] == groups[..k] + [r];
      if r.NotAReport? {
        fails := fails + [Breakdown(Other(1))];
        continue;
      }
      if r.name in seen {
        fails := fails + [Breakdown(r.name)];
      }
      seen := seen + {r.name};
      var ok := CheckReport(spec, r);
      if !ok {
        fails := fails + [Breakdown(r.name)];
      }
    }
    assert groups[..|groups|] == groups;
    var missing := MissingGroups(spec, seen);
    fails := fails + missing;
    assert missing == [] <==> forall g :: g in spec.groups ==> Text(g) in seen;
  }

  method MissingGroups(spec: Spec, seen: set<Json>) returns (fails: seq<Failure>)
    ensures fails == [] <==> forall g :: g in spec.groups ==> Text(g) in seen
    ensures forall f :: f in fails ==> f.Breakdown?
  {
    fails := [];
    var todo := spec.groups.Keys;
    while todo != {}
      invariant todo <= spec.groups.Keys
      invariant fails == [] <==> forall g :: g in spec.groups && g !in todo ==> Text(g) in seen
      invariant forall f :: f in fails ==> f.Breakdown?
      decreases todo
    {
      var g :| g in todo;
      todo := todo - {g};
      if Text(g) !in seen {
        fails := fails + [Breakdown(Text(g))];
      }
    }
  }

  // ----- the register ---------------------------------------------------------------------------

  /** Anything but a row flagged optional counts as required. */
  predicate CountsAsRequired(item: Item) {
    item.Row? ==> item.check.optional != Bool(true)
  }

  function CountRequired(items: seq<Item>): nat {
    if items == [] then 0
    else CountRequired(items[..|items| - 1]) + if CountsAsRequired(items[|items| - 1]) then 1 else 0
  }

  function CountInGroup(items: seq<Item>, g: Json): nat {
    if items == [] then 0
    else
      var last := items[|items| - 1];
      CountInGroup(items[..|items| - 1], g) + if CountsAsRequired(last) && last.Row? && last.check.group == g then 1 else 0
  }

  predicate Passed(item: Item) {
    item.Row? && item.check.result == Text("pass")
  }

  ghost predicate DistinctNames(items: seq<Item>) {
    forall i, j :: 0 <= i < j < |items| && items[i].Row? && items[j].Row? ==> items[i].check.name != items[j].check.name
  }

  ghost predicate RegisterOk(spec: Spec, checks: Option<seq<Item>>) {
    && checks.Some?
    && CountRequired(checks.value) == spec.expectedTotal
    && DistinctNames(checks.value)
    && (forall k :: 0 <= k < |checks.value| ==> Passed(checks.value[k]))
    && (forall g :: g in spec.groups ==> CountInGroup(checks.value, Text(g)) == spec.groups[g])
  }

  ghost predicate CountsRows(items: seq<Item>, perGroup: map<Json, nat>) {
    forall g :: CountInGroup(items, g) == if g in perGroup then perGroup[g] else 0
  }

  method CountRows(items: seq<Item>) returns (required: nat, perGroup: map<Json, nat>)
    ensures required == CountRequired(items) && CountsRows(items, perGroup)
  {
    required, perGroup := 0, map[];
    for k := 0 to |items|
      invariant required == CountRequired(items[..k]) && CountsRows(items[..k], perGroup)
    {
      assert items[..k + 1][..k] == items[..k];
      if CountsAsRequired(items[k]) {
        required := required + 1;
        if items[k].Row? {
          var g := items[k].check.group;
          perGroup := perGroup[g := (if g in perGroup then perGroup[g] else 0) + 1];
        }
      }
    }
    assert items[..|items|] == items;
  }

  method CheckItems(items: seq<Item>) returns (fails: seq<Failure>)
    ensures fails == [] <==> DistinctNames(items) && forall k :: 0 <= k < |items| ==> Passed(items[k])
    ensures forall f :: f in fails ==> f.Register?
  {
    fails := [];
    var names: set<Json> := {};
    for k := 0 to |items|
      invariant forall f :: f in fails ==> f.Register?
      invariant forall n :: n in names <==> exists i :: 0 <= i < k && items[i].Row? && items[i].check.name == n
      invariant fails == [] <==> DistinctNames(items[..k]) && forall i :: 0 <= i < k ==> Passed(items[i])
    {
      var item := items[k];
      assert items[..k + 1] == items[..k] + [item];
      if item.Row? {
        if item.check.name in names {
          fails := fails + [Register(Some(k))];
        }
        names := names + {item.check.name};
      }
      if !Passed(item) {
        fails := fails + [Register(Some(k))];
      }
    }
    assert items[..|items|] == items;
  }

  method CheckRegister(spec: Spec, checks: Option<seq<Item>>) returns (fails: seq<Failure>)
    ensures fails == [] <==> RegisterOk(spec, checks)
    ensures forall f :: f in fails ==> f.Register?
  {
    if checks.None? {
      return [Register(None)];
    }
    var required, perGroup := CountRows(checks.value);
    fails := CheckItems(checks.value);
    if required != spec.expectedTotal {
      fails := fails + [Register(None)];
    }
    var uneven := UnevenGroups(spec, checks.value, perGroup);
    fails := fails + uneven;
  }

  method UnevenGroups(spec: Spec, ghost items: seq<Item>, perGroup: map<Json, nat>) returns (fails: seq<Failure>)
    requires CountsRows(items, perGroup)
    ensures fails == [] <==> forall g :: g in spec.groups ==> CountInGroup(items, Text(g)) == spec.groups[g]
    ensures forall f :: f in fails ==> f.Register?
  {
    fails := [];
    var todo := spec.groups.Keys;
    while todo != {}
      invariant todo <= spec.groups.Keys
      invariant fails == [] <==>
        forall g :: g in spec.groups && g !in todo ==> CountInGroup(items, Text(g)) == spec.groups[g]
      invariant forall f :: f in fails ==> f.Register?
      decreases todo
    {
      var g :| g in todo;
      todo := todo - {g};
      var got := if Text(g) in perGroup then perGroup[Text(g)] else 0;
      if got != spec.groups[g] {
        fails := fails + [Register(None)];
      }
    }
  }

  // ----- the exact set of checks ------------------------------------------------------------------

  predicate EntryOk(e: Entry) {
    e.prefixes != [] && forall p :: p in e.prefixes ==> p != ""
  }

  /** The manifest names checks, each with prefixes, for every group it counts. */
  ghost predicate Usable(spec: Spec) {
    && spec.required != []
    && (forall k :: 0 <= k < |Declared(spec)| ==> EntryOk(Declared(spec)[k]))
    && (forall g :: g in spec.groups && spec.groups[g] != 0 ==> HasGroup(spec.required, g))
  }

  function Declared(spec: Spec): seq<Entry> {
    spec.required + spec.optional
  }

  function Rows(items: seq<Item>): seq<Check> {
    if items == [] then []
    else Rows(items[..|items| - 1]) + if items[|items| - 1].Row? then [items[|items| - 1].check] else []
  }

  function RowsOf(results: Results): seq<Check> {
    if results.checks.None? then [] else Rows(results.checks.value)
  }

  /** The row an entry took is flagged optional exactly when the entry is. */
  predicate RightlyFlagged(spec: Spec, rows: seq<Check>, k: nat)
    requires k < |Declared(spec)|
  {
    var hit := Hit(Declared(spec), rows, k);
    hit.Some? ==> (rows[hit.value].optional == Bool(true) <==> k >= |spec.required|)
  }

  ghost predicate AssignmentOk(spec: Spec, rows: seq<Check>) {
    && (forall k :: 0 <= k < |spec.required| ==> Hit(Declared(spec), rows, k).Some?)
    && (forall k :: 0 <= k < |Declared(spec)| ==> RightlyFlagged(spec, rows, k))
    && (forall j: nat :: !LeftOver(Declared(spec), rows, j))
  }

  ghost predicate Accepts(spec: Spec, asked: Request, results: Results) {
    && Usable(spec)
    && StatedOk(spec, asked, results)
    && BreakdownOk(spec, results.groups)
    && RegisterOk(spec, results.checks)
    && AssignmentOk(spec, RowsOf(results))
  }

  method CollectRows(items: seq<Item>) returns (rows: seq<Check>)
    ensures rows == Rows(items)
  {
    rows := [];
    for k := 0 to |items|
      invariant rows == Rows(items[..k])
    {
      assert items[..k + 1][..k] == items[..k];
      if items[k].Row? {
        rows := rows + [items[k].check];
      }
    }
    assert items[..|items|] == items;
  }

  method IsUsable(spec: Spec) returns (ok: bool)
    ensures ok <==> Usable(spec)
  {
    if spec.required == [] {
      return false;
    }
    var entries := Declared(spec);
    for k := 0 to |entries|
      invariant forall i :: 0 <= i < k ==> EntryOk(entries[i])
    {
      if !EntryOk(entries[k]) {
        return false;
      }
    }
    var todo := spec.groups.Keys;
    while todo != {}
      invariant todo <= spec.groups.Keys
      invariant forall g :: g in spec.groups && g !in todo && spec.groups[g] != 0 ==> HasGroup(spec.required, g)
      decreases todo
    {
      var g :| g in todo;
      todo := todo - {g};
      if spec.groups[g] != 0 && !HasGroup(spec.required, g) {
        return false;
      }
    }
    ok := true;
  }

  /** What the assignment of one entry adds to the failures. */
  ghost predicate EntryFails(spec: Spec, rows: seq<Check>, k: nat, f: Failure) {
    && k < |Declared(spec)|
    && ((f == MissingRequired(k) && k < |spec.required| && Hit(Declared(spec), rows, k).None?)
        || (f == WrongRequiredness(k) && !RightlyFlagged(spec, rows, k)))
  }

  method AssignRows(spec: Spec, rows: seq<Check>) returns (claims: Claims, fails: seq<Failure>)
    ensures claims == Assigned(Declared(spec), rows, |Declared(spec)|)
    ensures forall f :: f in fails <==> exists k: nat :: EntryFails(spec, rows, k, f)
  {
    hide Pick;
    var entries := Declared(spec);
    claims, fails := Unclaimed(|rows|), [];
    for k := 0 to |entries|
      invariant claims == Assigned(entries, rows, k)
      invariant forall f :: f in fails <==> exists i: nat :: i < k && EntryFails(spec, rows, i, f)
    {
      var hit := TakeRow(entries[k], rows, claims);
      assert hit == Hit(entries, rows, k);
      ghost var before := fails;
      if hit.None? {
        if k < |spec.required| {
          fails := fails + [MissingRequired(k)];
        }
        assert forall f :: f in fails <==> f in before || EntryFails(spec, rows, k, f);
        continue;
      }
      claims := claims[hit.value := Some(k)];
      var flagged := rows[hit.value].optional == Bool(true);
      if (k < |spec.required|) == flagged {
        fails := fails + [WrongRequiredness(k)];
      }
      assert forall f :: f in fails <==> f in before || EntryFails(spec, rows, k, f);
    }
  }

  method UnclaimedRows(claims: Claims) returns (fails: seq<Failure>)
    ensures forall f :: f in fails <==> exists j :: 0 <= j < |claims| && claims[j].None? && f == Unrecognised(j)
  {
    fails := [];
    for j := 0 to |claims|
      invariant forall f :: f in fails <==> exists i :: 0 <= i < j && claims[i].None? && f == Unrecognised(i)
    {
      ghost var before := fails;
      if claims[j].None? {
        fails := fails + [Unrecognised(j)];
      }
      assert forall f :: f in fails <==> f in before || (claims[j].None? && f == Unrecognised(j));
    }
  }

  method CheckAssignment(spec: Spec, rows: seq<Check>) returns (fails: seq<Failure>)
    ensures fails == [] <==> AssignmentOk(spec, rows)
    ensures forall k: nat :: MissingRequired(k) in fails <==> k < |spec.required| && Hit(Declared(spec), rows, k).None?
    ensures forall j: nat :: Unrecognised(j) in fails <==> LeftOver(Declared(spec), rows, j)
  {
    hide Hit, Pick;
    var claims, wrong := AssignRows(spec, rows);
    var extra := UnclaimedRows(claims);
    fails := wrong + extra;
    AllFailures(spec, rows, wrong, extra);
    if fails != [] {
      fails := fails + [SetsDiffer];
    }
  }

  lemma AllFailures(spec: Spec, rows: seq<Check>, wrong: seq<Failure>, extra: seq<Failure>)
    requires forall f :: f in wrong <==> exists k: nat :: EntryFails(spec, rows, k, f)
    requires forall f :: f in extra <==> exists j: nat :: LeftOver(Declared(spec), rows, j) && f == Unrecognised(j)
    ensures wrong + extra == [] <==> AssignmentOk(spec, rows)
    ensures forall k: nat :: MissingRequired(k) in wrong + extra <==>
                             k < |spec.required| && Hit(Declared(spec), rows, k).None?
    ensures forall j: nat :: Unrecognised(j) in wrong + extra <==> LeftOver(Declared(spec), rows, j)
  {
    hide Hit, Assigned;
    forall k: nat
      ensures MissingRequired(k) in wrong <==> k < |spec.required| && Hit(Declared(spec), rows, k).None?
    {
      assert EntryFails(spec, rows, k, MissingRequired(k)) <==>
             k < |spec.required| && Hit(Declared(spec), rows, k).None?;
    }
    forall k: nat
      ensures WrongRequiredness(k) in wrong <==> k < |Declared(spec)| && !RightlyFlagged(spec, rows, k)
    {
      assert EntryFails(spec, rows, k, WrongRequiredness(k)) <==>
             k < |Declared(spec)| && !RightlyFlagged(spec, rows, k);
    }
    forall j: nat
      ensures Unrecognised(j) in extra <==> LeftOver(Declared(spec), rows, j)
    {
    }
    if wrong != [] {
      assert wrong[0] in wrong;
      var k: nat :| EntryFails(spec, rows, k, wrong[0]);
      assert !AssignmentOk(spec, rows);
    } else if extra != [] {
      assert extra[0] in extra;
    } else {
      assert forall k: nat :: MissingRequired(k) !in wrong && WrongRequiredness(k) !in wrong;
    }
  }

  /** Judge a results document. It is accepted when there is nothing to report. */
  method Validate(spec: Spec, asked: Request, results: Results) returns (verdict: Verdict)
    ensures verdict.Refused? <==> !Usable(spec)
    ensures verdict == Judged([]) <==> Accepts(spec, asked, results)
    ensures verdict.Judged? ==> forall k: nat :: MissingRequired(k) in verdict.fails <==>
              k < |spec.required| && Hit(Declared(spec), RowsOf(results), k).None?
    ensures verdict.Judged? ==> forall j: nat :: Unrecognised(j) in verdict.fails <==>
              LeftOver(Declared(spec), RowsOf(results), j)
  {
    hide Hit, LeftOver, AssignmentOk, BreakdownOk, RegisterOk, IdentityOk, OutcomeOk, Usable;
    var identity := CheckIdentity(asked, results);
    var outcome := CheckOutcome(spec, results);
    var breakdown := CheckBreakdown(spec, results.groups);
    var register := CheckRegister(spec, results.checks);
    var usable := IsUsable(spec);
    if !usable {
      return Refused;
    }
    var rows := CollectRows(if results.checks.None? then [] else results.checks.value);
    var assignment := CheckAssignment(spec, rows);
    var all := identity + outcome + breakdown + register + assignment;
    verdict := Judged(all);
    assert all == [] <==> identity == [] && outcome == [] && breakdown == [] && register == [] && assignment == [];
  }
}
