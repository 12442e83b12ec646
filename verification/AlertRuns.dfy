/**
 Many monitors and users on one alert table. Each statement is atomic, but an upsert is a SELECT
 followed by a write, and a sweep is a SELECT followed by one UPDATE per alert; anything may
 happen in between.
 */
module AlertRuns {
  import opened Wrappers
  import opened Alerts
  import opened AlertCycles

  type Monitor = nat

  /** An upsert that has run its SELECT. */
  datatype Pending = Pending(finding: Finding, found: Option<string>)

  /** A sweep that has run its SELECT: the alerts still to close, and the number closed so far. */
  datatype Sweep = Sweep(left: set<string>, resolved: nat)

  datatype System = System(rows: Rows, upserts: map<Monitor, Pending>, sweeps: map<Monitor, Sweep>)

  const START := System(map[], map[], map[])

  datatype Event =
    | SelectOpen(m: Monitor, finding: Finding)
    | FinishUpsert(m: Monitor, id: string, at: string)
    | SelectStale(m: Monitor, kinds: set<string>, active: set<string>)
    | CloseNext(m: Monitor, id: string, at: string)
    | CloseKey(key: string, at: string)
    | Acknowledge(id: string, at: string)
    | Resolve(id: string, at: string)

  ghost function Found(rows: Rows, key: string): (found: Option<string>)
    ensures found.Some? ==> found.value in rows && IsOpen(rows[found.value], key)
    ensures found.None? <==> !HasOpen(rows, key)
  {
    if HasOpen(rows, key) then
      var id :| id in rows && IsOpen(rows[id], key);
      Some(id)
    else None
  }

  function Finish(rows: Rows, p: Pending, id: string, at: string): Rows {
    if p.found.Some? then UpdateById(rows, p.found.value, p.finding) else Insert(rows, p.finding, id, at)
  }

  /** One event; a new alert's identifier is not yet in use. */
  ghost function Step(s: System, e: Event): System {
    match e
    case SelectOpen(m, f) => s.(upserts := s.upserts[m := Pending(f, Found(s.rows, f.dedupKey))])
    case FinishUpsert(m, id, at) =>
      if m !in s.upserts || id in s.rows then s
      else s.(rows := Finish(s.rows, s.upserts[m], id, at), upserts := s.upserts - {m})
    case SelectStale(m, kinds, active) => s.(sweeps := s.sweeps[m := Sweep(Stale(s.rows, kinds, active), 0)])
    case CloseNext(m, id, at) =>
      if m !in s.sweeps || id !in s.sweeps[m].left then s
      else s.(rows := CloseAll(s.rows, {id}, at),
              sweeps := s.sweeps[m := Sweep(s.sweeps[m].left - {id}, s.sweeps[m].resolved + 1)])
    case CloseKey(key, at) => s.(rows := CloseAll(s.rows, OpenOfKey(s.rows, key), at))
    case Acknowledge(id, at) =>
      if id !in s.rows then s
      else s.(rows := s.rows[id := s.rows[id].(acknowledgedAt := First(s.rows[id].acknowledgedAt, at))])
    case Resolve(id, at) =>
      if id !in s.rows then s
      else s.(rows := s.rows[id := s.rows[id].(resolvedAt := First(s.rows[id].resolvedAt, at))])
  }

  ghost function Run(s: System, events: seq<Event>): System {
    if events == [] then s else Step(Run(s, events[..|events| - 1]), events[|events| - 1])
  }

  // ----- safety ------------------------------------------------------------------------------

  /** One open alert per key, and what each pending statement will touch is about what it selected. */
  ghost predicate Good(s: System) {
    && OneOpen(s.rows)
    && (forall m :: m in s.upserts && s.upserts[m].found.Some? ==>
          s.upserts[m].found.value in s.rows
          && s.rows[s.upserts[m].found.value].about.dedupKey == s.upserts[m].finding.dedupKey)
    && (forall m :: m in s.sweeps ==> s.sweeps[m].left <= s.rows.Keys)
  }

  /** Alerts are never deleted, mistaken for others, reopened or unacknowledged. */
  ghost predicate Follows(rows: Rows, next: Rows) {
    forall id :: id in rows ==>
      && id in next && SameIdentity(rows[id], next[id])
      && (rows[id].resolvedAt.Some? ==> next[id].resolvedAt.Some?)
      && (rows[id].acknowledgedAt.Some? ==> next[id].acknowledgedAt == rows[id].acknowledgedAt)
  }

  lemma UpdateKeeps(rows: Rows, id: string, f: Finding)
    requires OneOpen(rows)
    ensures OneOpen(UpdateById(rows, id, f)) && Follows(rows, UpdateById(rows, id, f))
  {
  }

  lemma InsertFollows(rows: Rows, f: Finding, id: string, at: string)
    requires id !in rows
    ensures Follows(rows, Insert(rows, f, id, at))
  {
  }

  lemma PendingStays(s: System, rows: Rows)
    requires Good(s) && Follows(s.rows, rows) && OneOpen(rows)
    ensures Good(s.(rows := rows))
  {
    hide OneOpen;
    forall m | m in s.upserts && s.upserts[m].found.Some?
      ensures s.upserts[m].found.value in rows
      ensures rows[s.upserts[m].found.value].about.dedupKey == s.upserts[m].finding.dedupKey
    {
      assert SameIdentity(s.rows[s.upserts[m].found.value], rows[s.upserts[m].found.value]);
    }
  }

  lemma CloseFollows(rows: Rows, ids: set<string>, at: string)
    requires OneOpen(rows)
    ensures OneOpen(CloseAll(rows, ids, at)) && Follows(rows, CloseAll(rows, ids, at))
  {
  }

  lemma TimeFollows(rows: Rows, id: string, a: Alert)
    requires OneOpen(rows) && id in rows && a.about == rows[id].about && a.createdAt == rows[id].createdAt
    requires rows[id].resolvedAt.Some? ==> a.resolvedAt.Some?
    requires rows[id].acknowledgedAt.Some? ==> a.acknowledgedAt == rows[id].acknowledgedAt
    ensures OneOpen(rows[id := a]) && Follows(rows, rows[id := a])
  {
  }

  lemma FinishFollows(rows: Rows, p: Pending, id: string, at: string)
    requires OneOpen(rows) && id !in rows
    ensures OneOpen(Finish(rows, p, id, at)) && Follows(rows, Finish(rows, p, id, at))
  {
    if p.found.Some? {
      UpdateKeeps(rows, p.found.value, p.finding);
    } else {
      InsertKeepsOne(rows, p.finding, id, at);
      InsertFollows(rows, p.finding, id, at);
    }
  }

  lemma SameFollows(rows: Rows)
    ensures Follows(rows, rows)
  {
  }

  lemma RowsStep(s: System, e: Event)
    requires Good(s)
    ensures OneOpen(Step(s, e).rows) && Follows(s.rows, Step(s, e).rows)
  {
    hide OneOpen, Follows, Finish, CloseAll, OpenOfKey, Stale, Found;
    SameFollows(s.rows);
    match e
    case FinishUpsert(m, id, at) =>
      if m in s.upserts && id !in s.rows {
        FinishFollows(s.rows, s.upserts[m], id, at);
      }
    case CloseNext(m, id, at) => CloseFollows(s.rows, {id}, at);
    case CloseKey(key, at) => CloseFollows(s.rows, OpenOfKey(s.rows, key), at);
    case Acknowledge(id, at) =>
      if id in s.rows {
        TimeFollows(s.rows, id, s.rows[id].(acknowledgedAt := First(s.rows[id].acknowledgedAt, at)));
      }
    case Resolve(id, at) =>
      if id in s.rows {
        TimeFollows(s.rows, id, s.rows[id].(resolvedAt := First(s.rows[id].resolvedAt, at)));
      }
    case _ =>
  }

  lemma GoodStep(s: System, e: Event)
    requires Good(s)
    ensures Good(Step(s, e)) && Follows(s.rows, Step(s, e).rows)
  {
    RowsStep(s, e);
    PendingStays(s, Step(s, e).rows);
    hide OneOpen, Follows, Insert, UpdateById, CloseAll, Refreshed, HasOpen;
  }

  lemma FollowsAll(a: Rows, b: Rows, c: Rows)
    requires Follows(a, b) && Follows(b, c)
    ensures Follows(a, c)
  {
  }

  /**
   However statements of any number of monitors interleave, no key ever has two open alerts, and
   no alert is deleted, changed into another, reopened, or given a second acknowledgement.
   */
  lemma {:induction false} AlertsAlways(s: System, events: seq<Event>)
    requires Good(s)
    ensures Good(Run(s, events)) && Follows(s.rows, Run(s, events).rows)
  {
    if events != [] {
      var n := |events| - 1;
      AlertsAlways(s, events[..n]);
      hide Good, Follows, Step;
      GoodStep(Run(s, events[..n]), events[n]);
      FollowsAll(s.rows, Run(s, events[..n]).rows, Run(s, events).rows);
    } else {
      assert Follows(s.rows, s.rows);
    }
  }

  lemma OneOpenAlways(events: seq<Event>, key: string)
    ensures |OpenOfKey(Run(START, events).rows, key)| <= 1
  {
    AlertsAlways(START, events);
    var open := OpenOfKey(Run(START, events).rows, key);
    hide Run;
    if |open| > 0 {
      var id :| id in open;
      assert open == {id};
    }
  }

  // ----- what single statements do -------------------------------------------------------------

  /** A first acknowledgement and a first resolution are dated as they came; later ones change nothing. */
  lemma TimesStick(s: System, id: string, at: string)
    requires id in s.rows
    ensures var a, r := s.rows[id], Step(s, Acknowledge(id, at)).rows;
            && r.Keys == s.rows.Keys && (forall i :: i in r && i != id ==> r[i] == s.rows[i])
            && r[id].about == a.about && r[id].createdAt == a.createdAt && r[id].resolvedAt == a.resolvedAt
            && r[id].acknowledgedAt == if a.acknowledgedAt.Some? then a.acknowledgedAt else Some(at)
    ensures var a, r := s.rows[id], Step(s, Resolve(id, at)).rows;
            && r.Keys == s.rows.Keys && (forall i :: i in r && i != id ==> r[i] == s.rows[i])
            && r[id].about == a.about && r[id].createdAt == a.createdAt && r[id].acknowledgedAt == a.acknowledgedAt
            && r[id].resolvedAt == if a.resolvedAt.Some? then a.resolvedAt else Some(at)
  {
  }

  /** Closing by key resolves exactly the open alerts of that key, at that time, and changes nothing else. */
  lemma CloseKeyMeans(s: System, key: string, at: string)
    ensures var r := Step(s, CloseKey(key, at)).rows;
            && r.Keys == s.rows.Keys
            && forall id :: id in r ==>
                 if s.rows[id].resolvedAt.None? && s.rows[id].about.dedupKey == key
                 then r[id] == s.rows[id].(resolvedAt := Some(at)) else r[id] == s.rows[id]
  {
  }

  /** A sweep selects exactly the open alerts of its kinds that stand for no active condition, and closes them one by one. */
  lemma SweepMeans(s: System, m: Monitor, kinds: set<string>, active: set<string>, id: string, at: string)
    ensures var begun := Step(s, SelectStale(m, kinds, active));
            && begun.rows == s.rows && m in begun.sweeps && begun.sweeps[m].resolved == 0
            && forall i :: i in begun.sweeps[m].left <==>
                 && i in s.rows && s.rows[i].resolvedAt.None? && s.rows[i].about.kind in kinds
                 && s.rows[i].about.dedupKey !in active
    ensures m in s.sweeps && id in s.sweeps[m].left ==>
              var r := Step(s, CloseNext(m, id, at));
              && r.rows.Keys == s.rows.Keys && (forall i :: i in r.rows && i != id ==> r.rows[i] == s.rows[i])
              && (id in s.rows ==> r.rows[id] == s.rows[id].(resolvedAt := Some(at)))
              && m in r.sweeps && r.sweeps[m].left == s.sweeps[m].left - {id} && r.sweeps[m].resolved == s.sweeps[m].resolved + 1
  {
  }

  // ----- what an upsert leaves, whatever came between its statements -----------------------------

  ghost predicate Untouched(m: Monitor, events: seq<Event>) {
    forall i :: 0 <= i < |events| ==> !(events[i].SelectOpen? && events[i].m == m) && !(events[i].FinishUpsert? && events[i].m == m)
  }

  lemma {:induction false} PendingUntil(s: System, m: Monitor, events: seq<Event>)
    requires m in s.upserts && Untouched(m, events)
    ensures m in Run(s, events).upserts && Run(s, events).upserts[m] == s.upserts[m]
  {
    if events != [] {
      PendingUntil(s, m, events[..|events| - 1]);
    }
  }

  /**
   An upsert leaves its condition open unless it had selected an alert that was closed before the
   write and nobody opened another. It reports an alert as created exactly when it had selected
   none, and it did create one exactly when there still was none at the write.
   */
  lemma UpsertOutcome(s: System, m: Monitor, f: Finding, between: seq<Event>, id: string, at: string)
    requires Good(s) && Untouched(m, between)
    requires id !in Run(Step(s, SelectOpen(m, f)), between).rows
    ensures var mid := Run(Step(s, SelectOpen(m, f)), between);
            var end := Step(mid, FinishUpsert(m, id, at));
            && (HasOpen(end.rows, f.dedupKey) <==> !HasOpen(s.rows, f.dedupKey) || HasOpen(mid.rows, f.dedupKey))
            && m in mid.upserts && (mid.upserts[m].found.None? <==> !HasOpen(s.rows, f.dedupKey))
            && (|end.rows| == |mid.rows| + 1 <==> !HasOpen(s.rows, f.dedupKey) && !HasOpen(mid.rows, f.dedupKey))
  {
    var begun := Step(s, SelectOpen(m, f));
    GoodStep(s, SelectOpen(m, f));
    AlertsAlways(begun, between);
    PendingUntil(begun, m, between);
    hide Run;
    FinishOutcome(Run(begun, between), m, id, at);
  }

  lemma FinishOutcome(s: System, m: Monitor, id: string, at: string)
    requires Good(s) && m in s.upserts && id !in s.rows
    ensures var p := s.upserts[m];
            var end := Step(s, FinishUpsert(m, id, at));
            && (HasOpen(end.rows, p.finding.dedupKey) <==> p.found.None? || HasOpen(s.rows, p.finding.dedupKey))
            && (|end.rows| == |s.rows| + 1 <==> p.found.None? && !HasOpen(s.rows, p.finding.dedupKey))
  {
    var p := s.upserts[m];
    var key := p.finding.dedupKey;
    if p.found.Some? {
      UpdateOpens(s.rows, p.found.value, p.finding, key);
    } else {
      InsertKeepsOne(s.rows, p.finding, id, at);
      InsertSize(s.rows, p.finding, id, at);
    }
  }

  lemma UpdateOpens(rows: Rows, id: string, f: Finding, key: string)
    ensures HasOpen(UpdateById(rows, id, f), key) <==> HasOpen(rows, key)
    ensures |UpdateById(rows, id, f)| == |rows|
  {
    var next := UpdateById(rows, id, f);
    assert next.Keys == rows.Keys;
    assert forall i :: i in rows ==> (IsOpen(next[i], key) <==> IsOpen(rows[i], key));
  }

  lemma InsertSize(rows: Rows, f: Finding, id: string, at: string)
    requires id !in rows
    ensures |Insert(rows, f, id, at)| == |rows| + if HasOpen(rows, f.dedupKey) then 0 else 1
  {
    if HasOpen(rows, f.dedupKey) {
      assert Insert(rows, f, id, at).Keys == rows.Keys;
    }
  }

  /** What an upsert reports is whether it created an alert, unless the condition was opened in between. */
  lemma ReportedCreated(s: System, m: Monitor, f: Finding, between: seq<Event>, id: string, at: string)
    requires Good(s) && Untouched(m, between)
    requires id !in Run(Step(s, SelectOpen(m, f)), between).rows
    ensures var mid := Run(Step(s, SelectOpen(m, f)), between);
            var end := Step(mid, FinishUpsert(m, id, at));
            && m in mid.upserts
            && ((mid.upserts[m].found.None? <==> |end.rows| == |mid.rows| + 1)
                <==> (HasOpen(s.rows, f.dedupKey) || !HasOpen(mid.rows, f.dedupKey)))
  {
    UpsertOutcome(s, m, f, between, id, at);
  }

  predicate Closing(e: Event) {
    e.CloseNext? || e.CloseKey? || e.Resolve?
  }

  lemma StaysOpenStep(s: System, e: Event, id: string)
    requires Good(s) && id in s.rows && s.rows[id].resolvedAt.None? && !Closing(e)
    ensures id in Step(s, e).rows && Step(s, e).rows[id].resolvedAt.None?
  {
  }

  lemma {:induction false} StaysOpen(s: System, events: seq<Event>, id: string)
    requires Good(s) && id in s.rows && s.rows[id].resolvedAt.None?
    requires forall i :: 0 <= i < |events| ==> !Closing(events[i])
    ensures id in Run(s, events).rows && Run(s, events).rows[id].resolvedAt.None?
  {
    if events != [] {
      var n := |events| - 1;
      StaysOpen(s, events[..n], id);
      AlertsAlways(s, events[..n]);
      hide Step, Good;
      StaysOpenStep(Run(s, events[..n]), events[n], id);
    }
  }

  /** With no closing in between, the condition is open afterwards and shows what was found. */
  lemma UpsertHolds(s: System, m: Monitor, f: Finding, between: seq<Event>, id: string, at: string)
    requires Good(s) && Untouched(m, between) && forall i :: 0 <= i < |between| ==> !Closing(between[i])
    requires id !in Run(Step(s, SelectOpen(m, f)), between).rows
    ensures var end := Step(Run(Step(s, SelectOpen(m, f)), between), FinishUpsert(m, id, at));
            exists i :: i in end.rows && IsOpen(end.rows[i], f.dedupKey)
              && end.rows[i].about.severity == f.severity && end.rows[i].about.title == f.title
              && end.rows[i].about.detail == f.detail && end.rows[i].about.evidence == f.evidence
              && end.rows[i].about.confidence == f.confidence
              && end.rows[i].about.recommendedAction == f.recommendedAction && end.rows[i].about.observedAt == f.observedAt
  {
    var begun := Step(s, SelectOpen(m, f));
    GoodStep(s, SelectOpen(m, f));
    AlertsAlways(begun, between);
    PendingUntil(begun, m, between);
    var found := Found(s.rows, f.dedupKey);
    if found.Some? {
      StaysOpen(begun, between, found.value);
    }
    var mid := Run(begun, between);
    hide Run, Untouched;
    var end := Step(mid, FinishUpsert(m, id, at));
    if found.Some? {
      assert IsOpen(end.rows[found.value], f.dedupKey) && Shows(end.rows[found.value], f);
    } else {
      InsertShows(mid.rows, f, id, at);
      hide Insert;
      var i :| i in end.rows && IsOpen(end.rows[i], f.dedupKey) && Shows(end.rows[i], f);
    }
  }

  // ----- sweeps ---------------------------------------------------------------------------------

  predicate Overwrites(e: Event, id: string) {
    e.CloseNext? && e.id == id
  }

  lemma ResolvedStep(s: System, e: Event, id: string)
    requires Good(s) && id in s.rows && s.rows[id].resolvedAt.Some? && !Overwrites(e, id)
    ensures id in Step(s, e).rows && Step(s, e).rows[id].resolvedAt == s.rows[id].resolvedAt
  {
  }

  /** Only the per-alert UPDATE of a sweep can change when an alert was resolved. */
  lemma {:induction false} ResolvedOnce(s: System, events: seq<Event>, id: string)
    requires Good(s) && id in s.rows && s.rows[id].resolvedAt.Some?
    requires forall i :: 0 <= i < |events| ==> !Overwrites(events[i], id)
    ensures id in Run(s, events).rows && Run(s, events).rows[id].resolvedAt == s.rows[id].resolvedAt
  {
    if events != [] {
      var n := |events| - 1;
      ResolvedOnce(s, events[..n], id);
      AlertsAlways(s, events[..n]);
      hide Step, Good;
      ResolvedStep(Run(s, events[..n]), events[n], id);
    }
  }

  // ----- what interleaving costs, shown by runs ---------------------------------------------------

  /** A state holding one alert, open since `at`. */
  function Holding(f: Finding, at: string): System {
    System(map["1" := Alert(f, at, None, None)], map[], map[])
  }

  /** An alert resolved between the two statements: the finding is reported, and nothing is open. */
  lemma LostFinding(f: Finding, at: string)
    ensures Good(Holding(f, at))
    ensures var s := Holding(f, at);
            !HasOpen(Step(Step(Step(s, SelectOpen(0, f)), CloseKey(f.dedupKey, at)), FinishUpsert(0, "2", at)).rows, f.dedupKey)
  {
    var s := Holding(f, at);
    assert IsOpen(s.rows["1"], f.dedupKey);
    var selected := Step(s, SelectOpen(0, f));
    assert selected.upserts[0].found == Some("1");
  }

  /** Two monitors find a new condition at once: both report an alert created, and there is one. */
  lemma CreatedTwice(f: Finding, at: string)
    ensures var both := Step(Step(START, SelectOpen(0, f)), SelectOpen(1, f));
            var end := Step(Step(both, FinishUpsert(0, "1", at)), FinishUpsert(1, "2", at));
            && 0 in both.upserts && both.upserts[0].found.None? && 1 in both.upserts && both.upserts[1].found.None?
            && end.rows.Keys == {"1"}
  {
    var both := Step(Step(START, SelectOpen(0, f)), SelectOpen(1, f));
    var one := Step(both, FinishUpsert(0, "1", at));
    assert IsOpen(one.rows["1"], f.dedupKey);
  }

  /** Two sweeps at once: the one alert is counted by both, and resolved at the later time. */
  lemma ClosedTwice(f: Finding, at: string, first: string, second: string)
    ensures var kinds := {f.kind};
            var both := Step(Step(Holding(f, at), SelectStale(0, kinds, {})), SelectStale(1, kinds, {}));
            var end := Step(Step(both, CloseNext(0, "1", first)), CloseNext(1, "1", second));
            && 0 in end.sweeps && 1 in end.sweeps && end.sweeps[0].resolved + end.sweeps[1].resolved == 2
            && "1" in end.rows && end.rows["1"].resolvedAt == Some(second)
  {
    var s := Holding(f, at);
    assert "1" in Stale(s.rows, {f.kind}, {});
  }
}
