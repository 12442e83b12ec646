/** What a whole monitor cycle leaves open. */
module AlertCycles {
  import opened Wrappers
  import opened Alerts

  /** A cycle may renew an alert's observation, never what it is about or whether it is open. */
  predicate SameIdentity(a: Alert, b: Alert) {
    && a.about.kind == b.about.kind && a.about.dedupKey == b.about.dedupKey
    && a.about.projectId == b.about.projectId && a.about.credentialId == b.about.credentialId
    && a.createdAt == b.createdAt
  }

  predicate Raises(raised: seq<Raised>, key: string) {
    exists j :: 0 <= j < |raised| && raised[j].finding.dedupKey == key
  }

  /** Opened by one of the findings, at the time of the cycle. */
  predicate Born(a: Alert, raised: seq<Raised>, at: string) {
    && a.resolvedAt.None? && a.acknowledgedAt.None?
    && exists j :: 0 <= j < |raised| && SameIdentity(a, Alert(raised[j].finding, at, None, None))
  }

  /** At most the observation is renewed, and that only of an open alert whose condition is raised. */
  predicate Renewed(a: Alert, b: Alert, raised: seq<Raised>) {
    && SameIdentity(a, b) && a.resolvedAt == b.resolvedAt && a.acknowledgedAt == b.acknowledgedAt
    && (b != a ==> a.resolvedAt.None? && Raises(raised, a.about.dedupKey))
  }

  /** What raising findings makes of the rows, before anything is closed. */
  ghost predicate RaisedTo(rows: Rows, all: Rows, raised: seq<Raised>, at: string) {
    && OneOpen(all)
    && (forall id :: id in rows ==> id in all && Renewed(rows[id], all[id], raised))
    && (forall id :: id in all && id !in rows ==> Born(all[id], raised, at))
    && (forall j :: 0 <= j < |raised| ==> HasOpen(all, raised[j].finding.dedupKey))
  }

  lemma RaisesMore(raised: seq<Raised>, last: Raised, key: string, a: Alert, at: string)
    ensures Raises(raised + [last], key) <==> Raises(raised, key) || last.finding.dedupKey == key
    ensures Born(a, raised, at) ==> Born(a, raised + [last], at)
    ensures a == Alert(last.finding, at, None, None) ==> Born(a, raised + [last], at)
  {
    var more := raised + [last];
    assert more[|raised|] == last;
    if Raises(raised, key) {
      var j :| 0 <= j < |raised| && raised[j].finding.dedupKey == key;
      assert more[j].finding.dedupKey == key;
    }
    if Born(a, raised, at) {
      var j :| 0 <= j < |raised| && SameIdentity(a, Alert(raised[j].finding, at, None, None));
      assert SameIdentity(a, Alert(more[j].finding, at, None, None));
    }
    if a == Alert(last.finding, at, None, None) {
      assert SameIdentity(a, Alert(more[|raised|].finding, at, None, None));
    }
  }

  /** An insert changes only the open alert of its key, or adds one. */
  lemma InsertAt(rows: Rows, f: Finding, id: string, at: string, i: string)
    requires id !in rows && OneOpen(rows) && i in Insert(rows, f, id, at)
    ensures i in rows ==> SameIdentity(rows[i], Insert(rows, f, id, at)[i])
                          && rows[i].resolvedAt == Insert(rows, f, id, at)[i].resolvedAt
                          && rows[i].acknowledgedAt == Insert(rows, f, id, at)[i].acknowledgedAt
                          && (Insert(rows, f, id, at)[i] != rows[i] ==> IsOpen(rows[i], f.dedupKey))
    ensures i !in rows ==> Insert(rows, f, id, at)[i] == Alert(f, at, None, None)
  {
  }

  lemma InsertKeepsOpen(rows: Rows, f: Finding, id: string, at: string, key: string)
    requires id !in rows && OneOpen(rows) && HasOpen(rows, key)
    ensures HasOpen(Insert(rows, f, id, at), key)
  {
    var i :| i in rows && IsOpen(rows[i], key);
    assert IsOpen(Insert(rows, f, id, at)[i], key);
  }

  lemma InsertKeys(rows: Rows, f: Finding, id: string, at: string)
    ensures rows.Keys <= Insert(rows, f, id, at).Keys <= rows.Keys + {id}
  {
  }

  /** One more finding raised: what it makes of an alert that was there before the cycle. */
  lemma OldAfterRaise(rows: Rows, all: Rows, raised: seq<Raised>, last: Raised, id: string, at: string, i: string)
    requires RaisedTo(rows, all, raised, at) && id !in all && i in rows
    ensures var next := Insert(all, last.finding, id, at); i in next && Renewed(rows[i], next[i], raised + [last])
  {
    hide Insert, HasOpen, OneOpen, Raises, Born;
    InsertKeys(all, last.finding, id, at);
    InsertAt(all, last.finding, id, at, i);
    RaisesMore(raised, last, rows[i].about.dedupKey, all[i], at);
  }

  /** And of one that the cycle has opened. */
  lemma NewAfterRaise(rows: Rows, all: Rows, raised: seq<Raised>, last: Raised, id: string, at: string, i: string)
    requires RaisedTo(rows, all, raised, at) && id !in all && i in Insert(all, last.finding, id, at) && i !in rows
    ensures Born(Insert(all, last.finding, id, at)[i], raised + [last], at)
  {
    var next := Insert(all, last.finding, id, at);
    hide Insert, HasOpen, OneOpen, Raises, Born, SameIdentity;
    InsertAt(all, last.finding, id, at, i);
    RaisesMore(raised, last, "", next[i], at);
    if i in all {
      BornAfter(all[i], next[i], raised + [last], at);
      RaisesMore(raised, last, "", all[i], at);
    }
  }

  lemma RaiseOne(rows: Rows, all: Rows, raised: seq<Raised>, last: Raised, id: string, at: string)
    requires RaisedTo(rows, all, raised, at) && id !in all
    ensures RaisedTo(rows, Insert(all, last.finding, id, at), raised + [last], at)
  {
    var next, more := Insert(all, last.finding, id, at), raised + [last];
    InsertKeepsOne(all, last.finding, id, at);
    hide Insert, HasOpen, OneOpen, Renewed, Born;
    forall i | i in rows
      ensures i in next && Renewed(rows[i], next[i], more)
    {
      OldAfterRaise(rows, all, raised, last, id, at, i);
    }
    forall i | i in next && i !in rows
      ensures Born(next[i], more, at)
    {
      NewAfterRaise(rows, all, raised, last, id, at, i);
    }
    KeepsAllOpen(all, raised, last, id, at);
  }

  lemma KeepsAllOpen(all: Rows, raised: seq<Raised>, last: Raised, id: string, at: string)
    requires OneOpen(all) && id !in all && forall j :: 0 <= j < |raised| ==> HasOpen(all, raised[j].finding.dedupKey)
    ensures forall j :: 0 <= j < |raised + [last]| ==> HasOpen(Insert(all, last.finding, id, at), (raised + [last])[j].finding.dedupKey)
  {
    InsertKeepsOne(all, last.finding, id, at);
    hide Insert, HasOpen, OneOpen;
    var more := raised + [last];
    forall j | 0 <= j < |more|
      ensures HasOpen(Insert(all, last.finding, id, at), more[j].finding.dedupKey)
    {
      if j < |raised| {
        assert more[j] == raised[j];
        InsertKeepsOpen(all, last.finding, id, at, raised[j].finding.dedupKey);
      }
    }
  }

  lemma BornAfter(a: Alert, b: Alert, raised: seq<Raised>, at: string)
    requires SameIdentity(a, b) && a.resolvedAt == b.resolvedAt && a.acknowledgedAt == b.acknowledgedAt
    ensures Born(a, raised, at) ==> Born(b, raised, at)
  {
  }

  lemma {:induction false} RaiseAllKeys(rows: Rows, raised: seq<Raised>, ids: seq<string>, at: string)
    requires |ids| == |raised|
    ensures forall id :: id in RaiseAll(rows, raised, ids, at) ==> id in rows || id in ids
  {
    if raised != [] {
      var n := |raised| - 1;
      RaiseAllKeys(rows, raised[..n], ids[..n], at);
      InsertKeys(RaiseAll(rows, raised[..n], ids[..n], at), raised[n].finding, ids[n], at);
    }
  }

  lemma {:induction false} RaiseAllMeans(rows: Rows, raised: seq<Raised>, ids: seq<string>, at: string)
    requires OneOpen(rows) && Fresh(rows, ids) && |ids| == |raised|
    ensures RaisedTo(rows, RaiseAll(rows, raised, ids, at), raised, at)
  {
    if raised != [] {
      var n := |raised| - 1;
      assert Fresh(rows, ids[..n]);
      RaiseAllMeans(rows, raised[..n], ids[..n], at);
      RaiseAllKeys(rows, raised[..n], ids[..n], at);
      assert raised[..n] + [raised[n]] == raised;
      var all := RaiseAll(rows, raised[..n], ids[..n], at);
      hide RaisedTo, Insert;
      RaiseOne(rows, all, raised[..n], raised[n], ids[n], at);
    }
  }

  /** The keys of the open alerts of given kinds. */
  function OpenKeys(rows: Rows, kinds: set<string>): set<string> {
    set id | id in rows && rows[id].resolvedAt.None? && rows[id].about.kind in kinds :: rows[id].about.dedupKey
  }

  /** The keys of the open alerts of all other kinds. */
  function OtherOpenKeys(rows: Rows, kinds: set<string>): set<string> {
    set id | id in rows && rows[id].resolvedAt.None? && rows[id].about.kind !in kinds :: rows[id].about.dedupKey
  }

  function UntrackedKeys(raised: seq<Raised>): set<string> {
    set j | 0 <= j < |raised| && !raised[j].tracked :: raised[j].finding.dedupKey
  }

  /**
   What a cycle does to any rows: every tracked condition has its one open alert; no alert of a
   managed kind stays open without its condition; the cycle closes nothing else, and touches
   nothing it does not raise or close.
   */
  lemma CycleMeans(rows: Rows, raised: seq<Raised>, ids: seq<string>, managed: set<string>, at: string)
    requires OneOpen(rows) && Fresh(rows, ids) && |ids| == |raised|
    ensures var next := Cycle(rows, raised, ids, managed, at);
            && OneOpen(next)
            && (forall key :: key in ActiveKeys(raised) ==> HasOpen(next, key))
            && OpenKeys(next, managed) <= ActiveKeys(raised)
            && (forall id :: id in rows ==> id in next && SameIdentity(rows[id], next[id])
                                            && rows[id].acknowledgedAt == next[id].acknowledgedAt)
            && (forall id :: id in rows && next[id].resolvedAt != rows[id].resolvedAt ==>
                  rows[id].resolvedAt.None? && next[id].resolvedAt == Some(at)
                  && rows[id].about.kind in managed && rows[id].about.dedupKey !in ActiveKeys(raised))
            && (forall id :: id in rows && next[id] != rows[id] ==>
                  rows[id].resolvedAt.None? && (Raises(raised, rows[id].about.dedupKey) || next[id].resolvedAt.Some?))
  {
    RaiseAllMeans(rows, raised, ids, at);
    var all := RaiseAll(rows, raised, ids, at);
    var next := Cycle(rows, raised, ids, managed, at);
    CloseKeepsOne(all, Stale(all, managed, ActiveKeys(raised)), at);
    hide RaiseAll, OneOpen, Raises, Born, SameIdentity;
    forall id | id in rows
      ensures id in next && SameIdentity(rows[id], next[id]) && rows[id].acknowledgedAt == next[id].acknowledgedAt
    {
      ClosingKeeps(rows[id], all[id], next[id]);
    }
    forall key | key in ActiveKeys(raised)
      ensures HasOpen(next, key)
    {
      var j :| 0 <= j < |raised| && raised[j].tracked && raised[j].finding.dedupKey == key;
      assert HasOpen(all, raised[j].finding.dedupKey);
      var id :| id in all && IsOpen(all[id], key);
      assert IsOpen(next[id], key);
    }
  }

  /** Every alert the cycle adds is about one of its findings, and dated with the cycle. */
  lemma CycleOpens(rows: Rows, raised: seq<Raised>, ids: seq<string>, managed: set<string>, at: string)
    requires OneOpen(rows) && Fresh(rows, ids) && |ids| == |raised|
    ensures var next := Cycle(rows, raised, ids, managed, at);
            forall id :: id in next && id !in rows ==>
              exists j :: 0 <= j < |raised| && SameIdentity(next[id], Alert(raised[j].finding, at, None, None))
  {
    RaiseAllMeans(rows, raised, ids, at);
    var all := RaiseAll(rows, raised, ids, at);
    hide RaiseAll, OneOpen, HasOpen, Renewed, Stale;
  }

  // ----- what an open alert shows ----------------------------------------------------------------

  /** The alert carries what the finding observed. */
  predicate Shows(a: Alert, f: Finding) {
    && a.about.severity == f.severity && a.about.title == f.title && a.about.detail == f.detail
    && a.about.evidence == f.evidence && a.about.confidence == f.confidence
    && a.about.recommendedAction == f.recommendedAction && a.about.observedAt == f.observedAt
  }

  /** The open alert of the finding's key shows the finding. */
  predicate Shown(rows: Rows, f: Finding) {
    exists id :: id in rows && IsOpen(rows[id], f.dedupKey) && Shows(rows[id], f)
  }

  /** Whether it finds an open alert to refresh or opens one, an insert shows its finding. */
  lemma InsertShows(rows: Rows, f: Finding, id: string, at: string)
    requires id !in rows
    ensures Shown(Insert(rows, f, id, at), f)
  {
    var next := Insert(rows, f, id, at);
    if HasOpen(rows, f.dedupKey) {
      var i :| i in rows && IsOpen(rows[i], f.dedupKey);
      assert IsOpen(next[i], f.dedupKey) && Shows(next[i], f);
    } else {
      assert IsOpen(next[id], f.dedupKey) && Shows(next[id], f);
    }
  }

  lemma InsertKeepsShown(rows: Rows, f: Finding, g: Finding, id: string, at: string)
    requires id !in rows && f.dedupKey != g.dedupKey && Shown(rows, f)
    ensures Shown(Insert(rows, g, id, at), f)
  {
    var i :| i in rows && IsOpen(rows[i], f.dedupKey) && Shows(rows[i], f);
    var next := Insert(rows, g, id, at);
    assert next[i] == rows[i];
  }

  /** No later finding has the same key. */
  predicate LastOfKey(raised: seq<Raised>, j: nat)
    requires j < |raised|
  {
    forall k :: j < k < |raised| ==> raised[k].finding.dedupKey != raised[j].finding.dedupKey
  }

  lemma {:induction false} RaiseAllShows(rows: Rows, raised: seq<Raised>, ids: seq<string>, at: string, j: nat)
    requires Fresh(rows, ids) && |ids| == |raised| && j < |raised| && LastOfKey(raised, j)
    ensures Shown(RaiseAll(rows, raised, ids, at), raised[j].finding)
  {
    var n := |raised| - 1;
    assert Fresh(rows, ids[..n]);
    RaiseAllKeys(rows, raised[..n], ids[..n], at);
    hide Insert, Shown;
    var all := RaiseAll(rows, raised[..n], ids[..n], at);
    if j == n {
      InsertShows(all, raised[n].finding, ids[n], at);
    } else {
      RaiseAllShows(rows, raised[..n], ids[..n], at, j);
      InsertKeepsShown(all, raised[j].finding, raised[n].finding, ids[n], at);
    }
  }

  /** After a cycle the open alert of every tracked condition shows its last finding, field by field. */
  lemma CycleShows(rows: Rows, raised: seq<Raised>, ids: seq<string>, managed: set<string>, at: string, j: nat)
    requires Fresh(rows, ids) && |ids| == |raised| && j < |raised| && raised[j].tracked && LastOfKey(raised, j)
    ensures var next, f := Cycle(rows, raised, ids, managed, at), raised[j].finding;
            exists id :: id in next && IsOpen(next[id], f.dedupKey)
              && next[id].about.severity == f.severity && next[id].about.title == f.title && next[id].about.detail == f.detail
              && next[id].about.evidence == f.evidence && next[id].about.confidence == f.confidence
              && next[id].about.recommendedAction == f.recommendedAction && next[id].about.observedAt == f.observedAt
  {
    RaiseAllShows(rows, raised, ids, at, j);
    hide RaiseAll;
    var all, f := RaiseAll(rows, raised, ids, at), raised[j].finding;
    var id :| id in all && IsOpen(all[id], f.dedupKey) && Shows(all[id], f);
    var next := Cycle(rows, raised, ids, managed, at);
    assert f.dedupKey in ActiveKeys(raised);
    assert next[id] == all[id];
  }

  lemma ClosingKeeps(a: Alert, b: Alert, c: Alert)
    requires SameIdentity(a, b) && c == b.(resolvedAt := c.resolvedAt)
    ensures SameIdentity(a, c)
  {
  }

  /** Every key stands for a condition of one kind, and the tracked ones are the managed kinds. */
  ghost predicate KindsAgree(rows: Rows, raised: seq<Raised>, managed: set<string>, kindOf: string -> string) {
    && (forall id :: id in rows && rows[id].resolvedAt.None? ==> rows[id].about.kind == kindOf(rows[id].about.dedupKey))
    && (forall j :: 0 <= j < |raised| ==>
          raised[j].finding.kind == kindOf(raised[j].finding.dedupKey) && (raised[j].tracked <==> raised[j].finding.kind in managed))
  }

  lemma KindsAfterRaise(rows: Rows, all: Rows, raised: seq<Raised>, at: string, managed: set<string>, kindOf: string -> string)
    requires RaisedTo(rows, all, raised, at) && KindsAgree(rows, raised, managed, kindOf)
    ensures forall id :: id in all && all[id].resolvedAt.None? ==> (all[id].about.kind == kindOf(all[id].about.dedupKey))
  {
    hide OneOpen, HasOpen, Raises;
    forall id | id in all && all[id].resolvedAt.None?
      ensures all[id].about.kind == kindOf(all[id].about.dedupKey)
    {
      if id in rows {
        assert SameIdentity(rows[id], all[id]);
      } else {
        assert Born(all[id], raised, at);
      }
    }
  }

  /** The open alerts of managed kinds are then exactly the conditions the cycle found. */
  lemma ManagedExactly(rows: Rows, raised: seq<Raised>, ids: seq<string>, managed: set<string>, at: string, kindOf: string -> string)
    requires OneOpen(rows) && Fresh(rows, ids) && |ids| == |raised| && KindsAgree(rows, raised, managed, kindOf)
    ensures OpenKeys(Cycle(rows, raised, ids, managed, at), managed) == ActiveKeys(raised)
  {
    CycleMeans(rows, raised, ids, managed, at);
    RaiseAllMeans(rows, raised, ids, at);
    var all, next := RaiseAll(rows, raised, ids, at), Cycle(rows, raised, ids, managed, at);
    KindsAfterRaise(rows, all, raised, at, managed, kindOf);
    forall key | key in ActiveKeys(raised)
      ensures key in OpenKeys(next, managed)
    {
      var j :| 0 <= j < |raised| && raised[j].tracked && raised[j].finding.dedupKey == key;
      assert HasOpen(next, key);
      var id :| id in next && IsOpen(next[id], key);
      assert id in all && all[id] == next[id];
    }
  }

  /**
   Alerts of other kinds, such as a repository exposure, stay open whether or not they are
   raised again; one not raised again is left exactly as it was.
   */
  lemma OthersStay(rows: Rows, raised: seq<Raised>, ids: seq<string>, managed: set<string>, at: string, kindOf: string -> string)
    requires OneOpen(rows) && Fresh(rows, ids) && |ids| == |raised| && KindsAgree(rows, raised, managed, kindOf)
    ensures var next := Cycle(rows, raised, ids, managed, at);
            && OtherOpenKeys(next, managed) == OtherOpenKeys(rows, managed) + UntrackedKeys(raised)
            && forall id :: id in rows && rows[id].about.kind !in managed && !Raises(raised, rows[id].about.dedupKey) ==>
                 id in next && next[id] == rows[id]
  {
    CycleMeans(rows, raised, ids, managed, at);
    RaiseAllMeans(rows, raised, ids, at);
    hide OneOpen, Raises;
    var all, next := RaiseAll(rows, raised, ids, at), Cycle(rows, raised, ids, managed, at);
    KindsAfterRaise(rows, all, raised, at, managed, kindOf);
    var untracked := UntrackedKeys(raised);
    forall key | key in OtherOpenKeys(next, managed)
      ensures key in OtherOpenKeys(rows, managed) + untracked
    {
      var id :| id in next && next[id].resolvedAt.None? && next[id].about.kind !in managed && next[id].about.dedupKey == key;
      assert id in all && all[id] == next[id];
      if id !in rows {
        assert Born(all[id], raised, at);
      }
    }
    forall key | key in OtherOpenKeys(rows, managed)
      ensures key in OtherOpenKeys(next, managed)
    {
      var id :| id in rows && rows[id].resolvedAt.None? && rows[id].about.kind !in managed && rows[id].about.dedupKey == key;
      assert SameIdentity(rows[id], next[id]);
      assert next[id].about.dedupKey == key;
    }
    forall key | key in untracked
      ensures key in OtherOpenKeys(next, managed)
    {
      var j :| 0 <= j < |raised| && !raised[j].tracked && raised[j].finding.dedupKey == key;
      assert HasOpen(all, raised[j].finding.dedupKey);
      var id :| id in all && IsOpen(all[id], key);
      assert all[id].about.kind !in managed;
      assert id in next && next[id] == all[id];
    }
  }
}
