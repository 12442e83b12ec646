/**
 The alert table: one open alert per condition, refreshed while the condition holds, closed when
 it no longer does. `Store` runs the statements; the functions say what a statement makes of the
 rows.
 */
module Alerts {
  import opened Wrappers
  import opened Sql

  /** What a monitor rule found, keyed by the condition it stands for. */
  datatype Finding = Finding(
    kind: string, severity: string, dedupKey: string, title: string, detail: string, evidence: string,
    confidence: string, recommendedAction: string, projectId: Option<string>, credentialId: Option<string>,
    observedAt: string)

  datatype Alert = Alert(about: Finding, createdAt: string, acknowledgedAt: Option<string>, resolvedAt: Option<string>)

  type Rows = map<string, Alert>

  predicate IsOpen(a: Alert, key: string) {
    a.resolvedAt.None? && a.about.dedupKey == key
  }

  predicate HasOpen(rows: Rows, key: string) {
    exists id :: id in rows && IsOpen(rows[id], key)
  }

  /** What the partial unique index keeps: no two open alerts share a key. */
  ghost predicate OneOpen(rows: Rows) {
    forall i, j :: i in rows && j in rows && rows[i].resolvedAt.None? && IsOpen(rows[j], rows[i].about.dedupKey) ==> i == j
  }

  /** A refresh renews what was observed, and keeps what the alert is about and when it began. */
  function Refreshed(a: Alert, f: Finding): Alert {
    a.(about := f.(kind := a.about.kind, dedupKey := a.about.dedupKey,
                   projectId := a.about.projectId, credentialId := a.about.credentialId))
  }

  /** INSERT with the conflict clause: an open alert of the key is refreshed in place. */
  function Insert(rows: Rows, f: Finding, id: string, at: string): Rows {
    if HasOpen(rows, f.dedupKey) then
      map i | i in rows :: if IsOpen(rows[i], f.dedupKey) then Refreshed(rows[i], f) else rows[i]
    else
      rows[id := Alert(f, at, None, None)]
  }

  function UpdateById(rows: Rows, id: string, f: Finding): Rows {
    if id in rows then rows[id := Refreshed(rows[id], f)] else rows
  }

  function CloseAll(rows: Rows, ids: set<string>, at: string): Rows {
    map i | i in rows :: if i in ids then rows[i].(resolvedAt := Some(at)) else rows[i]
  }

  function OpenOfKey(rows: Rows, key: string): set<string> {
    set id | id in rows && IsOpen(rows[id], key)
  }

  function Open(rows: Rows): set<string> {
    set id | id in rows && rows[id].resolvedAt.None?
  }

  /** The open alerts of the given kinds whose condition is not among the active ones. */
  function Stale(rows: Rows, kinds: set<string>, active: set<string>): set<string> {
    set id | id in rows && rows[id].resolvedAt.None? && rows[id].about.kind in kinds && rows[id].about.dedupKey !in active
  }

  function NotActive(rows: Rows, ids: set<string>, active: set<string>): set<string>
    requires ids <= rows.Keys
  {
    set id | id in ids && rows[id].about.dedupKey !in active
  }

  // ----- identifiers given in short form -------------------------------------------------------

  datatype Error = NotFound | Ambiguous

  function Named(rows: Rows, short: string): set<string> {
    set id | id in rows && Like(id, short + "%")
  }

  /** The alert a full identifier names, else the only one its short form names. */
  function Resolved(rows: Rows, short: string): Result<string, Error> {
    if short in rows then Success(short)
    else
      var ids := Named(rows, short);
      if |ids| == 0 then Failure(NotFound)
      else if |ids| > 1 then Failure(Ambiguous)
      else
        OnlyOne(ids);
        var id :| id in ids;
        Success(id)
  }

  lemma OnlyOne(ids: set<string>)
    requires |ids| == 1
    ensures exists id :: ids == {id}
    ensures forall i, j :: i in ids && j in ids ==> i == j
  {
    var id :| id in ids;
    assert |ids - {id}| == 0;
  }

  /** A short form resolves exactly when it is an identifier, or a pattern for the beginning of exactly one. */
  lemma ResolvesExactly(rows: Rows, short: string, id: string)
    ensures Resolved(rows, short) == Success(id) <==>
              id in rows && (id == short || (short !in rows && Opens(id, short)
                             && forall other :: other in rows && Opens(other, short) ==> other == id))
  {
    var ids := Named(rows, short);
    forall i | i in rows
      ensures i in ids <==> Opens(i, short)
    {
      LikeOpens(i, short);
    }
    hide Like, Opens;
    if |ids| == 1 {
      OnlyOne(ids);
    }
    if id in ids && forall i :: i in ids ==> i == id {
      assert ids == {id};
    }
  }

  /** Nothing is found exactly when no identifier fits, and the short form is ambiguous when two do. */
  lemma RefusesExactly(rows: Rows, short: string)
    ensures Resolved(rows, short) == Failure(NotFound) <==> short !in rows && forall id :: id in rows ==> !Opens(id, short)
    ensures Resolved(rows, short) == Failure(Ambiguous) <==>
              short !in rows && exists i, j :: i in rows && j in rows && i != j && Opens(i, short) && Opens(j, short)
  {
    var ids := Named(rows, short);
    forall i | i in rows
      ensures i in ids <==> Opens(i, short)
    {
      LikeOpens(i, short);
    }
    hide Like, Opens;
    if ids != {} {
      var i :| i in ids;
      if ids - {i} != {} {
        var j :| j in ids - {i};
        assert |ids| == 1 + |ids - {i}|;
      } else {
        assert ids == {i};
      }
    }
  }

  /** The alert found begins with the short form, in either case, whenever the short form has no wildcard. */
  lemma PlainFormBegins(rows: Rows, short: string, id: string)
    requires '%' !in short && '_' !in short
    ensures Resolved(rows, short) == Success(id) <==>
              id in rows && (id == short || (short !in rows && Begins(id, short)
                             && forall other :: other in rows && Begins(other, short) ==> other == id))
  {
    ResolvesExactly(rows, short, id);
    forall i | i in rows
      ensures Opens(i, short) <==> Begins(i, short)
    {
      LikeOpens(i, short);
      LikeIsPrefix(i, short);
    }
    hide Resolved, Opens, Begins;
  }

  /** With a wildcard a short form can name an alert that does not begin with it. */
  lemma WildcardNamesAnother(a: Alert)
    ensures Resolved(map["ab" := a], "%b") == Success("ab") && !Begins("ab", "%b")
  {
    var rows := map["ab" := a];
    assert Like("ab", "%b") by {
      assert "ab"[1..] == "b" && "%b"[1..] == "b" && "b"[1..] == "";
      assert Like("b", "b") && Like("b", "%b");
    }
    assert "ab"[..2] == "ab";
    assert Opens("ab", "%b");
    ResolvesExactly(rows, "%b", "ab");
    assert "%b"[0] == '%' && "ab"[0] == 'a';
  }

  // ----- the store -----------------------------------------------------------------------------

  class Store {
    var rows: Rows

    constructor ()
      ensures rows == map[]
    {
      rows := map[];
    }

    method SelectOpen(key: string) returns (found: Option<string>)
      ensures found.Some? ==> found.value in rows && IsOpen(rows[found.value], key)
      ensures found.None? <==> !HasOpen(rows, key)
    {
      if id :| id in rows && IsOpen(rows[id], key) {
        return Some(id);
      }
      found := None;
    }

    method Update(id: string, f: Finding)
      modifies this
      ensures rows == UpdateById(old(rows), id, f)
    {
      if id in rows {
        rows := rows[id := Refreshed(rows[id], f)];
      }
    }

    method InsertOrRefresh(f: Finding, id: string, at: string)
      requires OneOpen(rows) && id !in rows
      modifies this
      ensures rows == Insert(old(rows), f, id, at)
    {
      var open := SelectOpen(f.dedupKey);
      if open.Some? {
        Update(open.value, f);
      } else {
        rows := rows[id := Alert(f, at, None, None)];
      }
    }

    /** The second statement of an upsert, whatever has happened since the first. */
    method FinishUpsert(found: Option<string>, f: Finding, id: string, at: string) returns (created: bool)
      requires OneOpen(rows) && id !in rows
      modifies this
      ensures created == found.None?
      ensures rows == if found.Some? then UpdateById(old(rows), found.value, f) else Insert(old(rows), f, id, at)
    {
      if found.Some? {
        Update(found.value, f);
        created := false;
      } else {
        InsertOrRefresh(f, id, at);
        created := true;
      }
    }

    /** With nothing in between, an upsert is the one statement that inserts or refreshes. */
    method Upsert(f: Finding, id: string, at: string) returns (created: bool)
      requires OneOpen(rows) && id !in rows
      modifies this
      ensures rows == Insert(old(rows), f, id, at) && OneOpen(rows)
      ensures created <==> !HasOpen(old(rows), f.dedupKey)
    {
      var found := SelectOpen(f.dedupKey);
      created := FinishUpsert(found, f, id, at);
      InsertKeepsOne(old(rows), f, id, at);
    }

    /** Close every open alert of the kinds whose key is not active; the number closed. */
    method AutoResolveStale(kinds: set<string>, active: set<string>, at: string) returns (resolved: nat)
      modifies this
      ensures rows == CloseAll(old(rows), Stale(old(rows), kinds, active), at)
      ensures resolved == |Stale(old(rows), kinds, active)|
    {
      if kinds == {} {
        assert Stale(rows, kinds, active) == {};
        CloseNone(rows, at);
        return 0;
      }
      var openIds := set id | id in rows && rows[id].resolvedAt.None? && rows[id].about.kind in kinds;
      ghost var stale := Stale(rows, kinds, active);
      assert stale == NotActive(rows, openIds, active);
      hide CloseAll, Stale, NotActive;
      resolved := CloseEach(openIds, active, at);
    }

    method CloseEach(ids: set<string>, active: set<string>, at: string) returns (resolved: nat)
      requires ids <= rows.Keys
      modifies this
      ensures rows == CloseAll(old(rows), NotActive(old(rows), ids, active), at)
      ensures resolved == |NotActive(old(rows), ids, active)|
    {
      hide CloseAll, NotActive;
      resolved := 0;
      var openIds := ids;
      ghost var before := rows;
      NoneChecked(rows, ids, active, at);
      while openIds != {}
        invariant openIds <= ids
        invariant rows == CloseAll(before, NotActive(before, ids - openIds, active), at)
        invariant resolved == |NotActive(before, ids - openIds, active)|
        decreases openIds
      {
        var id :| id in openIds;
        OneChecked(before, ids, openIds, active, id, at);
        openIds := openIds - {id};
        if rows[id].about.dedupKey !in active {
          rows := rows[id := rows[id].(resolvedAt := Some(at))];
          resolved := resolved + 1;
        }
      }
      assert ids - openIds == ids;
    }

    method ResolveByDedup(key: string, at: string) returns (resolved: nat)
      modifies this
      ensures rows == CloseAll(old(rows), OpenOfKey(old(rows), key), at)
      ensures resolved == |OpenOfKey(old(rows), key)| && !HasOpen(rows, key)
    {
      resolved := |OpenOfKey(rows, key)|;
      rows := CloseAll(rows, OpenOfKey(rows, key), at);
    }

    /** The first acknowledgement stands; an error changes nothing. */
    method Acknowledge(short: string, at: string) returns (r: Result<Alert, Error>)
      modifies this
      ensures match Resolved(old(rows), short)
              case Failure(e) => r == Failure(e) && rows == old(rows)
              case Success(id) =>
                id in old(rows)
                && rows == old(rows)[id := old(rows)[id].(acknowledgedAt := First(old(rows)[id].acknowledgedAt, at))]
                && r == Success(rows[id])
    {
      match Resolved(rows, short)
      case Failure(e) =>
        r := Failure(e);
      case Success(id) =>
        rows := rows[id := rows[id].(acknowledgedAt := First(rows[id].acknowledgedAt, at))];
        r := Success(rows[id]);
    }

    /** The first resolution stands; an error changes nothing. */
    method Resolve(short: string, at: string) returns (r: Result<Alert, Error>)
      modifies this
      ensures match Resolved(old(rows), short)
              case Failure(e) => r == Failure(e) && rows == old(rows)
              case Success(id) =>
                id in old(rows)
                && rows == old(rows)[id := old(rows)[id].(resolvedAt := First(old(rows)[id].resolvedAt, at))]
                && r == Success(rows[id])
    {
      match Resolved(rows, short)
      case Failure(e) =>
        r := Failure(e);
      case Success(id) =>
        rows := rows[id := rows[id].(resolvedAt := First(rows[id].resolvedAt, at))];
        r := Success(rows[id]);
    }

    /**
     A monitor cycle: raise every finding, then close what no longer holds. A repository exposure
     is raised but its key is not made active.
     */
    method RunMonitor(raised: seq<Raised>, ids: seq<string>, managed: set<string>, at: string)
      returns (created: nat, resolved: nat, open: nat)
      requires OneOpen(rows) && Fresh(rows, ids) && |ids| == |raised|
      modifies this
      ensures rows == Cycle(old(rows), raised, ids, managed, at) && OneOpen(rows)
      ensures open == |Open(rows)|
      ensures open == |Open(old(rows))| + created - resolved
    {
      created := 0;
      var active: set<string> := {};
      var i := 0;
      while i < |raised|
        invariant 0 <= i <= |raised|
        invariant rows == RaiseAll(old(rows), raised[..i], ids[..i], at) && OneOpen(rows)
        invariant active == ActiveKeys(raised[..i])
        invariant |Open(rows)| == |Open(old(rows))| + created
        invariant rows.Keys <= old(rows).Keys + set k | k in ids[..i]
      {
        hide ActiveKeys, RaiseAll, Open;
        RaiseStep(old(rows), raised, ids, at, i);
        assert ids[i] !in rows;
        OpenAfterInsert(rows, raised[i].finding, ids[i], at);
        if raised[i].tracked {
          active := active + {raised[i].finding.dedupKey};
        }
        var isNew := Upsert(raised[i].finding, ids[i], at);
        if isNew {
          created := created + 1;
        }
        i := i + 1;
      }
      assert raised[..i] == raised && ids[..i] == ids;
      ClosedCount(rows, Stale(rows, managed, active), at);
      CloseKeepsOne(rows, Stale(rows, managed, active), at);
      resolved := AutoResolveStale(managed, active, at);
      open := |Open(rows)|;
    }
  }

  function First(existing: Option<string>, at: string): Option<string> {
    if existing.Some? then existing else Some(at)
  }

  datatype Raised = Raised(finding: Finding, tracked: bool)

  ghost predicate Fresh(rows: Rows, ids: seq<string>) {
    && (forall i :: 0 <= i < |ids| ==> ids[i] !in rows)
    && (forall i, j :: 0 <= i < j < |ids| ==> ids[i] != ids[j])
  }

  function RaiseAll(rows: Rows, raised: seq<Raised>, ids: seq<string>, at: string): Rows
    requires |ids| == |raised|
  {
    if raised == [] then rows
    else
      var n := |raised| - 1;
      Insert(RaiseAll(rows, raised[..n], ids[..n], at), raised[n].finding, ids[n], at)
  }

  function ActiveKeys(raised: seq<Raised>): set<string> {
    set i | 0 <= i < |raised| && raised[i].tracked :: raised[i].finding.dedupKey
  }

  function Cycle(rows: Rows, raised: seq<Raised>, ids: seq<string>, managed: set<string>, at: string): Rows
    requires |ids| == |raised|
  {
    var all := RaiseAll(rows, raised, ids, at);
    CloseAll(all, Stale(all, managed, ActiveKeys(raised)), at)
  }

  lemma RaiseStep(rows: Rows, raised: seq<Raised>, ids: seq<string>, at: string, i: nat)
    requires i < |raised| == |ids|
    ensures RaiseAll(rows, raised[..i + 1], ids[..i + 1], at)
            == Insert(RaiseAll(rows, raised[..i], ids[..i], at), raised[i].finding, ids[i], at)
    ensures ActiveKeys(raised[..i + 1])
            == ActiveKeys(raised[..i]) + if raised[i].tracked then {raised[i].finding.dedupKey} else {}
  {
    assert raised[..i + 1][..i] == raised[..i] && ids[..i + 1][..i] == ids[..i];
    var more, less := raised[..i + 1], raised[..i];
    forall k | k in ActiveKeys(more)
      ensures k in ActiveKeys(less) || (raised[i].tracked && k == raised[i].finding.dedupKey)
    {
      var j :| 0 <= j < |more| && more[j].tracked && more[j].finding.dedupKey == k;
      assert j < i ==> less[j] == more[j];
    }
    forall k | k in ActiveKeys(less)
      ensures k in ActiveKeys(more)
    {
      var j :| 0 <= j < |less| && less[j].tracked && less[j].finding.dedupKey == k;
      assert more[j] == less[j];
    }
    if raised[i].tracked {
      assert more[i] == raised[i];
    }
  }

  // ----- what the statements keep -----------------------------------------------------------------

  lemma InsertKeepsOne(rows: Rows, f: Finding, id: string, at: string)
    requires OneOpen(rows) && id !in rows
    ensures OneOpen(Insert(rows, f, id, at)) && HasOpen(Insert(rows, f, id, at), f.dedupKey)
  {
    var next := Insert(rows, f, id, at);
    if HasOpen(rows, f.dedupKey) {
      var i :| i in rows && IsOpen(rows[i], f.dedupKey);
      assert IsOpen(next[i], f.dedupKey);
    } else {
      assert IsOpen(next[id], f.dedupKey);
    }
  }

  lemma CloseKeepsOne(rows: Rows, ids: set<string>, at: string)
    requires OneOpen(rows)
    ensures OneOpen(CloseAll(rows, ids, at))
  {
  }

  lemma OpenAfterInsert(rows: Rows, f: Finding, id: string, at: string)
    requires OneOpen(rows) && id !in rows
    ensures |Open(Insert(rows, f, id, at))| == |Open(rows)| + if HasOpen(rows, f.dedupKey) then 0 else 1
    ensures Insert(rows, f, id, at).Keys <= rows.Keys + {id}
  {
    hide HasOpen;
    if HasOpen(rows, f.dedupKey) {
      OpenAfterRefresh(rows, f, id, at);
    } else {
      OpenAfterNew(rows, id, Alert(f, at, None, None));
    }
  }

  lemma OpenAfterNew(rows: Rows, id: string, a: Alert)
    requires id !in rows && a.resolvedAt.None?
    ensures |Open(rows[id := a])| == |Open(rows)| + 1
  {
    assert Open(rows[id := a]) == Open(rows) + {id};
  }

  lemma OpenAfterRefresh(rows: Rows, f: Finding, id: string, at: string)
    requires HasOpen(rows, f.dedupKey)
    ensures Open(Insert(rows, f, id, at)) == Open(rows) && Insert(rows, f, id, at).Keys == rows.Keys
  {
    var next := Insert(rows, f, id, at);
    assert forall i :: i in rows ==> i in next && next[i].resolvedAt == rows[i].resolvedAt;
    hide Insert, HasOpen;
  }

  lemma CloseNone(rows: Rows, at: string)
    ensures CloseAll(rows, {}, at) == rows
  {
  }

  lemma CloseOneMore(rows: Rows, ids: set<string>, id: string, at: string)
    requires id in rows && id !in ids
    ensures id in CloseAll(rows, ids, at) && CloseAll(rows, ids, at)[id] == rows[id]
    ensures CloseAll(rows, ids + {id}, at) == CloseAll(rows, ids, at)[id := rows[id].(resolvedAt := Some(at))]
  {
  }

  lemma NoneChecked(rows: Rows, ids: set<string>, active: set<string>, at: string)
    requires ids <= rows.Keys
    ensures NotActive(rows, ids - ids, active) == {} && CloseAll(rows, {}, at) == rows
  {
    CloseNone(rows, at);
  }

  /** One more alert looked at. */
  lemma OneChecked(rows: Rows, ids: set<string>, openIds: set<string>, active: set<string>, id: string, at: string)
    requires id in openIds && openIds <= ids <= rows.Keys
    ensures var checked, more := NotActive(rows, ids - openIds, active), NotActive(rows, ids - (openIds - {id}), active);
            var now := CloseAll(rows, checked, at);
            && id in now && now[id] == rows[id]
            && if rows[id].about.dedupKey in active then more == checked
               else CloseAll(rows, more, at) == now[id := now[id].(resolvedAt := Some(at))] && |more| == |checked| + 1
  {
    var checked, more := NotActive(rows, ids - openIds, active), NotActive(rows, ids - (openIds - {id}), active);
    assert id !in checked;
    if rows[id].about.dedupKey in active {
      assert more == checked;
    } else {
      assert more == checked + {id};
      hide NotActive;
      CloseOneMore(rows, checked, id, at);
    }
  }

  lemma ClosedCount(rows: Rows, ids: set<string>, at: string)
    requires ids <= Open(rows)
    ensures |Open(CloseAll(rows, ids, at))| == |Open(rows)| - |ids|
  {
    assert Open(CloseAll(rows, ids, at)) == Open(rows) - ids;
  }
}
