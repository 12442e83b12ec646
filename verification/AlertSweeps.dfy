/**
 What a sweep counts, and when it changes a resolution time, however others interleave with its
 one UPDATE per alert.
 */
module AlertSweeps {
  import opened Wrappers
  import opened Alerts
  import opened AlertRuns

  /** The event is an UPDATE of this monitor's sweep. */
  predicate UpdatesFor(s: System, m: Monitor, e: Event) {
    e.CloseNext? && e.m == m && m in s.sweeps && e.id in s.sweeps[m].left
  }

  lemma CloseOne(rows: Rows, id: string, at: string)
    requires id in rows
    ensures |Open(CloseAll(rows, {id}, at))| == |Open(rows)| - if rows[id].resolvedAt.None? then 1 else 0
  {
    if rows[id].resolvedAt.None? {
      ClosedCount(rows, {id}, at);
    } else {
      assert Open(CloseAll(rows, {id}, at)) == Open(rows);
    }
  }

  /** Such an UPDATE turns an alert from open to resolved if and only if it meets an open one. */
  lemma UpdateCloses(s: System, m: Monitor, e: Event)
    requires Good(s) && UpdatesFor(s, m, e)
    ensures |Open(Step(s, e).rows)| == |Open(s.rows)| - 1 <==> s.rows[e.id].resolvedAt.None?
    ensures s.rows[e.id].resolvedAt.Some? ==> |Open(Step(s, e).rows)| == |Open(s.rows)|
  {
    hide Open, CloseAll, OneOpen;
    CloseOne(s.rows, e.id, e.at);
  }

  predicate Turns(s: System, m: Monitor, e: Event) {
    UpdatesFor(s, m, e) && e.id in s.rows && s.rows[e.id].resolvedAt.None?
  }

  /** The number of alerts this monitor's sweeps turned from open to resolved. */
  ghost function Turned(s: System, m: Monitor, events: seq<Event>): nat {
    if events == [] then 0
    else
      var n := |events| - 1;
      Turned(s, m, events[..n]) + if Turns(Run(s, events[..n]), m, events[n]) then 1 else 0
  }

  /** Every alert the sweep updates is still open just before its UPDATE. */
  ghost predicate MeetsOpen(s: System, m: Monitor, events: seq<Event>) {
    forall i :: 0 <= i < |events| && UpdatesFor(Run(s, events[..i]), m, events[i]) ==>
      Turns(Run(s, events[..i]), m, events[i])
  }

  ghost predicate OneSweep(m: Monitor, events: seq<Event>) {
    forall i :: 0 <= i < |events| ==> !(events[i].SelectStale? && events[i].m == m)
  }

  lemma MeetsOpenPrefix(s: System, m: Monitor, events: seq<Event>, n: nat)
    requires |events| == n + 1
    ensures var mid := Run(s, events[..n]);
            MeetsOpen(s, m, events) <==>
              MeetsOpen(s, m, events[..n]) && (UpdatesFor(mid, m, events[n]) ==> Turns(mid, m, events[n]))
  {
    hide Run, UpdatesFor, Turns;
    assert forall i :: 0 <= i < n ==> events[..n][..i] == events[..i] && events[..n][i] == events[i];
    if MeetsOpen(s, m, events) {
      forall i | 0 <= i < n && UpdatesFor(Run(s, events[..n][..i]), m, events[..n][i])
        ensures Turns(Run(s, events[..n][..i]), m, events[..n][i])
      {
        assert events[..n][..i] == events[..i] && UpdatesFor(Run(s, events[..i]), m, events[i]);
      }
    }
    if MeetsOpen(s, m, events[..n]) && (UpdatesFor(Run(s, events[..n]), m, events[n]) ==> Turns(Run(s, events[..n]), m, events[n])) {
      forall i | 0 <= i < |events| && UpdatesFor(Run(s, events[..i]), m, events[i])
        ensures Turns(Run(s, events[..i]), m, events[i])
      {
        if i < n {
          assert UpdatesFor(Run(s, events[..n][..i]), m, events[..n][i]);
        }
      }
    }
  }

  /** One event of a run: the count goes up by an UPDATE of the sweep and by nothing else. */
  lemma CountStep(s: System, m: Monitor, e: Event)
    requires m in s.sweeps && !(e.SelectStale? && e.m == m)
    ensures m in Step(s, e).sweeps
    ensures Step(s, e).sweeps[m].resolved == s.sweeps[m].resolved + if UpdatesFor(s, m, e) then 1 else 0
  {
  }

  lemma {:induction false} CountsAlong(s: System, m: Monitor, events: seq<Event>)
    requires Good(s) && m in s.sweeps && OneSweep(m, events)
    ensures m in Run(s, events).sweeps
    ensures Run(s, events).sweeps[m].resolved >= s.sweeps[m].resolved + Turned(s, m, events)
    ensures Run(s, events).sweeps[m].resolved == s.sweeps[m].resolved + Turned(s, m, events) <==> MeetsOpen(s, m, events)
  {
    if events != [] {
      var n := |events| - 1;
      CountsAlong(s, m, events[..n]);
      AlertsAlways(s, events[..n]);
      MeetsOpenPrefix(s, m, events, n);
      hide Step, MeetsOpen;
      CountStep(Run(s, events[..n]), m, events[n]);
    }
  }

  /**
   From its SELECT on, whatever interleaves, the number a sweep returns is the number of alerts
   it resolved if and only if every alert it updated was still open just before its UPDATE. It
   never returns less.
   */
  lemma SweepCountExactly(s: System, m: Monitor, kinds: set<string>, active: set<string>, events: seq<Event>)
    requires Good(s) && OneSweep(m, events)
    ensures var begun := Step(s, SelectStale(m, kinds, active));
            && m in Run(begun, events).sweeps
            && Run(begun, events).sweeps[m].resolved >= Turned(begun, m, events)
            && (Run(begun, events).sweeps[m].resolved == Turned(begun, m, events) <==> MeetsOpen(begun, m, events))
  {
    var begun := Step(s, SelectStale(m, kinds, active));
    assert begun.sweeps[m].resolved == 0;
    GoodStep(s, SelectStale(m, kinds, active));
    CountsAlong(begun, m, events);
  }

  /** Left alone, a sweep counts truly: every alert it selected is still open. */
  lemma {:induction false} UndisturbedMeetsOpen(s: System, m: Monitor, events: seq<Event>)
    requires Good(s) && m in s.sweeps
    requires forall id :: id in s.sweeps[m].left ==> s.rows[id].resolvedAt.None?
    requires forall i :: 0 <= i < |events| ==> events[i].CloseNext? && events[i].m == m
    ensures m in Run(s, events).sweeps && Run(s, events).sweeps[m].left <= s.rows.Keys
    ensures Run(s, events).rows.Keys == s.rows.Keys
    ensures forall id :: id in Run(s, events).sweeps[m].left ==> Run(s, events).rows[id].resolvedAt.None?
    ensures MeetsOpen(s, m, events)
  {
    if events != [] {
      var n := |events| - 1;
      UndisturbedMeetsOpen(s, m, events[..n]);
      MeetsOpenPrefix(s, m, events, n);
      hide MeetsOpen, Good;
    }
  }

  // ----- resolution times -----------------------------------------------------------------------

  /** A sweep's UPDATE of this alert. */
  ghost predicate Rewrites(s: System, e: Event, id: string) {
    e.CloseNext? && e.id == id && UpdatesFor(s, e.m, e)
  }

  /** The time an alert was resolved changes in a step if and only if a sweep updates it to another time. */
  lemma OverwrittenExactly(s: System, e: Event, id: string)
    requires Good(s) && id in s.rows && s.rows[id].resolvedAt.Some?
    ensures id in Step(s, e).rows
    ensures Step(s, e).rows[id].resolvedAt != s.rows[id].resolvedAt <==>
              Rewrites(s, e, id) && e.at != s.rows[id].resolvedAt.value
    ensures Rewrites(s, e, id) ==> Step(s, e).rows[id].resolvedAt == Some(e.at)
  {
  }

  /** The time of the last UPDATE of the alert along a run, or else the time it had. */
  ghost function LastTime(s: System, events: seq<Event>, id: string, first: string): string {
    if events == [] then first
    else
      var n := |events| - 1;
      if Rewrites(Run(s, events[..n]), events[n], id) then events[n].at else LastTime(s, events[..n], id, first)
  }

  /** Along any run a resolved alert shows the time of the last such UPDATE. */
  lemma {:induction false} ResolutionTime(s: System, events: seq<Event>, id: string)
    requires Good(s) && id in s.rows && s.rows[id].resolvedAt.Some?
    ensures id in Run(s, events).rows
    ensures Run(s, events).rows[id].resolvedAt == Some(LastTime(s, events, id, s.rows[id].resolvedAt.value))
  {
    if events != [] {
      var n := |events| - 1;
      ResolutionTime(s, events[..n], id);
      AlertsAlways(s, events[..n]);
      hide Step, Good, Rewrites;
      OverwrittenExactly(Run(s, events[..n]), events[n], id);
    }
  }
}
