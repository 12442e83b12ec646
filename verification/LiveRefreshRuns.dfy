/** What holds in every run of the live-refresh loop, whatever the interleaving. */
module LiveRefreshRuns {
  import opened Wrappers
  import opened LiveRefreshSpec

  // ----- timers -------------------------------------------------------------------------------

  /** A call whose continuation, once it runs, re-arms the timer. */
  predicate WillRearm(call: Call, generation: nat) {
    Rearms(call.next, generation)
  }

  ghost predicate Armed<T>(s: State<T>) {
    s.timers != map[] || exists id :: id in s.calls && WillRearm(s.calls[id], s.generation)
  }

  /** At most one timeout is pending: the one the ref names. It belongs to the current generation. */
  ghost predicate Timers<T>(s: State<T>) {
    && (forall id :: id in s.timers ==> s.timer == Some(id) && s.timers[id].gen == s.generation)
    && (!s.mounted || !s.enabled ==> s.timers == map[])
    && (s.mounted && s.enabled ==> Armed(s))
    && (forall id :: id in s.timers ==> id < s.nextId)
    && (forall id :: id in s.calls ==> id < s.nextId)
  }

  /** Clearing takes the timeout the ref names away, and nothing else. */
  lemma Cleared<T>(s: State<T>)
    ensures var r := ClearTimer(s);
            && r == s.(timer := None, timers := r.timers) && r.timers.Keys <= s.timers.Keys
            && forall id :: id in r.timers ==> r.timers[id] == s.timers[id] && s.timer != Some(id)
  {
  }

  lemma TimersAfterClear<T>(s: State<T>)
    requires forall id :: id in s.timers ==> s.timer == Some(id)
    ensures ClearTimer(s).timers == map[] && ClearTimer(s).timer == None
  {
    Cleared(s);
    hide ClearTimer;
    assert forall id :: id !in ClearTimer(s).timers;
  }

  /** Scheduling replaces the timeout the ref names. */
  lemma Scheduled<T>(s: State<T>, props: Props)
    ensures var r := Schedule(s, props);
            && r == s.(timer := r.timer, timers := r.timers, nextId := r.nextId) && r.nextId >= s.nextId
            && (!s.mounted || !s.enabled ==> r.timers == ClearTimer(s).timers)
            && (s.mounted && s.enabled ==>
                && r.nextId == s.nextId + 1 && r.timer == Some(s.nextId)
                && r.timers == ClearTimer(s).timers[s.nextId := Timer(s.generation, props, NextDelay(s, props))])
  {
    Cleared(s);
    hide ClearTimer, NextDelay;
    assert NextDelay(ClearTimer(s), props) == NextDelay(s, props) by { SameDelay(s, ClearTimer(s), props); }
  }

  lemma SameDelay<T>(s: State<T>, r: State<T>, props: Props)
    requires r.shown == s.shown && r.hidden == s.hidden
    ensures NextDelay(r, props) == NextDelay(s, props)
  {
  }

  lemma TimersAfterStart<T>(s: State<T>, props: Props, next: Continuation)
    requires forall id :: id in s.timers ==> s.timer == Some(id) && s.timers[id].gen == s.generation
    requires !s.mounted || !s.enabled ==> s.timers == map[]
    requires s.mounted && s.enabled ==> Armed(s) || Rearms(next, s.generation)
    requires (forall id :: id in s.timers ==> id < s.nextId) && (forall id :: id in s.calls ==> id < s.nextId)
    ensures Timers(StartFetch(s, props, next))
  {
    var t := StartFetch(s, props, next);
    assert t.calls.Keys == s.calls.Keys + {s.nextId};
    if s.mounted && s.enabled {
      if Rearms(next, s.generation) {
        assert WillRearm(t.calls[s.nextId], t.generation);
      } else if s.timers == map[] {
        var id :| id in s.calls && WillRearm(s.calls[id], s.generation);
        assert t.calls[id] == s.calls[id];
      }
    }
  }

  lemma TimersAfterSchedule<T>(s: State<T>, props: Props)
    requires forall id :: id in s.timers ==> s.timer == Some(id) && s.timers[id].gen == s.generation
    requires forall id :: id in s.calls ==> id < s.nextId
    ensures Timers(Schedule(s, props))
  {
    hide NextDelay;
    TimersAfterClear(s);
    Scheduled(s, props);
    hide Schedule, ClearTimer;
    if s.mounted && s.enabled {
      assert s.nextId in Schedule(s, props).timers;
    }
  }

  lemma TimersAfterFinish<T>(s: State<T>, id: nat, call: Call)
    requires Timers(s) && id in s.calls && s.calls[id] == call
    ensures Timers(Finish(s, id, call))
  {
    var t := Finish(s, id, call);
    assert t.calls.Keys == s.calls.Keys;
    if s.mounted && s.enabled && s.timers == map[] {
      var i :| i in s.calls && WillRearm(s.calls[i], s.generation);
      assert WillRearm(t.calls[i], t.generation);
    }
  }

  lemma TimersAfterProceed<T>(s: State<T>, id: nat)
    requires Timers(s) && id in s.calls && s.calls[id].Returned?
    ensures Timers(Proceeded(s, id))
  {
    var t := s.(calls := s.calls - {id});
    if Rearms(s.calls[id].next, s.generation) {
      TimersAfterSchedule(t, s.calls[id].props);
    } else if s.mounted && s.enabled && s.timers == map[] {
      var i :| i in s.calls && WillRearm(s.calls[i], s.generation);
      assert i in t.calls && t.calls[i] == s.calls[i];
    }
  }

  lemma TimersAfterFire<T>(s: State<T>, id: nat)
    requires Timers(s) && id in s.timers
    ensures Timers(Fired(s, id))
  {
    var t := s.(timers := s.timers - {id});
    assert t.timers.Keys <= s.timers.Keys;
    TimersAfterStart(t, s.timers[id].props, While(s.timers[id].gen));
  }

  lemma TimersAfterEnter<T>(s: State<T>)
    requires s.timers == map[] && forall id :: id in s.calls ==> id < s.nextId
    ensures Timers(Enter(s))
  {
    var t := s.(mounted := true, generation := s.generation + 1, inFlight := false);
    if t.enabled {
      TimersAfterStart(t, t.props, While(t.generation));
    } else {
      TimersAfterClear(t);
    }
  }

  lemma TimersAfterRender<T>(s: State<T>, props: Props, enabled: bool)
    requires Timers(s)
    ensures Timers(Rendered(s, props, enabled))
  {
    hide Enter, Armed;
    var t := s.(props := props, enabled := enabled, mounted := false);
    TimersAfterClear(t);
    TimersAfterEnter(ClearTimer(t));
  }

  lemma TimersAfterLeave<T>(s: State<T>)
    requires Timers(s)
    ensures Timers(Leave(s))
  {
    hide Armed;
    TimersAfterClear(s.(mounted := false));
  }

  /** Seen or hidden, the loop's timers are the same. */
  lemma TimersWhateverHidden<T>(s: State<T>, nowHidden: bool)
    requires Timers(s)
    ensures Timers(s.(hidden := nowHidden))
  {
    var t := s.(hidden := nowHidden);
    if Armed(s) && s.timers == map[] {
      var i :| i in s.calls && WillRearm(s.calls[i], s.generation);
      assert WillRearm(t.calls[i], t.generation);
    }
  }

  lemma TimersAfterCall<T>(s: State<T>, props: Props, next: Continuation)
    requires Timers(s)
    ensures Timers(StartFetch(s, props, next))
  {
    hide Armed, StartFetch;
    TimersAfterStart(s, props, next);
  }

  lemma TimersAfterRearm<T>(s: State<T>, props: Props)
    requires Timers(s)
    ensures Timers(Schedule(s, props))
  {
    hide Armed, Schedule;
    TimersAfterSchedule(s, props);
  }

  lemma TimersStep<T>(s: State<T>, e: Event<T>)
    requires Timers(s)
    ensures Timers(Step(s, e))
  {
    hide StartFetch, Schedule, Enter, Armed, Timers, Proceeded, Fired, Rendered, Leave;
    match e
    case Resolve(id, payload) =>
      if id in s.calls && s.calls[id].Fetching? {
        ResolveFrame(s, id, payload);
        hide Resolved;
        TimersAfterOutcome(s, Resolved(s, id, payload), id);
      }
    case Reject(id, message) =>
      if id in s.calls && s.calls[id].Fetching? {
        RejectFrame(s, id, message);
        hide Rejected;
        TimersAfterOutcome(s, Rejected(s, id, message), id);
      }
    case Proceed(id) =>
      if id in s.calls && s.calls[id].Returned? {
        TimersAfterProceed(s, id);
      }
    case Fire(id) =>
      if id in s.timers {
        TimersAfterFire(s, id);
      }
    case Focus =>
      TimersWhateverHidden(s, false);
      TimersAfterCall(s.(hidden := false), s.props, Always);
    case Visibility(nowHidden) =>
      TimersWhateverHidden(s, nowHidden);
      if nowHidden {
        TimersAfterRearm(s.(hidden := true), s.props);
      } else {
        TimersAfterCall(s.(hidden := false), s.props, Always);
      }
    case Refresh(props) => TimersAfterCall(s, props, Always);
    case Render(props, enabled) => TimersAfterRender(s, props, enabled);
    case Unmount => TimersAfterLeave(s);
  }

  /** Only the calls change in the loop when a fetch settles; the guard is released. */
  ghost predicate SettlesOnly<T>(s: State<T>, r: State<T>, id: nat) {
    && id in s.calls && s.calls[id].Fetching?
    && r.timers == s.timers && r.timer == s.timer && r.generation == s.generation && r.nextId == s.nextId
    && r.mounted == s.mounted && r.enabled == s.enabled && !r.inFlight && r.props == s.props && r.sequence == s.sequence
    && r.calls == s.calls[id := Returned(s.calls[id].props, s.calls[id].next)]
  }

  lemma ResolveFrame<T>(s: State<T>, id: nat, payload: T)
    requires id in s.calls && s.calls[id].Fetching?
    ensures SettlesOnly(s, Resolved(s, id, payload), id)
  {
  }

  lemma RejectFrame<T>(s: State<T>, id: nat, message: string)
    requires id in s.calls && s.calls[id].Fetching?
    ensures SettlesOnly(s, Rejected(s, id, message), id)
  {
  }

  lemma TimersAfterOutcome<T>(s: State<T>, r: State<T>, id: nat)
    requires Timers(s) && SettlesOnly(s, r, id)
    ensures Timers(r)
  {
    TimersAfterFinish(s, id, s.calls[id]);
    var f := Finish(s, id, s.calls[id]);
    assert f.calls == r.calls && f.timers == r.timers;
    if Armed(f) && f.timers == map[] {
      var i :| i in f.calls && WillRearm(f.calls[i], f.generation);
      assert WillRearm(r.calls[i], r.generation);
    }
  }

  /**
   Over every run: at most one timeout is pending, of the current generation, none after an
   unmount or while disabled; and while mounted and enabled there is a pending timeout or an
   outstanding call that will re-arm it.
   */
  lemma {:induction false} TimersAlways<T>(props: Props, enabled: bool, hidden: bool, events: seq<Event<T>>)
    ensures Timers(Run(Start(props, enabled, hidden), events))
  {
    if events == [] {
      TimersAfterEnter(Blank<T>(props, enabled, hidden));
    } else {
      TimersAlways(props, enabled, hidden, events[..|events| - 1]);
      TimersStep(Run(Start(props, enabled, hidden), events[..|events| - 1]), events[|events| - 1]);
    }
  }

  // ----- applied results ----------------------------------------------------------------------------

  function LastApplied<T>(log: seq<Outcome<T>>): (r: Option<Outcome<T>>)
    ensures r.Some? ==> r.value.Applied?
  {
    if log == [] then None
    else if log[|log| - 1].Applied? then Some(log[|log| - 1])
    else LastApplied(log[..|log| - 1])
  }

  /** Failures counted since the last applied result. */
  function Trailing<T>(log: seq<Outcome<T>>): nat {
    if log == [] || log[|log| - 1].Applied? then 0 else 1 + Trailing(log[..|log| - 1])
  }

  /** Applied results are ever newer, and each belongs to the generation that applied it. */
  ghost predicate Orderly<T>(log: seq<Outcome<T>>) {
    && (forall i, j :: 0 <= i < j < |log| && log[i].Applied? && log[j].Applied? ==> log[i].seqNo < log[j].seqNo)
    && (forall i :: 0 <= i < |log| && log[i].Applied? ==> log[i].startedIn == log[i].appliedIn)
  }

  ghost predicate History<T>(s: Surface<T>) {
    && Orderly(s.log)
    && (forall i :: 0 <= i < |s.log| && s.log[i].Applied? ==> s.log[i].seqNo <= s.applied)
    && s.applied == (if LastApplied(s.log).None? then 0 else LastApplied(s.log).value.seqNo)
    && s.data == (if LastApplied(s.log).None? then None else Some(LastApplied(s.log).value.data))
    && s.failuresRef == s.failures == Trailing(s.log)
  }

  lemma StartKeepsShown<T>(s: State<T>, props: Props, next: Continuation)
    ensures StartFetch(s, props, next).shown == s.shown
  {
  }

  lemma ScheduleKeepsShown<T>(s: State<T>, props: Props)
    ensures Schedule(s, props).shown == s.shown
  {
    Scheduled(s, props);
    hide Schedule;
  }

  lemma EnterKeepsShown<T>(s: State<T>)
    ensures Enter(s).shown == s.shown
  {
    hide StartFetch;
    var t := s.(mounted := true, generation := s.generation + 1, inFlight := false);
    assert t.shown == s.shown;
    StartKeepsShown(t, t.props, While(t.generation));
  }

  lemma ProceedKeepsShown<T>(s: State<T>, id: nat)
    requires id in s.calls && s.calls[id].Returned?
    ensures Proceeded(s, id).shown == s.shown
  {
    hide Schedule;
    ScheduleKeepsShown(s.(calls := s.calls - {id}), s.calls[id].props);
  }

  lemma FireKeepsShown<T>(s: State<T>, id: nat)
    requires id in s.timers
    ensures Fired(s, id).shown == s.shown
  {
    hide StartFetch;
    StartKeepsShown(s.(timers := s.timers - {id}), s.timers[id].props, While(s.timers[id].gen));
  }

  lemma RenderKeepsShown<T>(s: State<T>, props: Props, enabled: bool)
    ensures Rendered(s, props, enabled).shown == s.shown
  {
    hide Enter;
    EnterKeepsShown(Leave(s.(props := props, enabled := enabled)));
  }

  lemma VisibilityKeepsShown<T>(s: State<T>, nowHidden: bool)
    ensures StartFetch(s.(hidden := nowHidden), s.props, Always).shown == s.shown
    ensures Schedule(s.(hidden := nowHidden), s.props).shown == s.shown
  {
    hide StartFetch, Schedule;
    var t := s.(hidden := nowHidden);
    assert t.shown == s.shown;
    StartKeepsShown(t, s.props, Always);
    ScheduleKeepsShown(t, s.props);
  }

  lemma LeaveKeepsShown<T>(s: State<T>)
    ensures Leave(s).shown == s.shown
  {
  }

  /** Only a settling fetch that is let through changes what is shown. */
  lemma OthersKeepShown<T>(s: State<T>, e: Event<T>)
    requires !e.Resolve? && !e.Reject?
    ensures Step(s, e).shown == s.shown
  {
    hide StartFetch, Schedule, Proceeded, Fired, Rendered, Leave;
    match e
    case Proceed(id) =>
      if id in s.calls && s.calls[id].Returned? {
        ProceedKeepsShown(s, id);
      }
    case Fire(id) =>
      if id in s.timers {
        FireKeepsShown(s, id);
      }
    case Focus => VisibilityKeepsShown(s, false);
    case Visibility(nowHidden) => VisibilityKeepsShown(s, nowHidden);
    case Refresh(props) => StartKeepsShown(s, props, Always);
    case Render(props, enabled) => RenderKeepsShown(s, props, enabled);
    case Unmount => LeaveKeepsShown(s);
    case _ =>
  }

  /** What a settling fetch makes of the surface. */
  function AfterOutcome<T>(x: Surface<T>, through: bool, outcome: Outcome<T>, message: string): Surface<T> {
    if !through then x
    else
      match outcome
      case Applied(n, _, _, _, d) => Surface(Some(d), None, 0, 0, n, x.log + [outcome])
      case Failed(_) => Surface(x.data, Some(message), x.failuresRef + 1, x.failuresRef + 1, x.applied, x.log + [outcome])
  }

  lemma ResolveShows<T>(s: State<T>, id: nat, payload: T)
    requires id in s.calls && s.calls[id].Fetching?
    ensures var c := s.calls[id];
            Resolved(s, id, payload).shown == AfterOutcome(s.shown, LetThrough(s, c),
              Applied(c.seqNo, c.gen, s.generation, c.props.fetcher, payload), "")
  {
  }

  lemma RejectShows<T>(s: State<T>, id: nat, message: string)
    requires id in s.calls && s.calls[id].Fetching?
    ensures var c := s.calls[id];
            Rejected(s, id, message).shown == AfterOutcome(s.shown, LetThrough(s, c), Failed(c.seqNo), message)
  {
  }

  lemma HistoryAfterOutcome<T>(x: Surface<T>, through: bool, outcome: Outcome<T>, message: string)
    requires History(x)
    requires through && outcome.Applied? ==> outcome.seqNo > x.applied && outcome.startedIn == outcome.appliedIn
    ensures History(AfterOutcome(x, through, outcome, message))
  {
    assert (x.log + [outcome])[..|x.log|] == x.log;
  }

  lemma HistoryStep<T>(s: State<T>, e: Event<T>)
    requires History(s.shown)
    ensures History(Step(s, e).shown)
  {
    hide Resolved, Rejected, History, AfterOutcome;
    match e
    case Resolve(id, payload) =>
      if id in s.calls && s.calls[id].Fetching? {
        var c := s.calls[id];
        ResolveShows(s, id, payload);
        HistoryAfterOutcome(s.shown, LetThrough(s, c), Applied(c.seqNo, c.gen, s.generation, c.props.fetcher, payload), "");
      }
    case Reject(id, message) =>
      if id in s.calls && s.calls[id].Fetching? {
        RejectShows(s, id, message);
        HistoryAfterOutcome(s.shown, LetThrough(s, s.calls[id]), Failed(s.calls[id].seqNo), message);
      }
    case _ => OthersKeepShown(s, e);
  }

  /**
   Over every run: applied sequence numbers strictly increase, every applied result was started
   in the generation that applied it, the shown data is the last applied result, and the
   failure count is the number of counted failures since then.
   */
  lemma {:induction false} HistoryAlways<T>(props: Props, enabled: bool, hidden: bool, events: seq<Event<T>>)
    ensures History(Run(Start(props, enabled, hidden), events).shown)
  {
    if events != [] {
      HistoryAlways(props, enabled, hidden, events[..|events| - 1]);
      HistoryStep(Run(Start(props, enabled, hidden), events[..|events| - 1]), events[|events| - 1]);
    } else {
      EnterKeepsShown(Blank<T>(props, enabled, hidden));
    }
  }

  /** Both states are unmounted and show the same, with the same activity. */
  ghost predicate StillUnmounted<T>(s: State<T>, r: State<T>) {
    !s.mounted && !r.mounted && r.shown == s.shown && r.refreshing == s.refreshing && r.loading == s.loading
  }

  lemma UnmountedStart<T>(s: State<T>, props: Props, next: Continuation)
    requires !s.mounted
    ensures StillUnmounted(s, StartFetch(s, props, next))
  {
  }

  lemma UnmountedProceed<T>(s: State<T>, id: nat)
    requires !s.mounted && id in s.calls && s.calls[id].Returned?
    ensures StillUnmounted(s, Proceeded(s, id))
  {
  }

  lemma UnmountedFire<T>(s: State<T>, id: nat)
    requires !s.mounted && id in s.timers
    ensures StillUnmounted(s, Fired(s, id))
  {
  }

  lemma UnmountedResolve<T>(s: State<T>, id: nat, payload: T)
    requires !s.mounted && id in s.calls && s.calls[id].Fetching?
    ensures StillUnmounted(s, Resolved(s, id, payload))
  {
  }

  lemma UnmountedReject<T>(s: State<T>, id: nat, message: string)
    requires !s.mounted && id in s.calls && s.calls[id].Fetching?
    ensures StillUnmounted(s, Rejected(s, id, message))
  {
  }

  /** Nothing shown changes in a step taken while unmounted, unless the step mounts again. */
  lemma NothingWhileUnmounted<T>(s: State<T>, e: Event<T>)
    requires !s.mounted && !e.Render?
    ensures StillUnmounted(s, Step(s, e))
  {
    hide StartFetch, Schedule, Resolved, Rejected, Proceeded, Fired, Leave;
    match e
    case Resolve(id, payload) =>
      if id in s.calls && s.calls[id].Fetching? {
        UnmountedResolve(s, id, payload);
      }
    case Reject(id, message) =>
      if id in s.calls && s.calls[id].Fetching? {
        UnmountedReject(s, id, message);
      }
    case Proceed(id) =>
      if id in s.calls && s.calls[id].Returned? {
        UnmountedProceed(s, id);
      }
    case Fire(id) =>
      if id in s.timers {
        UnmountedFire(s, id);
      }
    case Refresh(props) => UnmountedStart(s, props, Always);
    case _ =>
  }

  /** From an unmount on, whatever settles or fires, the surface stays as it was. */
  lemma {:induction false} UnmountedStays<T>(s: State<T>, events: seq<Event<T>>)
    requires !s.mounted && forall i :: 0 <= i < |events| ==> !events[i].Render?
    ensures StillUnmounted(s, Run(s, events))
  {
    hide Step;
    if events != [] {
      UnmountedStays(s, events[..|events| - 1]);
      NothingWhileUnmounted(Run(s, events[..|events| - 1]), events[|events| - 1]);
    }
  }

  // ----- back-off ----------------------------------------------------------------------------------------

  lemma {:induction false} Pow2Grows(m: nat, n: nat)
    requires m <= n
    ensures 1 <= Pow2(m) <= Pow2(n)
    decreases n
  {
    if m < n {
      Pow2Grows(m, n - 1);
    } else if n > 0 {
      Pow2Grows(m - 1, n - 1);
    }
  }

  /** After a failure every armed delay lies between the base and the ceiling and never shrinks. */
  lemma BackoffBounds(m: nat, n: nat)
    requires 0 < m <= n
    ensures BACKOFF_BASE_MS <= Backoff(m) <= Backoff(n) <= BACKOFF_MAX_MS
  {
    Pow2Grows(m - 1, n - 1);
  }

  /** Five seconds after the first failure, then twice as long each time, up to a minute. */
  function Wait(failures: nat): nat
    requires failures > 0
  {
    if failures == 1 then 5_000
    else if 2 * Wait(failures - 1) < 60_000 then 2 * Wait(failures - 1)
    else 60_000
  }

  lemma {:induction false} BackoffIsWait(n: nat)
    requires n > 0
    ensures Backoff(n) == Wait(n)
  {
    if n > 1 {
      BackoffIsWait(n - 1);
    }
  }

  /** The delay of a timeout armed with these props: by failures, else by sight. */
  function Due(failures: nat, hidden: bool, props: Props): nat {
    if failures > 0 then Wait(failures) else if hidden then 60_000 else props.intervalMs
  }

  /** Scheduling while mounted and enabled arms one timeout, of this generation and these props, with the delay due. */
  lemma ArmedDelay<T>(s: State<T>, props: Props)
    requires s.mounted && s.enabled
    ensures var t := Schedule(s, props);
            && t.timer == Some(s.nextId)
            && s.nextId in t.timers
            && t.timers[s.nextId] == Timer(s.generation, props, Due(s.shown.failuresRef, s.hidden, props))
  {
    if s.shown.failuresRef > 0 {
      BackoffIsWait(s.shown.failuresRef);
    }
    hide Backoff, Wait;
    Scheduled(s, props);
    hide Schedule, ClearTimer;
  }

  /** Over every run that delay goes by the failures counted since the last result shown. */
  lemma DelayAlways<T>(props: Props, enabled: bool, hidden: bool, events: seq<Event<T>>, armed: Props)
    requires var s := Run(Start(props, enabled, hidden), events); s.mounted && s.enabled
    ensures var s := Run(Start(props, enabled, hidden), events);
            && s.nextId in Schedule(s, armed).timers
            && Schedule(s, armed).timers[s.nextId].delay == Due(Trailing(s.shown.log), s.hidden, armed)
  {
    HistoryAlways(props, enabled, hidden, events);
    hide Run, Start, Schedule, Due, Trailing, LastApplied, Orderly;
    ArmedDelay(Run(Start(props, enabled, hidden), events), armed);
  }

  // ----- overlap ---------------------------------------------------------------------------------------------

  function Outstanding<T>(s: State<T>): set<nat> {
    set id | id in s.calls && s.calls[id].Fetching?
  }

  /** The guard says exactly whether a fetch is outstanding, and there is never a second. */
  ghost predicate OneFetch<T>(s: State<T>) {
    && (s.inFlight <==> Outstanding(s) != {})
    && |Outstanding(s)| <= 1
    && forall id :: id in s.calls ==> id < s.nextId
  }

  lemma StartAddsOne<T>(s: State<T>, props: Props, next: Continuation)
    requires forall id :: id in s.calls ==> id < s.nextId
    ensures Outstanding(StartFetch(s, props, next))
         == Outstanding(s) + if s.inFlight || !s.mounted then {} else {s.nextId}
    ensures forall id :: id in StartFetch(s, props, next).calls ==> id < StartFetch(s, props, next).nextId
  {
  }

  lemma OneFetchAfterStart<T>(s: State<T>, props: Props, next: Continuation)
    requires OneFetch(s)
    ensures OneFetch(StartFetch(s, props, next))
  {
    StartAddsOne(s, props, next);
    if !s.inFlight && s.mounted {
      assert Outstanding(StartFetch(s, props, next)) == {s.nextId};
    }
  }

  lemma SettleRemoves<T>(s: State<T>, r: State<T>, id: nat)
    requires OneFetch(s) && SettlesOnly(s, r, id)
    ensures OneFetch(r)
  {
    assert id in Outstanding(s);
    assert |Outstanding(s) - {id}| == |Outstanding(s)| - 1;
    assert Outstanding(r) == Outstanding(s) - {id};
  }

  /** Steps that neither start nor settle a fetch. */
  lemma OneFetchFrame<T>(s: State<T>, r: State<T>)
    requires OneFetch(s) && r.inFlight == s.inFlight && r.nextId >= s.nextId
    requires r.calls.Keys <= s.calls.Keys && forall id :: id in r.calls ==> r.calls[id] == s.calls[id]
    requires forall id :: id in s.calls && s.calls[id].Fetching? ==> id in r.calls
    ensures OneFetch(r)
  {
    assert Outstanding(r) == Outstanding(s);
  }

  lemma ScheduleFrame<T>(s: State<T>, props: Props)
    ensures var r := Schedule(s, props); r.inFlight == s.inFlight && r.nextId >= s.nextId && r.calls == s.calls
  {
    Scheduled(s, props);
    hide Schedule;
  }

  lemma OneFetchAfterProceed<T>(s: State<T>, id: nat)
    requires OneFetch(s) && id in s.calls && s.calls[id].Returned?
    ensures OneFetch(Proceeded(s, id))
  {
    hide Schedule, OneFetch;
    var t := s.(calls := s.calls - {id});
    OneFetchFrame(s, t);
    ScheduleFrame(t, s.calls[id].props);
    OneFetchFrame(t, Schedule(t, s.calls[id].props));
  }

  lemma OneFetchAfterFire<T>(s: State<T>, id: nat)
    requires OneFetch(s) && id in s.timers
    ensures OneFetch(Fired(s, id))
  {
    hide StartFetch, OneFetch;
    var t := s.(timers := s.timers - {id});
    OneFetchFrame(s, t);
    OneFetchAfterStart(t, s.timers[id].props, While(s.timers[id].gen));
  }

  lemma OneFetchAfterVisibility<T>(s: State<T>, nowHidden: bool)
    requires OneFetch(s)
    ensures OneFetch(StartFetch(s.(hidden := nowHidden), s.props, Always))
    ensures OneFetch(Schedule(s.(hidden := nowHidden), s.props))
  {
    hide StartFetch, Schedule, OneFetch;
    var t := s.(hidden := nowHidden);
    OneFetchFrame(s, t);
    OneFetchAfterStart(t, s.props, Always);
    ScheduleFrame(t, s.props);
    OneFetchFrame(t, Schedule(t, s.props));
  }

  lemma OneFetchAfterLeave<T>(s: State<T>)
    requires OneFetch(s)
    ensures OneFetch(Leave(s))
  {
    hide OneFetch;
    OneFetchFrame(s, Leave(s));
  }

  lemma OneFetchStep<T>(s: State<T>, e: Event<T>)
    requires OneFetch(s) && Step(s, e).generation == s.generation
    ensures OneFetch(Step(s, e))
  {
    hide StartFetch, Schedule, Resolved, Rejected, Proceeded, Fired, Leave, OneFetch;
    match e
    case Resolve(id, payload) =>
      if id in s.calls && s.calls[id].Fetching? {
        ResolveFrame(s, id, payload);
        SettleRemoves(s, Resolved(s, id, payload), id);
      }
    case Reject(id, message) =>
      if id in s.calls && s.calls[id].Fetching? {
        RejectFrame(s, id, message);
        SettleRemoves(s, Rejected(s, id, message), id);
      }
    case Proceed(id) =>
      if id in s.calls && s.calls[id].Returned? {
        OneFetchAfterProceed(s, id);
      }
    case Fire(id) =>
      if id in s.timers {
        OneFetchAfterFire(s, id);
      }
    case Focus => OneFetchAfterVisibility(s, false);
    case Visibility(nowHidden) => OneFetchAfterVisibility(s, nowHidden);
    case Refresh(props) => OneFetchAfterStart(s, props, Always);
    case Render(props, enabled) =>
      EnteringChangesGeneration(s, props, enabled);
      hide Enter;
    case Unmount => OneFetchAfterLeave(s);
  }

  lemma EnteringChangesGeneration<T>(s: State<T>, props: Props, enabled: bool)
    ensures Changes(s, props, enabled) ==> Rendered(s, props, enabled).generation == s.generation + 1
  {
  }

  ghost predicate SameGeneration<T>(s: State<T>, events: seq<Event<T>>) {
    forall n :: 0 <= n <= |events| ==> Run(s, events[..n]).generation == s.generation
  }

  lemma {:induction false} OneFetchWithin<T>(s: State<T>, events: seq<Event<T>>)
    requires OneFetch(s) && SameGeneration(s, events)
    ensures OneFetch(Run(s, events))
  {
    if events != [] {
      var before := events[..|events| - 1];
      forall n | 0 <= n <= |before|
        ensures Run(s, before[..n]).generation == s.generation
      {
        assert before[..n] == events[..n];
      }
      OneFetchWithin(s, before);
      assert events[..|events|] == events && events[..|before|] == before;
      OneFetchStep(Run(s, before), events[|events| - 1]);
    }
  }

  /**
   A generation entered while enabled has exactly one fetch more outstanding than before: its
   own first fetch.
   */
  lemma EnteringAddsOne<T>(s: State<T>, props: Props)
    requires Changes(s, props, true) && forall id :: id in s.calls ==> id < s.nextId
    ensures |Outstanding(Rendered(s, props, true))| == |Outstanding(s)| + 1
  {
    var t := Leave(s.(props := props, enabled := true));
    assert t.calls == s.calls && t.nextId == s.nextId;
    var u := t.(mounted := true, generation := t.generation + 1, inFlight := false);
    assert Outstanding(u) == Outstanding(s);
    StartAddsOne(u, props, While(u.generation));
    assert s.nextId !in Outstanding(s);
  }

  /**
   Fetches never overlap in an enabled generation, all the way to its end, if and only if it is
   entered with no fetch outstanding.
   */
  lemma NoOverlapExactly<T>(s: State<T>, props: Props)
    requires Changes(s, props, true) && forall id :: id in s.calls ==> id < s.nextId
    ensures Outstanding(s) == {} <==>
            forall events :: SameGeneration(Rendered(s, props, true), events) ==>
                             OneFetch(Run(Rendered(s, props, true), events))
  {
    var r := Rendered(s, props, true);
    EnteringAddsOne(s, props);
    if Outstanding(s) == {} {
      assert r.inFlight;
      forall events | SameGeneration(r, events)
        ensures OneFetch(Run(r, events))
      {
        OneFetchWithin(r, events);
      }
    } else {
      var none: seq<Event<T>> := [];
      assert SameGeneration(r, none) && Run(r, none) == r;
      assert |Outstanding(s)| > 0;
    }
  }
}
