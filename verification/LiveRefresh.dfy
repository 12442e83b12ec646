/**
 The hook's shared refs and callbacks, each callback one atomic step that keeps the guarantees of
 every run.
 */
module LiveRefresh {
  import opened Wrappers
  import opened LiveRefreshSpec
  import opened LiveRefreshRuns
  import opened LiveRefreshFreshness

  // ----- what the steps mean ---------------------------------------------------------------------

  /** What holds between any two callbacks. */
  ghost predicate Sound<T>(s: State<T>) {
    Timers(s) && Numbers(s) && History(s.shown)
  }

  lemma SoundStep<T>(s: State<T>, e: Event<T>)
    requires Sound(s)
    ensures Sound(Step(s, e))
    ensures !e.Resolve? && !e.Reject? ==> Step(s, e).shown == s.shown
    ensures !s.mounted && !e.Render? ==> Step(s, e).shown == s.shown && !Step(s, e).mounted
  {
    hide Timers, Numbers, History, Step;
    TimersStep(s, e);
    NumbersStep(s, e);
    HistoryStep(s, e);
    if !e.Resolve? && !e.Reject? {
      OthersKeepShown(s, e);
    }
    if !s.mounted && !e.Render? {
      NothingWhileUnmounted(s, e);
    }
  }

  lemma SoundStart<T>(props: Props, enabled: bool, hidden: bool)
    ensures Sound(Start<T>(props, enabled, hidden))
  {
    hide Timers, Numbers, History;
    TimersAlways<T>(props, enabled, hidden, []);
    NumbersAlways<T>(props, enabled, hidden, []);
    HistoryAlways<T>(props, enabled, hidden, []);
  }

  /** A fetch that is outstanding and whose outcome counts. */
  predicate Counts<T>(s: State<T>, id: nat) {
    && id in s.calls && s.calls[id].Fetching?
    && s.mounted && s.calls[id].gen == s.generation && s.calls[id].seqNo > s.shown.applied
  }

  lemma OutcomeMeans<T>(s: State<T>, id: nat, payload: T)
    requires Sound(s)
    ensures var r := Step(s, Resolve(id, payload));
            && Sound(r)
            && (if Counts(s, id) then r.shown.data == Some(payload) && r.shown.error == None && r.shown.failures == 0
                else r.shown == s.shown)
            && (id in s.calls && s.calls[id].Fetching? ==> Settled(s, r, id))
  {
    hide Resolved, Sound, Settled;
    SoundStep(s, Resolve(id, payload));
    if id in s.calls && s.calls[id].Fetching? {
      ResolveShows(s, id, payload);
      ResolveSettles(s, id, payload);
    }
  }

  /** The guard is released, a mounted surface is no longer busy, and the continuation is left of the call. */
  predicate Settled<T>(s: State<T>, r: State<T>, id: nat) {
    && !r.inFlight
    && (if s.mounted then !r.loading && !r.refreshing else r.loading == s.loading && r.refreshing == s.refreshing)
    && id in s.calls && r.calls == s.calls[id := Returned(s.calls[id].props, s.calls[id].next)]
    && r.timers == s.timers && r.generation == s.generation && r.sequence == s.sequence
  }

  lemma ResolveSettles<T>(s: State<T>, id: nat, payload: T)
    requires id in s.calls && s.calls[id].Fetching?
    ensures Settled(s, Resolved(s, id, payload), id)
  {
  }

  lemma RejectSettles<T>(s: State<T>, id: nat, message: string)
    requires id in s.calls && s.calls[id].Fetching?
    ensures Settled(s, Rejected(s, id, message), id)
  {
  }

  lemma RejectionMeans<T>(s: State<T>, id: nat, message: string)
    requires Sound(s)
    ensures var r := Step(s, Event<T>.Reject(id, message));
            && Sound(r)
            && (if Counts(s, id) then r.shown.data == s.shown.data && r.shown.error == Some(message)
                                      && r.shown.failures == s.shown.failures + 1
                else r.shown == s.shown)
            && (id in s.calls && s.calls[id].Fetching? ==> Settled(s, r, id))
  {
    SoundStep(s, Event<T>.Reject(id, message));
    hide Rejected, Timers, Numbers, Orderly, LastApplied, Trailing, Settled;
    if id in s.calls && s.calls[id].Fetching? {
      RejectShows(s, id, message);
      RejectSettles(s, id, message);
    }
  }

  /** A continuation that still counts arms the timeout that is due; one of an earlier generation does nothing. */
  lemma ProceedMeans<T>(s: State<T>, id: nat)
    requires id in s.calls && s.calls[id].Returned?
    ensures var r, call := Step(s, Event<T>.Proceed(id)), s.calls[id];
            && r.calls == s.calls - {id} && r.inFlight == s.inFlight && r.shown == s.shown
            && (if call.next == Always || call.next == While(s.generation) then
                  if s.mounted && s.enabled then
                    && r.timer == Some(s.nextId) && s.nextId in r.timers
                    && r.timers[s.nextId] == Timer(s.generation, call.props, Due(s.shown.failuresRef, s.hidden, call.props))
                  else r.timer == None
                else r.timers == s.timers && r.timer == s.timer)
  {
    var t := s.(calls := s.calls - {id});
    Scheduled(t, s.calls[id].props);
    if s.mounted && s.enabled {
      ArmedDelay(t, s.calls[id].props);
    } else {
      assert Schedule(t, s.calls[id].props).timer == None;
    }
    hide Schedule, Due;
  }

  lemma FetchStarts<T>(s: State<T>, props: Props, next: Continuation)
    ensures var r := StartFetch(s, props, next);
            && r.timers == s.timers && r.shown == s.shown
            && if s.mounted && !s.inFlight then
                 && r.inFlight && r.refreshing && r.sequence == s.sequence + 1
                 && r.calls == s.calls[s.nextId := Fetching(s.sequence + 1, s.generation, props, next)]
               else
                 r.inFlight == s.inFlight && r.sequence == s.sequence && r.calls == s.calls[s.nextId := Returned(props, next)]
  {
  }

  /** A timeout of this generation fetches with its own props unless a fetch is out; any other only goes away. */
  lemma FireMeans<T>(s: State<T>, id: nat)
    requires id in s.timers
    ensures var r, timer := Step(s, Event<T>.Fire(id)), s.timers[id];
            && r.timers == s.timers - {id} && r.shown == s.shown
            && (if timer.gen == s.generation && s.mounted && !s.inFlight then
                  && r.inFlight && r.refreshing && r.sequence == s.sequence + 1
                  && r.calls == s.calls[s.nextId := Fetching(s.sequence + 1, s.generation, timer.props, While(s.generation))]
                else
                  && r.inFlight == s.inFlight && r.sequence == s.sequence
                  && r.calls == if timer.gen == s.generation then s.calls[s.nextId := Returned(timer.props, While(s.generation))]
                                else s.calls)
  {
    FetchStarts(s.(timers := s.timers - {id}), s.timers[id].props, While(s.timers[id].gen));
    hide StartFetch;
  }

  /** One call more with these props, which re-arms in any generation: a fetch if it may run. */
  ghost predicate Asks<T>(s: State<T>, r: State<T>, props: Props) {
    && r.timers == s.timers && r.shown == s.shown && r.generation == s.generation
    && if s.mounted && !s.inFlight then
         r.inFlight && r.refreshing && r.calls == s.calls[s.nextId := Fetching(s.sequence + 1, s.generation, props, Always)]
       else
         r.inFlight == s.inFlight && r.calls == s.calls[s.nextId := Returned(props, Always)]
  }

  /** Refreshed by hand, or seen again while enabled: a fetch is asked for. Gone out of sight: the slow cadence. */
  lemma SightMeans<T>(s: State<T>, nowHidden: bool, props: Props)
    ensures Asks(s, Step(s, Event<T>.Refresh(props)), props)
    ensures var r := Step(s, Event<T>.Focus);
            if s.mounted && s.enabled then Asks(s, r, s.props) && !r.hidden else r == s
    ensures var r := Step(s, Event<T>.Visibility(nowHidden));
            if !(s.mounted && s.enabled) then r == s
            else
              && r.hidden == nowHidden && r.shown == s.shown
              && if !nowHidden then Asks(s, r, s.props)
                 else
                   && r.calls == s.calls && r.inFlight == s.inFlight && r.timer.Some? && r.timer.value in r.timers
                   && r.timers[r.timer.value] == Timer(s.generation, s.props, Due(s.shown.failuresRef, true, s.props))
  {
    FetchStarts(s, props, Always);
    FetchStarts(s.(hidden := false), s.props, Always);
    var t := s.(hidden := true);
    Scheduled(t, s.props);
    if s.mounted && s.enabled {
      ArmedDelay(t, s.props);
    }
    hide Schedule, StartFetch, Due;
  }

  /** A render with changed dependencies starts a generation, with one fetch of its own if enabled; any other does nothing. */
  lemma RenderMeans<T>(s: State<T>, props: Props, enabled: bool)
    requires Sound(s)
    ensures var r := Step(s, Event<T>.Render(props, enabled));
            && Sound(r) && r.shown == s.shown && r.mounted && r.props == props && r.enabled == enabled
            && if s.mounted && props == s.props && enabled == s.enabled then r == s
               else
                 && r.generation == s.generation + 1
                 && if enabled then |Outstanding(r)| == |Outstanding(s)| + 1 && r.inFlight && r.refreshing && Fetches(s, r)
                    else r.timers == map[] && r.calls == s.calls && !r.loading && !r.inFlight
  {
    SoundStep(s, Event<T>.Render(props, enabled));
    EnteringChangesGeneration(s, props, enabled);
    if Changes(s, props, enabled) {
      if enabled {
        EnteringAddsOne(s, props);
        EnabledFetches(s, props);
      } else {
        DisabledStays(s, props);
      }
    }
    hide Sound, Leave, Enter, Outstanding, Fetches;
  }

  /** The state has one call more, a fetch of its own generation with its own props. */
  predicate Fetches<T>(s: State<T>, r: State<T>) {
    r.calls == s.calls[s.nextId := Fetching(s.sequence + 1, r.generation, r.props, While(r.generation))]
  }

  lemma EnabledFetches<T>(s: State<T>, props: Props)
    ensures var r := Rendered(s, props, true);
            Changes(s, props, true) ==> r.mounted && r.enabled && r.props == props && Fetches(s, r)
  {
  }

  /** The first render shows nothing yet; enabled it fetches, and otherwise it waits for nothing. */
  lemma StartMeans<T>(props: Props, enabled: bool, hidden: bool)
    ensures var s := Start<T>(props, enabled, hidden);
            && s.shown == Surface(None, None, 0, 0, 0, []) && s.mounted && s.hidden == hidden && s.timers == map[]
            && s.props == props && s.enabled == enabled
            && s.loading == s.refreshing == s.inFlight == enabled
            && s.calls == if enabled then map[0 := Fetching(1, 1, props, While(1))] else map[]
  {
  }

  lemma DisabledStays<T>(s: State<T>, props: Props)
    ensures var r := Rendered(s, props, false); Changes(s, props, false) ==>
              r.mounted && !r.enabled && r.props == props && r.calls == s.calls && !r.loading && !r.inFlight
  {
    hide StartFetch;
  }

  /** After an unmount no timeout is pending. */
  lemma UnmountMeans<T>(s: State<T>)
    requires Sound(s)
    ensures !Step(s, Event<T>.Unmount).mounted && Step(s, Event<T>.Unmount).timers == map[]
  {
    TimersStep(s, Event<T>.Unmount);
  }

  // ----- the steps, case by case ---------------------------------------------------------------------

  lemma ResolveStep<T>(s: State<T>, id: nat, payload: T)
    ensures Step(s, Resolve(id, payload)) ==
            if !(id in s.calls && s.calls[id].Fetching?) then s
            else
              var c := s.calls[id];
              var outcome := Applied(c.seqNo, c.gen, s.generation, c.props.fetcher, payload);
              var applied := Surface(Some(payload), None, 0, 0, c.seqNo, s.shown.log + [outcome]);
              Finish(if LetThrough(s, c) then s.(shown := applied) else s, id, c)
  {
    hide Finish;
  }

  lemma RejectStep<T>(s: State<T>, id: nat, message: string)
    ensures Step(s, Reject(id, message)) ==
            if !(id in s.calls && s.calls[id].Fetching?) then s
            else
              var c, x, n := s.calls[id], s.shown, s.shown.failuresRef + 1;
              var counted := x.(error := Some(message), failuresRef := n, failures := n, log := x.log + [Failed(c.seqNo)]);
              Finish(if LetThrough(s, c) then s.(shown := counted) else s, id, c)
  {
    hide Finish;
  }

  lemma RenderStep<T>(s: State<T>, props: Props, enabled: bool)
    ensures Step(s, Render(props, enabled)) ==
            if s.mounted && props == s.props && enabled == s.enabled then s
            else Enter(Leave(s.(props := props, enabled := enabled)))
  {
    hide Leave, Enter;
  }

  lemma VisibilityStep<T>(s: State<T>, nowHidden: bool)
    ensures Step(s, Visibility(nowHidden)) ==
            if !(s.mounted && s.enabled) then s
            else var t := s.(hidden := nowHidden); if nowHidden then Schedule(t, s.props) else StartFetch(t, s.props, Always)
  {
    hide Schedule, StartFetch;
  }

  class Hook<T> {
    var data: Option<T>
    var loading: bool
    var refreshing: bool
    var error: Option<string>
    var failures: nat
    var inFlight: bool
    var sequence: nat
    var applied: nat
    var mounted: bool
    var timer: Option<nat>
    var failuresRef: nat
    var hidden: bool
    var generation: nat
    var enabled: bool
    var props: Props
    var nextId: nat
    var timers: map<nat, Timer>
    var calls: map<nat, Call>
    ghost var log: seq<Outcome<T>>

    ghost function Shown(): Surface<T>
      reads this`data, this`error, this`failures, this`failuresRef, this`applied, this`log
    {
      Surface(data, error, failures, failuresRef, applied, log)
    }

    ghost function View(): State<T>
      reads this
    {
      State(Shown(), loading, refreshing, inFlight, sequence, mounted, timer, hidden, generation, enabled, props, nextId,
            timers, calls)
    }

    constructor (props: Props, enabled: bool, hidden: bool)
      ensures View() == Start(props, enabled, hidden) && Valid()
    {
      this.data, this.loading, this.refreshing, this.error, this.failures := None, true, false, None, 0;
      this.inFlight, this.sequence, this.applied, this.mounted, this.timer := false, 0, 0, true, None;
      this.failuresRef, this.hidden, this.generation := 0, hidden, 0;
      this.enabled, this.props := enabled, props;
      this.nextId, this.timers, this.calls, this.log := 0, map[], map[], [];
      new;
      EnterEffect();
      SoundStart<T>(props, enabled, hidden);
    }

    method ClearPending()
      modifies this`timer, this`timers
      ensures View() == ClearTimer(old(View()))
    {
      if timer.Some? {
        timers := timers - {timer.value};
        timer := None;
      }
    }

    method RunFetch(captured: Props, next: Continuation)
      modifies this`nextId, this`inFlight, this`sequence, this`refreshing, this`calls
      ensures View() == StartFetch(old(View()), captured, next)
    {
      if inFlight || !mounted {
        calls := calls[nextId := Returned(captured, next)];
        nextId := nextId + 1;
        return;
      }
      Begin(captured, next);
    }

    /** A call that may run takes the guard and the next sequence number. */
    method Begin(captured: Props, next: Continuation)
      modifies this`nextId, this`inFlight, this`sequence, this`refreshing, this`calls
      ensures inFlight && refreshing && sequence == old(sequence) + 1 && nextId == old(nextId) + 1
      ensures calls == old(calls)[old(nextId) := Fetching(sequence, generation, captured, next)]
    {
      inFlight := true;
      sequence := sequence + 1;
      refreshing := true;
      calls := calls[nextId := Fetching(sequence, generation, captured, next)];
      nextId := nextId + 1;
    }

    method Delay(captured: Props) returns (delay: nat)
      ensures delay == NextDelay(View(), captured)
    {
      if failuresRef > 0 {
        var grown := BACKOFF_BASE_MS * Pow2(failuresRef - 1);
        return if grown < BACKOFF_MAX_MS then grown else BACKOFF_MAX_MS;
      }
      return if hidden then HIDDEN_INTERVAL_MS else captured.intervalMs;
    }

    method ScheduleNext(captured: Props)
      modifies this`timer, this`timers, this`nextId
      ensures View() == Schedule(old(View()), captured)
    {
      ClearPending();
      if !mounted || !enabled {
        return;
      }
      var delay := Delay(captured);
      Arm(captured, delay);
    }

    method Arm(captured: Props, delay: nat)
      modifies this`timer, this`timers, this`nextId
      ensures timer == Some(old(nextId)) && nextId == old(nextId) + 1
      ensures timers == old(timers)[old(nextId) := Timer(generation, captured, delay)]
    {
      timer := Some(nextId);
      timers := timers[nextId := Timer(generation, captured, delay)];
      nextId := nextId + 1;
    }

    method Settle(id: nat)
      requires id in calls
      modifies this`inFlight, this`refreshing, this`loading, this`calls
      ensures View() == Finish(old(View()), id, old(calls[id]))
    {
      Release();
      calls := calls[id := Returned(calls[id].props, calls[id].next)];
    }

    /** However a fetch settles, the guard is released, and a mounted surface is no longer busy. */
    method Release()
      modifies this`inFlight, this`refreshing, this`loading
      ensures !inFlight
      ensures refreshing == (!mounted && old(refreshing)) && loading == (!mounted && old(loading))
    {
      inFlight := false;
      if mounted {
        refreshing := false;
        loading := false;
      }
    }

    /** A result that is let through is shown, and ends any run of failures. */
    method Apply(call: Call, payload: T)
      requires call.Fetching?
      modifies this`applied, this`data, this`error, this`failuresRef, this`failures, this`log
      ensures Shown() == Surface(Some(payload), None, 0, 0, call.seqNo,
                old(log) + [Applied(call.seqNo, call.gen, generation, call.props.fetcher, payload)])
    {
      applied := call.seqNo;
      data := Some(payload);
      error := None;
      failuresRef := 0;
      failures := 0;
      log := log + [Applied(call.seqNo, call.gen, generation, call.props.fetcher, payload)];
    }

    /** A failure that is let through is counted; the data stay. */
    method Count(call: Call, message: string)
      requires call.Fetching?
      modifies this`error, this`failuresRef, this`failures, this`log
      ensures Shown() == old(Shown()).(error := Some(message), failuresRef := old(failuresRef) + 1,
                                       failures := old(failuresRef) + 1, log := old(log) + [Failed(call.seqNo)])
    {
      error := Some(message);
      failuresRef := failuresRef + 1;
      failures := failuresRef;
      log := log + [Failed(call.seqNo)];
    }

    method OnResolved(id: nat, payload: T)
      modifies this
      ensures View() == Step(old(View()), Resolve(id, payload))
    {
      hide Resolved, Finish;
      ghost var before := View();
      ResolveStep(before, id, payload);
      hide Step;
      if !(id in calls && calls[id].Fetching?) {
        return;
      }
      var call := calls[id];
      if mounted && call.gen == generation && call.seqNo > applied {
        Apply(call, payload);
        assert View() == before.(shown := Shown());
      }
      Settle(id);
    }

    method OnRejected(id: nat, message: string)
      modifies this
      ensures View() == Step(old(View()), Reject(id, message))
    {
      hide Rejected, Finish;
      ghost var before := View();
      RejectStep(before, id, message);
      hide Step;
      if !(id in calls && calls[id].Fetching?) {
        return;
      }
      var call := calls[id];
      if mounted && call.gen == generation && call.seqNo > applied {
        Count(call, message);
        assert View() == before.(shown := Shown());
      }
      Settle(id);
    }

    method OnProceed(id: nat)
      modifies this
      ensures View() == Step(old(View()), Proceed(id))
    {
      hide Resolved, Rejected, Fired, StartFetch, Schedule, Rendered, Leave, Finish;
      if !(id in calls && calls[id].Returned?) {
        return;
      }
      var call := calls[id];
      calls := calls - {id};
      if call.next.Always? || call.next.gen == generation {
        ScheduleNext(call.props);
      }
    }

    method OnTimer(id: nat)
      modifies this
      ensures View() == Step(old(View()), Fire(id))
    {
      hide Resolved, Rejected, Proceeded, StartFetch, Schedule, Rendered, Leave, Finish;
      if id !in timers {
        return;
      }
      var fired := timers[id];
      timers := timers - {id};
      if fired.gen != generation {
        return;
      }
      RunFetch(fired.props, While(fired.gen));
    }

    method OnFocus()
      modifies this
      ensures View() == Step(old(View()), Focus)
    {
      if mounted && enabled {
        hidden := false;
        RunFetch(props, Always);
      }
    }

    method OnVisibility(nowHidden: bool)
      modifies this
      ensures View() == Step(old(View()), Visibility(nowHidden))
    {
      hide StartFetch, Schedule;
      VisibilityStep(View(), nowHidden);
      hide Step;
      if !(mounted && enabled) {
        return;
      }
      hidden := nowHidden;
      if !hidden {
        RunFetch(props, Always);
      } else {
        ScheduleNext(props);
      }
    }

    method OnRefresh(captured: Props)
      modifies this
      ensures View() == Step(old(View()), Refresh(captured))
    {
      RunFetch(captured, Always);
    }

    /** Whatever was pending is stale from here on, so the overlap guard is released too. */
    method NewGeneration()
      modifies this`mounted, this`generation, this`inFlight
      ensures View() == old(View()).(mounted := true, generation := old(generation) + 1, inFlight := false)
    {
      mounted := true;
      generation := generation + 1;
      inFlight := false;
    }

    method EnterEffect()
      modifies this
      ensures View() == Enter(old(View()))
    {
      hide StartFetch, ClearTimer;
      NewGeneration();
      if !enabled {
        ClearPending();
        loading := false;
        return;
      }
      RunFetch(props, While(generation));
    }

    method LeaveEffect()
      modifies this
      ensures View() == Leave(old(View()))
    {
      mounted := false;
      ClearPending();
    }

    method OnRender(newProps: Props, newEnabled: bool)
      modifies this
      ensures View() == Step(old(View()), Render(newProps, newEnabled))
    {
      hide Leave, Enter;
      RenderStep(View(), newProps, newEnabled);
      hide Step;
      if mounted && newProps == props && newEnabled == enabled {
        return;
      }
      enabled, props := newEnabled, newProps;
      LeaveEffect();
      EnterEffect();
    }

    method OnUnmount()
      modifies this
      ensures View() == Step(old(View()), Unmount)
    {
      if mounted {
        LeaveEffect();
      }
    }

    /** What holds between any two callbacks. */
    ghost predicate Valid()
      reads this
    {
      Sound(View())
    }

    /** Whichever callback runs next, the guarantees of every run hold after it. */
    method Handle(e: Event<T>)
      requires Valid()
      modifies this
      ensures View() == Step(old(View()), e) && Valid()
      ensures !e.Resolve? && !e.Reject? ==> Shown() == old(Shown())
      ensures !old(mounted) && !e.Render? ==> Shown() == old(Shown()) && !mounted
    {
      hide Step, Sound;
      SoundStep(View(), e);
      match e
      case Resolve(id, payload) => OnResolved(id, payload);
      case Reject(id, message) => OnRejected(id, message);
      case Proceed(id) => OnProceed(id);
      case Fire(id) => OnTimer(id);
      case Focus => OnFocus();
      case Visibility(nowHidden) => OnVisibility(nowHidden);
      case Refresh(captured) => OnRefresh(captured);
      case Render(newProps, newEnabled) => OnRender(newProps, newEnabled);
      case Unmount => OnUnmount();
    }
  }
}
