/**
 The restart protocol of the Postgres job handler.

 Every registration stops the running worker pool, changes the handler, and arms a timer that starts a
 new pool later. Registrations, Shutdown and timer callbacks race for one mutex, so each of them is one
 atomic step here. A timer expires without the mutex: its callback then waits for it.
 */
module PostgresJobs {
  import opened Options

  type JobType = string
  type WorkFunc = nat
  type WorkMap = map<JobType, WorkFunc>

  /** The job gueron adds to the work map each time it runs. */
  const REFRESH_JOB: JobType := "gueron-refresh-schedule"
  const REFRESH_FUNC: WorkFunc := 0

  datatype Schedule = Schedule(spec: string, jobType: JobType)

  /** Armed: not expired. Fired: expired, its callback waits for the mutex. Spent: stopped, or its callback returned. */
  datatype TimerState = Armed | Fired | Spent

  /**
   A worker pool remembers the job types and the scheduler's schedules it was started with. An ended pool keeps its
   error: Wait reports it again.
   */
  datatype PoolState = Live | Ended(failed: bool)
  datatype Pool = Pool(jobs: WorkMap, schedules: seq<Schedule>, state: PoolState)

  datatype Handler = Handler(
    hasStarted: bool,
    isStartInProgress: bool,
    startTimer: Option<nat>,
    workMap: WorkMap,
    schedules: seq<Schedule>,
    scheduler: seq<Schedule>, // what the scheduler was given and took
    timers: seq<TimerState>,  // every timer ever created
    pools: seq<Pool>,         // every pool ever started, the handler refers to the last one
    schedulerErrors: nat      // history: how often scheduler.Run failed
  )

  const INITIAL := Handler(false, false, None, map[], [], [], [], [], 0)

  /** What the callback given to executeBetweenRestarts does. */
  datatype Change = AddWorker(jobType: JobType, fn: WorkFunc) | AddSchedule(schedule: Schedule, addFails: bool)

  /** How the parts outside the handler behave while a pool is shut down. */
  datatype StopEnv = StopEnv(poolFails: bool, upsertFails: bool)

  datatype Outcome = Success | ShutdownFailed | ChangeFailed | AlreadyStarted | SchedulerFailed | Invalid

  /** A JobFunc as reflection shows it. */
  datatype Param = Param(kind: string, pkg: string, name: string)
  datatype JobFunc = NoFunc | Func(params: seq<Param>, results: seq<string>)

  /** A function of a context and a struct that returns an error; either half of the context's name will do. */
  predicate IsValidJobFunc(f: JobFunc) {
    && f.Func? && |f.params| == 2
    && f.params[0].kind == "interface" && (f.params[0].pkg == "context" || f.params[0].name == "Context")
    && f.params[1].kind == "struct"
    && f.results == ["error"]
  }

  datatype Event =
    | Register(change: Change, env: StopEnv)
    | Shutdown(env: StopEnv)
    | TimerExpires(timer: nat)
    | StartWorkers(timer: nat, schedulerFails: bool)
    | PoolDies

  // ----- transitions -----

  predicate HasPool(s: Handler) { |s.pools| > 0 }

  function LastPool(s: Handler): Pool
    requires HasPool(s)
  {
    s.pools[|s.pools| - 1]
  }

  function LastStarted(s: Handler): WorkMap {
    if HasPool(s) then LastPool(s).jobs else map[]
  }

  function LastScheduled(s: Handler): seq<Schedule> {
    if HasPool(s) then LastPool(s).schedules else []
  }

  /** Cancels the pool and waits for its workers; a pool that already ended keeps its error. */
  function EndPool(s: Handler, fails: bool): Handler {
    if HasPool(s) && LastPool(s).state.Live? then
      s.(pools := s.pools[|s.pools| - 1 := LastPool(s).(state := Ended(fails))])
    else s
  }

  function DoShutdown(s: Handler, env: StopEnv): (Handler, Outcome) {
    if !s.hasStarted then (s, Success)
    else
      var t := EndPool(s, env.poolFails);
      if HasPool(t) && LastPool(t).state == Ended(true) then (t, ShutdownFailed)
      else if env.upsertFails then (t, ShutdownFailed)
      else (t.(hasStarted := false), Success)
  }

  function Apply(s: Handler, change: Change): (Handler, Outcome) {
    match change
    case AddWorker(t, f) =>
      if t in s.workMap then (s, ChangeFailed) else (s.(workMap := s.workMap[t := f]), Success)
    case AddSchedule(schedule, addFails) =>
      if addFails then (s.(schedules := s.schedules + [schedule]), ChangeFailed)
      else (s.(schedules := s.schedules + [schedule], scheduler := s.scheduler + [schedule]), Success)
  }

  predicate TimerIsArmed(s: Handler) {
    s.startTimer.Some? && s.startTimer.value < |s.timers| && s.timers[s.startTimer.value].Armed?
  }

  function StopTimer(s: Handler): Handler {
    if TimerIsArmed(s) then s.(timers := s.timers[s.startTimer.value := Spent]) else s
  }

  function ArmTimer(s: Handler): Handler {
    s.(startTimer := Some(|s.timers|), timers := s.timers + [Armed], isStartInProgress := true)
  }

  function DoRegister(s: Handler, change: Change, env: StopEnv): (Handler, Outcome) {
    var (stopped, out) := DoShutdown(s, env);
    if out != Success then (stopped, out)
    else
      var (changed, changeOut) := Apply(stopped, change);
      if changed.isStartInProgress && !TimerIsArmed(changed) then (changed, Success)
      else if changed.isStartInProgress then (ArmTimer(StopTimer(changed)), changeOut)
      else (ArmTimer(changed), changeOut)
  }

  function DoStart(s: Handler, schedulerFails: bool): (Handler, Outcome) {
    if s.hasStarted then (s, AlreadyStarted)
    else if schedulerFails then (s.(schedulerErrors := s.schedulerErrors + 1), SchedulerFailed)
    else
      var m := s.workMap[REFRESH_JOB := REFRESH_FUNC];
      (s.(workMap := m, pools := s.pools + [Pool(m, s.scheduler, Live)], hasStarted := true, isStartInProgress := false),
       Success)
  }

  predicate Enabled(s: Handler, e: Event) {
    match e
    case TimerExpires(i) => i < |s.timers| && s.timers[i].Armed?
    case StartWorkers(i, _) => i < |s.timers| && s.timers[i].Fired?
    case _ => true
  }

  function Step(s: Handler, e: Event): (Handler, Outcome)
    requires Enabled(s, e)
  {
    match e
    case Register(change, env) => DoRegister(s, change, env)
    case Shutdown(env) => DoShutdown(s, env)
    case TimerExpires(i) => (s.(timers := s.timers[i := Fired]), Success)
    case StartWorkers(i, fails) => DoStart(s.(timers := s.timers[i := Spent]), fails)
    case PoolDies => (EndPool(s, true), Success)
  }

  /** The run of `events` from `s`; events that are not enabled do not happen. */
  function Run(s: Handler, events: seq<Event>): Handler
    decreases |events|
  {
    if events == [] then s
    else Run(if Enabled(s, events[0]) then Step(s, events[0]).0 else s, events[1..])
  }

  // ----- the invariant -----

  predicate Outstanding(s: Handler, i: nat) { i < |s.timers| && !s.timers[i].Spent? }

  predicate StartOutstanding(s: Handler) { s.startTimer.Some? && Outstanding(s, s.startTimer.value) }

  predicate IsLive(s: Handler, p: nat) { p < |s.pools| && s.pools[p].state.Live? }

  ghost predicate AnyLive(s: Handler) { exists p: nat :: IsLive(s, p) }

  ghost predicate Inv(s: Handler) {
    && (forall i: nat :: Outstanding(s, i) ==> s.startTimer == Some(i) && s.isStartInProgress)
    && (s.isStartInProgress ==> !s.hasStarted && s.startTimer.Some?)
    && (s.hasStarted ==> HasPool(s))
    && (forall p: nat :: IsLive(s, p) ==> s.hasStarted && p == |s.pools| - 1)
    && (s.isStartInProgress && !StartOutstanding(s) <==> s.schedulerErrors > 0)
    && (s.isStartInProgress || (s.workMap == LastStarted(s) && s.scheduler == LastScheduled(s)))
  }

  lemma RegisterKeepsInv(s: Handler, change: Change, env: StopEnv)
    requires Inv(s)
    ensures Inv(DoRegister(s, change, env).0)
  {
    var t := DoRegister(s, change, env).0;
    var stopped := DoShutdown(s, env).0;
    ShutdownKeepsInv(s, env);
    if DoShutdown(s, env).1 == Success {
      var changed := Apply(stopped, change).0;
      assert forall i: nat :: Outstanding(changed, i) <==> Outstanding(stopped, i);
      assert forall p: nat :: IsLive(t, p) <==> IsLive(stopped, p);
      if changed.isStartInProgress && TimerIsArmed(changed) {
        forall i: nat | Outstanding(t, i) ensures i == |changed.timers| {
          if i < |changed.timers| { assert Outstanding(changed, i); }
        }
      }
    }
  }

  lemma StartKeepsInv(s: Handler, i: nat, fails: bool)
    requires Inv(s) && Enabled(s, StartWorkers(i, fails))
    ensures Inv(Step(s, StartWorkers(i, fails)).0)
  {
    var t := Step(s, StartWorkers(i, fails)).0;
    assert Outstanding(s, i);
    forall j: nat ensures !Outstanding(t, j) {
      if Outstanding(t, j) { assert Outstanding(s, j); }
    }
    assert forall p: nat :: p < |s.pools| ==> t.pools[p] == s.pools[p] && !IsLive(s, p);
  }

  lemma StepKeepsInv(s: Handler, e: Event)
    requires Inv(s) && Enabled(s, e)
    ensures Inv(Step(s, e).0)
  {
    var t := Step(s, e).0;
    match e
    case Register(change, env) => RegisterKeepsInv(s, change, env);
    case Shutdown(env) => ShutdownKeepsInv(s, env);
    case TimerExpires(i) =>
      assert Outstanding(s, i);
      assert forall j: nat :: Outstanding(t, j) <==> Outstanding(s, j);
      assert forall p: nat :: IsLive(t, p) <==> IsLive(s, p);
    case StartWorkers(i, fails) => StartKeepsInv(s, i, fails);
    case PoolDies =>
      assert forall i: nat :: Outstanding(t, i) <==> Outstanding(s, i);
      forall p: nat ensures !IsLive(t, p) {
        if IsLive(t, p) { assert IsLive(s, p); }
      }
  }

  lemma ShutdownKeepsInv(s: Handler, env: StopEnv)
    requires Inv(s)
    ensures Inv(DoShutdown(s, env).0)
    ensures !AnyLive(DoShutdown(s, env).0)
  {
    var t := DoShutdown(s, env).0;
    assert forall i: nat :: Outstanding(t, i) <==> Outstanding(s, i);
    assert forall p: nat :: !IsLive(t, p) by {
      forall p: nat ensures !IsLive(t, p) {
        if IsLive(t, p) && !IsLive(s, p) { assert false; }
      }
    }
  }

  lemma {:induction false} RunKeepsInv(s: Handler, events: seq<Event>)
    requires Inv(s)
    ensures Inv(Run(s, events))
    decreases |events|
  {
    if events == [] {
    } else {
      if Enabled(s, events[0]) {
        StepKeepsInv(s, events[0]);
        RunKeepsInv(Step(s, events[0]).0, events[1..]);
      } else {
        RunKeepsInv(s, events[1..]);
      }
    }
  }

  lemma InitialInv()
    ensures Inv(INITIAL)
  {
    assert forall i: nat :: !Outstanding(INITIAL, i);
    assert forall p: nat :: !IsLive(INITIAL, p);
  }

  // ----- safety of every run -----

  /** At most one start is outstanding, and none while a pool has started; at most one pool is live. */
  lemma AtMostOneStartAndOnePool(events: seq<Event>)
    ensures var s := Run(INITIAL, events);
            && (forall i: nat, j: nat :: Outstanding(s, i) && Outstanding(s, j) ==> i == j && !s.hasStarted)
            && (forall p: nat, q: nat :: IsLive(s, p) && IsLive(s, q) ==> p == q && s.hasStarted)
  {
    InitialInv();
    RunKeepsInv(INITIAL, events);
  }

  /** A timer callback never finds the queue already started. */
  lemma NeverAlreadyStarted(events: seq<Event>, e: Event)
    requires Enabled(Run(INITIAL, events), e)
    ensures Step(Run(INITIAL, events), e).1 != AlreadyStarted
  {
    InitialInv();
    RunKeepsInv(INITIAL, events);
    var s := Run(INITIAL, events);
    if e.StartWorkers? { assert Outstanding(s, e.timer); }
  }

  /** Shutdown either leaves no live pool and reports success, or the callback that would follow does not run. */
  lemma CallbackRunsBetweenPools(events: seq<Event>, change: Change, env: StopEnv)
    ensures var s := Run(INITIAL, events);
            var (stopped, out) := DoShutdown(s, env);
            var (after, _) := DoRegister(s, change, env);
            && !AnyLive(stopped) && !AnyLive(after)
            && (out != Success ==> after.workMap == s.workMap && after.schedules == s.schedules && after.hasStarted)
            && (out != Success ==> after.scheduler == s.scheduler)
            && (out == Success ==> !stopped.hasStarted && after.workMap == Apply(stopped, change).0.workMap)
  {
    InitialInv();
    RunKeepsInv(INITIAL, events);
    var s := Run(INITIAL, events);
    ShutdownKeepsInv(s, env);
    var stopped := DoShutdown(s, env).0;
    var after := DoRegister(s, change, env).0;
    assert after.pools == stopped.pools;
    forall p: nat ensures !IsLive(after, p) {
      assert !IsLive(stopped, p);
    }
  }

  /** The function given by the first registration of `t` whose callback ran. */
  function FirstRegistered(s: Handler, events: seq<Event>, t: JobType): Option<WorkFunc>
    decreases |events|
  {
    if events == [] then None
    else
      var e := events[0];
      if e.Register? && e.change.AddWorker? && e.change.jobType == t && DoShutdown(s, e.env).1 == Success then
        Some(e.change.fn)
      else FirstRegistered(if Enabled(s, e) then Step(s, e).0 else s, events[1..], t)
  }

  /** Over a whole run the work map is write-once: the first registration of a job type stays, no other enters. */
  lemma {:induction false} WorkMapIsFirstRegistration(s: Handler, events: seq<Event>, t: JobType)
    requires t != REFRESH_JOB
    ensures var m := Run(s, events).workMap;
            if t in s.workMap then t in m && m[t] == s.workMap[t]
            else match FirstRegistered(s, events, t)
                 case None => t !in m
                 case Some(f) => t in m && m[t] == f
    decreases |events|
  {
    if events == [] {
    } else {
      var e := events[0];
      if Enabled(s, e) { StepRegistersFirst(s, e, t); }
      WorkMapIsFirstRegistration(if Enabled(s, e) then Step(s, e).0 else s, events[1..], t);
    }
  }

  lemma ShutdownKeepsWork(s: Handler, env: StopEnv)
    ensures DoShutdown(s, env).0.workMap == s.workMap
  {
  }

  lemma RegisterWorkMap(s: Handler, change: Change, env: StopEnv)
    ensures DoRegister(s, change, env).0.workMap
         == if DoShutdown(s, env).1 == Success then Apply(s, change).0.workMap else s.workMap
  {
    ShutdownKeepsWork(s, env);
  }

  lemma StepRegistersFirst(s: Handler, e: Event, t: JobType)
    requires t != REFRESH_JOB && Enabled(s, e)
    ensures var m := Step(s, e).0.workMap;
            var registers := e.Register? && e.change.AddWorker? && e.change.jobType == t && DoShutdown(s, e.env).1 == Success;
            if t in s.workMap then t in m && m[t] == s.workMap[t]
            else (t in m <==> registers) && (registers ==> m[t] == e.change.fn)
  {
    match e
    case Register(change, env) => RegisterWorkMap(s, change, env);
    case Shutdown(env) => ShutdownKeepsWork(s, env);
    case _ =>
  }

  /** The schedules whose callback ran, in order; with `taken`, only those that the scheduler took. */
  function ScheduledBy(s: Handler, events: seq<Event>, taken: bool): seq<Schedule>
    decreases |events|
  {
    if events == [] then []
    else
      var e := events[0];
      (if e.Register? then NewSchedule(s, e.change, e.env, taken) else [])
      + ScheduledBy(if Enabled(s, e) then Step(s, e).0 else s, events[1..], taken)
  }

  function NewSchedule(s: Handler, change: Change, env: StopEnv, taken: bool): seq<Schedule> {
    if change.AddSchedule? && DoShutdown(s, env).1 == Success && !(taken && change.addFails) then [change.schedule] else []
  }

  /** Over a whole run the schedules are a log: none is lost by a restart, none is entered twice by one call. */
  lemma {:induction false} SchedulesAreKept(s: Handler, events: seq<Event>)
    ensures Run(s, events).schedules == s.schedules + ScheduledBy(s, events, false)
    ensures Run(s, events).scheduler == s.scheduler + ScheduledBy(s, events, true)
    decreases |events|
  {
    if events == [] {
    } else {
      var next := if Enabled(s, events[0]) then Step(s, events[0]).0 else s;
      ScheduledFirst(s, events, next, false);
      ScheduledFirst(s, events, next, true);
      SchedulesAreKept(next, events[1..]);
    }
  }

  /** What the first event adds comes first. */
  lemma ScheduledFirst(s: Handler, events: seq<Event>, next: Handler, taken: bool)
    requires events != [] && next == if Enabled(s, events[0]) then Step(s, events[0]).0 else s
    ensures var (before, after) := if taken then (s.scheduler, next.scheduler) else (s.schedules, next.schedules);
            before + ScheduledBy(s, events, taken) == after + ScheduledBy(next, events[1..], taken)
  {
    StepSchedules(s, events[0]);
    var before := if taken then s.scheduler else s.schedules;
    var first := if events[0].Register? then NewSchedule(s, events[0].change, events[0].env, taken) else [];
    assert before + (first + ScheduledBy(next, events[1..], taken)) == before + first + ScheduledBy(next, events[1..], taken);
  }

  lemma StepSchedules(s: Handler, e: Event)
    ensures var next := if Enabled(s, e) then Step(s, e).0 else s;
            && next.schedules == s.schedules + (if e.Register? then NewSchedule(s, e.change, e.env, false) else [])
            && next.scheduler == s.scheduler + (if e.Register? then NewSchedule(s, e.change, e.env, true) else [])
  {
    if e.Register? { RegisterSchedules(s, e.change, e.env); }
  }

  lemma RegisterSchedules(s: Handler, change: Change, env: StopEnv)
    ensures DoRegister(s, change, env).0.schedules == s.schedules + NewSchedule(s, change, env, false)
    ensures DoRegister(s, change, env).0.scheduler == s.scheduler + NewSchedule(s, change, env, true)
  {
    var stopped := DoShutdown(s, env).0;
    assert stopped.schedules == s.schedules && stopped.scheduler == s.scheduler;
  }

  // ----- no registration is missed -----

  /** The last started pool knows every registered job type, and its scheduler every schedule. */
  predicate UpToDate(s: Handler) { s.workMap == LastStarted(s) && s.scheduler == LastScheduled(s) }

  ghost predicate Missed(s: Handler) { !UpToDate(s) && !StartOutstanding(s) }

  /** A change is left without a pool and without an outstanding start exactly after scheduler.Run has failed. */
  lemma MissedOnlyAfterSchedulerError(events: seq<Event>)
    ensures var s := Run(INITIAL, events);
            && (Missed(s) <==> s.schedulerErrors > 0 && !UpToDate(s))
            && (s.schedulerErrors == 0 ==> (s.isStartInProgress <==> StartOutstanding(s)))
  {
    InitialInv();
    RunKeepsInv(INITIAL, events);
  }

  /** The timer steps that serve the outstanding start. */
  function Serve(s: Handler): seq<Event>
    requires StartOutstanding(s)
  {
    var i := s.startTimer.value;
    if s.timers[i].Armed? then [TimerExpires(i), StartWorkers(i, false)] else [StartWorkers(i, false)]
  }

  /** Letting the timer run its course starts a pool that knows every registered job type and schedule. */
  lemma OutstandingStartIsServed(s: Handler)
    requires Inv(s) && StartOutstanding(s)
    ensures var t := Run(s, Serve(s));
            && t.hasStarted && AnyLive(t) && !StartOutstanding(t)
            && LastStarted(t) == s.workMap[REFRESH_JOB := REFRESH_FUNC] && LastScheduled(t) == s.scheduler
  {
    var i := s.startTimer.value;
    assert Outstanding(s, i);
    var fired := if s.timers[i].Armed? then Step(s, TimerExpires(i)).0 else s;
    var t := Step(fired, StartWorkers(i, false)).0;
    assert Run(fired, [StartWorkers(i, false)]) == Run(t, []);
    if s.timers[i].Armed? {
      assert Serve(s)[1..] == [StartWorkers(i, false)];
    }
    assert IsLive(t, |t.pools| - 1);
  }

  /** After one scheduler error no run ever starts a pool again, although every registration reports success. */
  lemma {:induction false} SchedulerErrorWedges(s: Handler, events: seq<Event>, change: Change, env: StopEnv)
    requires Inv(s) && s.schedulerErrors > 0
    ensures var t := Run(s, events);
            && t.pools == s.pools && !t.hasStarted && !AnyLive(t) && !StartOutstanding(t)
            && DoRegister(t, change, env).1 == Success
    decreases |events|
  {
    if events == [] {
    } else {
      var e := events[0];
      if Enabled(s, e) {
        StepKeepsInv(s, e);
        if e.StartWorkers? || e.TimerExpires? { assert Outstanding(s, e.timer); }
        if e.PoolDies? { assert !HasPool(s) || !IsLive(s, |s.pools| - 1); }
        SchedulerErrorWedges(Step(s, e).0, events[1..], change, env);
      } else {
        SchedulerErrorWedges(s, events[1..], change, env);
      }
    }
  }

  /** The last pool has ended with an error that no shutdown can get past. */
  predicate FailedPool(s: Handler) { s.hasStarted && HasPool(s) && LastPool(s).state == Ended(true) }

  /** A pool that ended with an error wedges the handler too: nothing changes it, and all calls report the old error. */
  lemma {:induction false} FailedPoolWedges(s: Handler, events: seq<Event>, change: Change, env: StopEnv)
    requires Inv(s) && FailedPool(s)
    ensures Run(s, events) == s
    ensures DoRegister(s, change, env) == (s, ShutdownFailed) && DoShutdown(s, env) == (s, ShutdownFailed)
    decreases |events|
  {
    if events == [] {
    } else {
      var e := events[0];
      if Enabled(s, e) {
        if e.StartWorkers? || e.TimerExpires? { assert Outstanding(s, e.timer); }
        assert Step(s, e).0 == s;
      }
      FailedPoolWedges(s, events[1..], change, env);
    }
  }

  /** How a handler gets there: a live pool ends with an error by itself, or while it is being stopped. */
  lemma PoolFailsIff(s: Handler, e: Event)
    requires Inv(s) && Enabled(s, e) && !FailedPool(s)
    ensures FailedPool(Step(s, e).0) <==>
            AnyLive(s) && (e.PoolDies? || (e.Register? && e.env.poolFails) || (e.Shutdown? && e.env.poolFails))
  {
    if HasPool(s) { assert IsLive(s, |s.pools| - 1) <==> LastPool(s).state.Live?; }
    if p: nat :| IsLive(s, p) { assert p == |s.pools| - 1; }
    if e.Register? && DoShutdown(s, e.env).1 == Success { assert !DoRegister(s, e.change, e.env).0.hasStarted; }
  }

  /** The last pool has ended, without an error, but the handler takes it for started, so no start is outstanding. */
  predicate Idle(s: Handler) { s.hasStarted && HasPool(s) && LastPool(s).state == Ended(false) }

  /** The event is a call that gets past the update of the pool's row. */
  predicate Unregisters(e: Event) { (e.Register? || e.Shutdown?) && !e.env.upsertFails }

  /** How a handler gets there: a live pool is stopped well, and then the update of its row fails. */
  lemma PoolIdlesIff(s: Handler, e: Event)
    requires Inv(s) && Enabled(s, e) && !Idle(s)
    ensures Idle(Step(s, e).0) <==>
            AnyLive(s) && (e.Register? || e.Shutdown?) && !e.env.poolFails && e.env.upsertFails
  {
    if HasPool(s) { assert IsLive(s, |s.pools| - 1) <==> LastPool(s).state.Live?; }
    if p: nat :| IsLive(s, p) { assert p == |s.pools| - 1; }
    if e.Register? && DoShutdown(s, e.env).1 == Success { assert !DoRegister(s, e.change, e.env).0.hasStarted; }
  }

  /**
   Such a handler works nothing off, although its last pool was given all work there is, and nothing changes it until
   a call gets past the update: a registration then has a start outstanding, a Shutdown has really stopped.
   */
  lemma {:induction false} IdleUntilCallSucceeds(s: Handler, events: seq<Event>, e: Event)
    requires Inv(s) && Idle(s) && Enabled(s, e)
    requires forall k :: 0 <= k < |events| ==> !Unregisters(events[k])
    ensures Run(s, events) == s && UpToDate(s) && !AnyLive(s) && !StartOutstanding(s)
    ensures Unregisters(e) <==> !Idle(Step(s, e).0)
    ensures Unregisters(e) ==> !Step(s, e).0.hasStarted && (StartOutstanding(Step(s, e).0) <==> e.Register?)
    decreases |events|
  {
    IdleStep(s, e);
    if events == [] {
    } else {
      assert !Unregisters(events[0]);
      if Enabled(s, events[0]) { IdleStep(s, events[0]); }
      IdleUntilCallSucceeds(s, events[1..], e);
    }
  }

  lemma IdleStep(s: Handler, e: Event)
    requires Inv(s) && Idle(s) && Enabled(s, e)
    ensures UpToDate(s) && !AnyLive(s) && !StartOutstanding(s)
    ensures Unregisters(e) <==> !Idle(Step(s, e).0)
    ensures Unregisters(e) ==> !Step(s, e).0.hasStarted && (StartOutstanding(Step(s, e).0) <==> e.Register?)
    ensures !Unregisters(e) ==> Step(s, e).0 == s
  {
    assert !IsLive(s, |s.pools| - 1);
    if e.StartWorkers? || e.TimerExpires? { assert Outstanding(s, e.timer); }
    if e.Register? && Unregisters(e) {
      var t := Step(s, e).0;
      assert t.startTimer == Some(|s.timers|) && t.timers == s.timers + [Armed];
      assert Outstanding(t, |s.timers|);
    }
  }

  /** A rejected change is reported unless an expired timer hides it. */
  lemma RejectedChangeIsReported(events: seq<Event>, change: Change, env: StopEnv)
    ensures var s := Run(INITIAL, events);
            var (stopped, out) := DoShutdown(s, env);
            out == Success && Apply(stopped, change).1 == ChangeFailed ==>
              (DoRegister(s, change, env).1 == ChangeFailed <==> s.hasStarted || !s.isStartInProgress || TimerIsArmed(s))
  {
    InitialInv();
    RunKeepsInv(INITIAL, events);
  }

  /** Registering the same type again while the callback of the expired timer waits returns no error. */
  lemma HiddenRejectionExample()
    ensures var env := StopEnv(false, false);
            var s := Run(INITIAL, [Register(AddWorker("mail", 1), env), TimerExpires(0)]);
            && Apply(s, AddWorker("mail", 2)).1 == ChangeFailed
            && DoRegister(s, AddWorker("mail", 2), env).1 == Success
  {
    var env := StopEnv(false, false);
    var r := Register(AddWorker("mail", 1), env);
    var events := [r, TimerExpires(0)];
    var s1 := Step(INITIAL, r).0;
    assert events[1..] == [TimerExpires(0)];
    assert Run(INITIAL, events) == Run(s1, [TimerExpires(0)]);
    var s2 := Step(s1, TimerExpires(0)).0;
    assert Run(s1, [TimerExpires(0)]) == Run(s2, []);
  }

  // ----- what the calls answer and change, said of the state before them -----

  ghost predicate StopFails(s: Handler, env: StopEnv) {
    s.hasStarted && (FailedPool(s) || (AnyLive(s) && env.poolFails) || env.upsertFails)
  }

  /** The callback of a registration returns an error. */
  predicate Refused(s: Handler, change: Change) {
    match change
    case AddWorker(t, _) => t in s.workMap
    case AddSchedule(_, addFails) => addFails
  }

  ghost predicate AnyArmed(s: Handler) { exists i: nat :: i < |s.timers| && s.timers[i].Armed? }

  /** A start is in progress, but its timer can no longer be stopped. */
  ghost predicate TooLateToStop(s: Handler) { s.isStartInProgress && !AnyArmed(s) }

  /** The pools after they were stopped: a live one has ended, and with an error exactly if stopping it gave one. */
  ghost predicate PoolsStopped(before: seq<Pool>, after: seq<Pool>, fails: bool) {
    |after| == |before| && forall p :: 0 <= p < |before| ==>
      after[p] == if before[p].state.Live? then before[p].(state := Ended(fails)) else before[p]
  }

  lemma ArmedIff(s: Handler)
    requires Inv(s)
    ensures AnyArmed(s) <==> TimerIsArmed(s)
  {
    if i: nat :| i < |s.timers| && s.timers[i].Armed? { assert Outstanding(s, i); }
  }

  lemma StopAnswers(s: Handler, env: StopEnv)
    requires Inv(s)
    ensures var (t, out) := DoShutdown(s, env);
            && out == (if StopFails(s, env) then ShutdownFailed else Success)
            && t == s.(pools := t.pools, hasStarted := StopFails(s, env))
            && (if s.hasStarted then PoolsStopped(s.pools, t.pools, env.poolFails) else t.pools == s.pools)
  {
    if HasPool(s) { assert IsLive(s, |s.pools| - 1) <==> LastPool(s).state.Live?; }
    if p: nat :| IsLive(s, p) { assert p == |s.pools| - 1; }
    forall p: nat | p < |s.pools| - 1 ensures !s.pools[p].state.Live? { assert !IsLive(s, p); }
  }

  /** Over every run: what Shutdown answers, and all that it changes. */
  lemma ShutdownAnswersIff(events: seq<Event>, env: StopEnv)
    ensures var s := Run(INITIAL, events);
            var (t, out) := Step(s, Shutdown(env));
            && (out == ShutdownFailed <==> StopFails(s, env)) && (out == Success <==> !StopFails(s, env))
            && t == s.(pools := t.pools, hasStarted := StopFails(s, env))
            && (if s.hasStarted then PoolsStopped(s.pools, t.pools, env.poolFails) else t.pools == s.pools)
  {
    InitialInv();
    RunKeepsInv(INITIAL, events);
    StopAnswers(Run(INITIAL, events), env);
  }

  /**
   Over every run: what a registration answers. It fails exactly if the pool cannot be stopped, or if the change is
   refused and no expired timer hides that.
   */
  lemma RegistrationAnswersIff(events: seq<Event>, change: Change, env: StopEnv)
    ensures var s := Run(INITIAL, events);
            var out := Step(s, Register(change, env)).1;
            && (out == ShutdownFailed <==> StopFails(s, env))
            && (out == ChangeFailed <==> !StopFails(s, env) && Refused(s, change) && !TooLateToStop(s))
            && (out == Success <==> !StopFails(s, env) && (Refused(s, change) ==> TooLateToStop(s)))
  {
    InitialInv();
    RunKeepsInv(INITIAL, events);
    var s := Run(INITIAL, events);
    ArmedIff(s);
    StopAnswers(s, env);
  }

  /**
   And what it changes: nothing but the pools if these cannot be stopped. Otherwise a change that is not refused is
   made, a schedule is kept even if it is refused, and unless it is too late a new timer is the only one that is armed.
   */
  lemma RegistrationChanges(events: seq<Event>, change: Change, env: StopEnv)
    ensures var s := Run(INITIAL, events);
            var t := Step(s, Register(change, env)).0;
            && t.schedulerErrors == s.schedulerErrors
            && (if s.hasStarted then PoolsStopped(s.pools, t.pools, env.poolFails) else t.pools == s.pools)
            && if StopFails(s, env) then t == s.(pools := t.pools)
               else
                 && !t.hasStarted && t.isStartInProgress
                 && t.workMap == (if change.AddWorker? && change.jobType !in s.workMap
                                  then s.workMap[change.jobType := change.fn] else s.workMap)
                 && t.schedules == s.schedules + (if change.AddSchedule? then [change.schedule] else [])
                 && t.scheduler == s.scheduler + (if change.AddSchedule? && !change.addFails then [change.schedule] else [])
                 && (if TooLateToStop(s) then t.timers == s.timers && t.startTimer == s.startTimer
                     else OnlyNewTimerIsArmed(s, t))
  {
    InitialInv();
    RunKeepsInv(INITIAL, events);
    var s := Run(INITIAL, events);
    ArmedIff(s);
    StopAnswers(s, env);
    RegisterKeepsInv(s, change, env);
    var t := DoRegister(s, change, env).0;
    if !StopFails(s, env) && !TooLateToStop(s) {
      assert t.timers[|s.timers|].Armed?;
      forall i: nat | i < |s.timers| ensures t.timers[i].Spent? {
        if !t.timers[i].Spent? { assert Outstanding(t, i); }
      }
    }
  }

  ghost predicate OnlyNewTimerIsArmed(s: Handler, t: Handler) {
    && t.startTimer == Some(|s.timers|) && |t.timers| == |s.timers| + 1 && t.timers[|s.timers|].Armed?
    && forall i :: 0 <= i < |s.timers| ==> t.timers[i].Spent?
  }

  /** Over every run: what the callback of an expired timer answers, and all that it changes. */
  lemma StartAnswersIff(events: seq<Event>, timer: nat, schedulerFails: bool)
    requires Enabled(Run(INITIAL, events), StartWorkers(timer, schedulerFails))
    ensures var s := Run(INITIAL, events);
            var (t, out) := Step(s, StartWorkers(timer, schedulerFails));
            var spent := s.(timers := s.timers[timer := Spent]);
            if schedulerFails then out == SchedulerFailed && t == spent.(schedulerErrors := s.schedulerErrors + 1)
            else
              && out == Success && t.hasStarted && !t.isStartInProgress
              && t.pools == s.pools + [Pool(t.workMap, s.scheduler, Live)]
              && t.workMap.Keys == s.workMap.Keys + {REFRESH_JOB}
              && (forall k :: k in s.workMap && k != REFRESH_JOB ==> t.workMap[k] == s.workMap[k])
              && t == spent.(workMap := t.workMap, pools := t.pools, hasStarted := true, isStartInProgress := false)
  {
    NeverAlreadyStarted(events, StartWorkers(timer, schedulerFails));
  }

  /**
   Which functions are accepted. The check of the first parameter asks for either half of its name, so that an
   interface of another package that is called Context passes, and so does any interface of package context.
   */
  lemma JobFuncIsValidIff(f: JobFunc)
    ensures IsValidJobFunc(f) <==>
              exists pkg: string, name: string, job: Param ::
                && f == Func([Param("interface", pkg, name), job], ["error"])
                && (pkg == "context" || name == "Context") && job.kind == "struct"
    ensures IsValidJobFunc(Func([Param("interface", "mail", "Context"), Param("struct", "mail", "Job")], ["error"]))
  {
    if IsValidJobFunc(f) {
      var ctx, job := f.params[0], f.params[1];
      assert f == Func([Param("interface", ctx.pkg, ctx.name), job], ["error"]);
    }
  }

  predicate NoRegistration(events: seq<Event>) {
    forall k :: 0 <= k < |events| ==> !events[k].Register?
  }

  /**
   A successful Shutdown leaves no live pool, but it does not cancel an outstanding start: without any further
   registration a pool can become live again exactly when a start was outstanding.
   */
  lemma ShutdownIsFinalUnlessStartOutstanding(events: seq<Event>, env: StopEnv)
    requires DoShutdown(Run(INITIAL, events), env).1 == Success
    ensures var s := DoShutdown(Run(INITIAL, events), env).0;
            && !AnyLive(s)
            && (StartOutstanding(s) <==> exists es: seq<Event> :: NoRegistration(es) && AnyLive(Run(s, es)))
  {
    InitialInv();
    RunKeepsInv(INITIAL, events);
    var before := Run(INITIAL, events);
    ShutdownKeepsInv(before, env);
    var s := DoShutdown(before, env).0;
    if StartOutstanding(s) {
      OutstandingStartIsServed(s);
      assert NoRegistration(Serve(s)) && AnyLive(Run(s, Serve(s)));
    }
    forall es: seq<Event> | !StartOutstanding(s) && NoRegistration(es) ensures !AnyLive(Run(s, es)) {
      StaysStopped(s, es);
    }
  }

  /** Such a run: a registration, a successful Shutdown, and the timer still starts a pool. */
  lemma StartAfterShutdownExample()
    ensures var env := StopEnv(false, false);
            var register := Register(AddWorker("mail", 1), env);
            && DoShutdown(Run(INITIAL, [register]), env).1 == Success
            && AnyLive(Run(INITIAL, [register, Shutdown(env), TimerExpires(0), StartWorkers(0, false)]))
  {
    var env := StopEnv(false, false);
    var register := Register(AddWorker("mail", 1), env);
    var rest := [TimerExpires(0), StartWorkers(0, false)];
    var s1 := Step(INITIAL, register).0;
    assert s1.timers == [Armed];
    assert [register][1..] == [];
    assert Run(INITIAL, [register]) == Run(s1, []) == s1;
    assert [register, Shutdown(env), TimerExpires(0), StartWorkers(0, false)][1..] == [Shutdown(env)] + rest;
    assert ([Shutdown(env)] + rest)[1..] == rest && rest[1..] == [StartWorkers(0, false)];
    assert Run(s1, [Shutdown(env)] + rest) == Run(s1, rest);
    var s2 := Step(s1, TimerExpires(0)).0;
    var s3 := Step(s2, StartWorkers(0, false)).0;
    assert Run(s1, rest) == Run(s2, [StartWorkers(0, false)]) == Run(s3, []);
    assert IsLive(s3, 0);
  }

  lemma {:induction false} StaysStopped(s: Handler, events: seq<Event>)
    requires Inv(s) && !s.hasStarted && !StartOutstanding(s) && NoRegistration(events)
    ensures !AnyLive(Run(s, events))
    decreases |events|
  {
    if events == [] {
    } else {
      var e := events[0];
      assert NoRegistration(events[1..]);
      if Enabled(s, e) {
        StepKeepsInv(s, e);
        if e.StartWorkers? || e.TimerExpires? { assert Outstanding(s, e.timer); }
        StaysStopped(Step(s, e).0, events[1..]);
      } else {
        StaysStopped(s, events[1..]);
      }
    }
  }

  // ----- the handler itself -----

  class PostgresJobsHandler {
    var hasStarted: bool
    var isStartInProgress: bool
    var startTimer: Option<nat>
    var gueWorkMap: WorkMap
    var schedules: seq<Schedule>
    var scheduler: seq<Schedule>
    // The Go runtime's timers and the worker pools, which the handler only refers to.
    var timers: seq<TimerState>
    var pools: seq<Pool>
    ghost var schedulerErrors: nat

    ghost function View(): Handler
      reads this
    {
      Handler(hasStarted, isStartInProgress, startTimer, gueWorkMap, schedules, scheduler, timers, pools,
              schedulerErrors)
    }

    ghost predicate Valid()
      reads this
    {
      Inv(View())
    }

    constructor ()
      ensures Valid() && View() == INITIAL
    {
      hasStarted, isStartInProgress, startTimer := false, false, None;
      gueWorkMap, schedules, scheduler, timers, pools, schedulerErrors := map[], [], [], [], [], 0;
      new;
      InitialInv();
    }

    /** `jobType` is what getJobTypeFromType makes of the second parameter, if it makes anything. */
    method RegisterJobFunc(jf: JobFunc, jobType: Option<JobType>, fn: WorkFunc, env: StopEnv) returns (out: Outcome)
      requires Valid()
      modifies this
      ensures Valid()
      ensures !IsValidJobFunc(jf) || jobType.None? ==> out == Invalid && View() == old(View())
      ensures IsValidJobFunc(jf) && jobType.Some? ==>
        (View(), out) == DoRegister(old(View()), AddWorker(jobType.value, fn), env)
    {
      if !IsValidJobFunc(jf) { return Invalid; }
      if jobType.None? { return Invalid; }
      out := ExecuteBetweenRestarts(AddWorker(jobType.value, fn), env);
    }

    /** `schedule` is None if the job's type has no job type name, or its arguments cannot be marshalled. */
    method Schedule(isStruct: bool, schedule: Option<Schedule>, addFails: bool, env: StopEnv) returns (out: Outcome)
      requires Valid()
      modifies this
      ensures Valid()
      ensures !isStruct || schedule.None? ==> out == Invalid && View() == old(View())
      ensures isStruct && schedule.Some? ==>
        (View(), out) == DoRegister(old(View()), AddSchedule(schedule.value, addFails), env)
    {
      if !isStruct { return Invalid; }
      if schedule.None? { return Invalid; }
      out := ExecuteBetweenRestarts(AddSchedule(schedule.value, addFails), env);
    }

    method ExecuteBetweenRestarts(change: Change, env: StopEnv) returns (out: Outcome)
      requires Valid()
      modifies this
      ensures Valid() && (View(), out) == DoRegister(old(View()), change, env)
    {
      StepKeepsInv(View(), Register(change, env));
      if hasStarted {
        out := StopWorkers(env);
        if out != Success { return; }
      }
      out := RunCallback(change);
      var needsToStartWorkers := !hasStarted;
      if needsToStartWorkers {
        if isStartInProgress {
          var stopped := Stop();
          if !stopped { // its callback waits for the mutex and will start the workers
            return Success;
          }
        }
        startTimer := Some(|timers|);
        timers := timers + [Armed];
        isStartInProgress := true;
      }
    }

    /** The callbacks of RegisterJobFunc and Schedule; none of them runs while a pool is live. */
    method RunCallback(change: Change) returns (out: Outcome)
      requires Valid() && !hasStarted && !AnyLive(View())
      modifies this`gueWorkMap, this`schedules, this`scheduler
      ensures (View(), out) == Apply(old(View()), change)
    {
      match change {
        case AddWorker(jobType, fn) =>
          if jobType in gueWorkMap { return ChangeFailed; }
          gueWorkMap := gueWorkMap[jobType := fn];
          return Success;
        case AddSchedule(schedule, addFails) =>
          schedules := schedules + [schedule];
          if addFails { return ChangeFailed; }
          scheduler := scheduler + [schedule];
          return Success;
      }
    }

    /** time.Timer.Stop on the start timer: it succeeds only before the timer expires. */
    method Stop() returns (stopped: bool)
      modifies this`timers
      ensures stopped == old(TimerIsArmed(View())) && View() == StopTimer(old(View()))
    {
      stopped := startTimer.Some? && startTimer.value < |timers| && timers[startTimer.value].Armed?;
      if stopped {
        timers := timers[startTimer.value := Spent];
      }
    }

    method StartWorkers(timer: nat, schedulerFails: bool) returns (out: Outcome)
      requires Valid() && timer < |timers| && timers[timer].Fired?
      modifies this
      ensures Valid() && (View(), out) == Step(old(View()), Event.StartWorkers(timer, schedulerFails))
      ensures out != AlreadyStarted
    {
      StepKeepsInv(View(), Event.StartWorkers(timer, schedulerFails));
      assert Outstanding(View(), timer);
      timers := timers[timer := Spent];
      if hasStarted { return AlreadyStarted; }
      if schedulerFails {
        schedulerErrors := schedulerErrors + 1;
        return SchedulerFailed;
      }
      gueWorkMap := gueWorkMap[REFRESH_JOB := REFRESH_FUNC];
      pools := pools + [Pool(gueWorkMap, scheduler, Live)];
      hasStarted := true;
      isStartInProgress := false;
      return Success;
    }

    method Shutdown(env: StopEnv) returns (out: Outcome)
      requires Valid()
      modifies this
      ensures Valid() && (View(), out) == DoShutdown(old(View()), env)
      ensures !AnyLive(View())
    {
      ShutdownKeepsInv(View(), env);
      out := StopWorkers(env);
    }

    /** The unexported shutdown: the caller holds the mutex. */
    method StopWorkers(env: StopEnv) returns (out: Outcome)
      requires Valid()
      modifies this`hasStarted, this`pools
      ensures Valid() && (View(), out) == DoShutdown(old(View()), env)
      ensures !AnyLive(View())
    {
      ShutdownKeepsInv(View(), env);
      if !hasStarted { return Success; }
      var last := |pools| - 1;
      if pools[last].state.Live? { // cancel the pool and wait for its workers
        pools := pools[last := pools[last].(state := Ended(env.poolFails))];
      }
      if pools[last].state == Ended(true) { return ShutdownFailed; }
      if env.upsertFails { return ShutdownFailed; }
      hasStarted := false;
      return Success;
    }
  }
}
