/**
 The in-memory queue: a FIFO guarded by one mutex. Enqueuers, the cron and many workers run at the same time;
 a worker gives the mutex up while its JobFunc runs and takes it back to re-append a failed job.
 */
module MemoryQueue {
  import opened Options

  /** What can be handed to Enqueue and Schedule, by kind. */
  datatype Job =
    | Struct(jobType: string, data: nat)
    | Slice(jobType: string, elems: seq<Job>)
    | Primitive(jobType: string)
    | Nil

  const UNNAMED := "."  // the job type of all unnamed types: they have neither a package nor a name

  function JobTypeOf(job: Job): string { if job.Nil? then "" else job.jobType }

  /** ensureValidJobTypeForEnqueue */
  predicate IsValidJob(job: Job) {
    match job
    case Struct(_, _) => true
    case Slice(_, elems) => elems != [] && forall i :: 0 <= i < |elems| ==> elems[i].Struct?
    case _ => false
  }

  /** The jobs that Enqueue appends for a valid job; the cron appends a scheduled job as it is. */
  function Elements(job: Job): seq<Job> {
    match job
    case Slice(_, elems) => elems
    case _ => [job]
  }

  /** A goroutine that uses the queue, by what it does next. */
  datatype Thread =
    | Appending(todo: seq<Job>)                       // Enqueue, or the cron
    | Registering(jobType: string, returnsValue: bool)
    | Taking                                          // processFirstJob
    | Running(ticket: nat, returnsValue: bool)        // its JobFunc runs, the mutex is free
    | PuttingBack(ticket: nat, failed: bool)          // its JobFunc returned
    | Finished

  /** What became of an appended job. Tickets number the appends. */
  datatype Fate = Waiting | InFlight(thread: nat) | Succeeded | Requeued(ticket: nat) | Discarded

  datatype State = State(
    locked: bool,
    inside: set<nat>,           // the threads between Lock and Unlock
    crashed: bool,              // Go ends the program on unlocking a free mutex
    jobs: seq<Job>,
    workers: map<string, bool>, // per job type, whether its JobFunc returns a value
    threads: seq<Thread>,
    appended: seq<Job>,         // history: all appends
    takes: seq<Job>,            // history: all jobs taken from the front
    fates: seq<Fate>            // history: one for each append
  )

  const INITIAL := State(false, {}, false, [], map[], [], [], [], [])

  datatype Event =
    | Spawn(thread: Thread)
    | Lock(t: nat)
    | Act(t: nat)                   // the next access under the mutex
    | Return(t: nat, failed: bool)  // the JobFunc returns

  predicate WantsLock(thread: Thread) {
    thread.Appending? || thread.Registering? || thread.Taking? || thread.PuttingBack?
  }

  predicate Enabled(s: State, e: Event) {
    !s.crashed &&
    match e
    case Spawn(thread) => thread.Appending? || thread.Registering? || thread.Taking?
    case Lock(t) => t < |s.threads| && t !in s.inside && WantsLock(s.threads[t]) && !s.locked
    case Act(t) => t < |s.threads| && t in s.inside
    case Return(t, _) => t < |s.threads| && s.threads[t].Running?
  }

  function Become(s: State, t: nat, thread: Thread): State
    requires t < |s.threads|
  {
    s.(threads := s.threads[t := thread])
  }

  function Append(s: State, job: Job): State {
    s.(jobs := s.jobs + [job], appended := s.appended + [job], fates := s.fates + [Waiting])
  }

  function Leave(s: State, t: nat): State {
    s.(inside := s.inside - {t}, locked := false, crashed := s.crashed || !s.locked)
  }

  function SetFate(s: State, ticket: nat, fate: Fate): State {
    if ticket < |s.fates| then s.(fates := s.fates[ticket := fate]) else s
  }

  /** The first job leaves the queue; without a JobFunc for it, it is silently dropped. */
  function Take(s: State, t: nat): State
    requires t < |s.threads|
  {
    if s.jobs == [] then Leave(Become(s, t, Finished), t)
    else
      var job, ticket := s.jobs[0], |s.takes|;
      var taken := s.(jobs := s.jobs[1..], takes := s.takes + [job]);
      var jobType := JobTypeOf(job);
      if jobType !in s.workers then Leave(Become(SetFate(taken, ticket, Discarded), t, Finished), t)
      else Leave(Become(SetFate(taken, ticket, InFlight(t)), t, Running(ticket, s.workers[jobType])), t)
  }

  function PutBack(s: State, t: nat, ticket: nat, failed: bool): State
    requires t < |s.threads|
  {
    var done := if failed && ticket < |s.appended| then
                  Append(SetFate(s, ticket, Requeued(|s.appended|)), s.appended[ticket])
                else SetFate(s, ticket, Succeeded);
    Leave(Become(done, t, Finished), t)
  }

  /** A JobFunc of an empty job type is refused. */
  function WithFunc(workers: map<string, bool>, jobType: string, returnsValue: bool): map<string, bool> {
    if jobType == "" then workers else workers[jobType := returnsValue]
  }

  function Step(s: State, e: Event): State
    requires Enabled(s, e)
  {
    match e
    case Spawn(thread) => s.(threads := s.threads + [thread])
    case Lock(t) => s.(locked := true, inside := s.inside + {t})
    case Act(t) =>
      (match s.threads[t]
       case Appending(todo) =>
         if todo == [] then Leave(Become(s, t, Finished), t) else Become(Append(s, todo[0]), t, Appending(todo[1..]))
       case Registering(jobType, r) => Leave(Become(s.(workers := WithFunc(s.workers, jobType, r)), t, Finished), t)
       case Taking => Take(s, t)
       case PuttingBack(ticket, failed) => PutBack(s, t, ticket, failed)
       case _ => s)
    case Return(t, failed) =>
      var ticket := s.threads[t].ticket;
      if s.threads[t].returnsValue then Become(s, t, PuttingBack(ticket, failed))
      else Leave(Become(SetFate(s, ticket, Succeeded), t, Finished), t)  // the deferred Unlock, without a Lock
  }

  /** The run of `events` from `s`; events that are not enabled do not happen. */
  function Run(s: State, events: seq<Event>): State
    decreases |events|
  {
    if events == [] then s
    else Run(if Enabled(s, events[0]) then Step(s, events[0]) else s, events[1..])
  }

  // ----- conservation and order -----

  /** The thread that has the job with this ticket. */
  predicate Has(thread: Thread, ticket: nat) {
    (thread.Running? || thread.PuttingBack?) && thread.ticket == ticket
  }

  /** Jobs leave in the order of the appends. */
  predicate InOrder(s: State) { s.appended == s.takes + s.jobs }

  /** Each append has one fate, and it is the true one. */
  ghost predicate Accounted(s: State) {
    && |s.takes| <= |s.fates| == |s.appended|
    && (forall k :: 0 <= k < |s.fates| ==> (s.fates[k].Waiting? <==> k >= |s.takes|))
    && (forall k, t: nat :: 0 <= k < |s.fates| && t < |s.threads| ==>
          (s.fates[k] == InFlight(t) <==> Has(s.threads[t], k)))
    && (forall k :: 0 <= k < |s.fates| && s.fates[k].InFlight? ==> s.fates[k].thread < |s.threads|)
    && (forall t, k: nat :: 0 <= t < |s.threads| && Has(s.threads[t], k) ==> k < |s.takes|)
    && (forall k :: 0 <= k < |s.fates| && s.fates[k].Requeued? ==>
          k < s.fates[k].ticket < |s.appended| && s.appended[s.fates[k].ticket] == s.appended[k])
  }

  lemma AppendKeepsOrder(s: State, job: Job)
    requires InOrder(s)
    ensures InOrder(Append(s, job))
  {
    assert s.takes + s.jobs + [job] == s.takes + (s.jobs + [job]);
  }

  lemma TakeKeepsOrder(s: State, t: nat)
    requires InOrder(s) && t < |s.threads|
    ensures InOrder(Take(s, t))
  {
    if s.jobs != [] {
      assert s.takes + s.jobs == s.takes + [s.jobs[0]] + s.jobs[1..];
    }
  }

  lemma StepKeepsOrder(s: State, e: Event)
    requires InOrder(s) && Enabled(s, e)
    ensures InOrder(Step(s, e))
  {
    match e
    case Act(t) =>
      match s.threads[t] {
        case Taking => TakeKeepsOrder(s, t);
        case PuttingBack(ticket, failed) =>
          if failed && ticket < |s.appended| {
            AppendKeepsOrder(SetFate(s, ticket, Requeued(|s.appended|)), s.appended[ticket]);
          }
        case Appending(todo) => if todo != [] { AppendKeepsOrder(s, todo[0]); }
        case _ =>
      }
    case _ =>
  }

  lemma TakeIsAccounted(s: State, t: nat)
    requires Accounted(s) && InOrder(s) && t < |s.threads| && s.threads[t].Taking?
    ensures Accounted(Take(s, t))
  {
    if s.jobs != [] {
      var ticket := |s.takes|;
      assert s.fates[ticket].Waiting?;
      var s' := Take(s, t);
      assert s'.appended == s.appended;
      assert forall k :: 0 <= k < |s.fates| && k != ticket ==> s'.fates[k] == s.fates[k];
      assert forall u :: 0 <= u < |s.threads| && u != t ==> s'.threads[u] == s.threads[u];
    } else {
      FinishIsAccounted(s, s.workers, t);
    }
  }

  lemma PutBackIsAccounted(s: State, t: nat, ticket: nat, failed: bool)
    requires Accounted(s) && t < |s.threads| && s.threads[t] == PuttingBack(ticket, failed)
    ensures Accounted(PutBack(s, t, ticket, failed))
  {
    assert Has(s.threads[t], ticket);
    assert s.fates[ticket] == InFlight(t);
  }

  lemma ReturnIsAccounted(s: State, t: nat, failed: bool)
    requires Accounted(s) && Enabled(s, Return(t, failed))
    ensures Accounted(Step(s, Return(t, failed)))
  {
    var ticket := s.threads[t].ticket;
    assert Has(s.threads[t], ticket);
    assert s.fates[ticket] == InFlight(t);
  }

  lemma ActIsAccounted(s: State, t: nat)
    requires Accounted(s) && InOrder(s) && Enabled(s, Act(t))
    ensures Accounted(Step(s, Act(t)))
  {
    match s.threads[t]
    case Taking => TakeIsAccounted(s, t);
    case PuttingBack(ticket, failed) => PutBackIsAccounted(s, t, ticket, failed);
    case Appending(todo) => if todo != [] { AppendIsAccounted(s, t, todo); } else { FinishIsAccounted(s, s.workers, t); }
    case Registering(jobType, r) => FinishIsAccounted(s, WithFunc(s.workers, jobType, r), t);
    case _ =>
  }

  /** A thread without a job is done. */
  lemma FinishIsAccounted(s: State, workers: map<string, bool>, t: nat)
    requires Accounted(s) && t < |s.threads| && !s.threads[t].Running? && !s.threads[t].PuttingBack?
    ensures Accounted(Leave(Become(s.(workers := workers), t, Finished), t))
  {
    assert forall k :: !Has(s.threads[t], k);
  }

  lemma StepIsAccounted(s: State, e: Event)
    requires Accounted(s) && InOrder(s) && Enabled(s, e)
    ensures Accounted(Step(s, e))
  {
    match e
    case Act(t) => ActIsAccounted(s, t);
    case Return(t, failed) => ReturnIsAccounted(s, t, failed);
    case Spawn(thread) => SpawnIsAccounted(s, thread);
    case Lock(_) =>
  }

  lemma SpawnIsAccounted(s: State, thread: Thread)
    requires Accounted(s) && Enabled(s, Spawn(thread))
    ensures Accounted(Step(s, Spawn(thread)))
  {
  }

  lemma AppendIsAccounted(s: State, t: nat, todo: seq<Job>)
    requires Accounted(s) && t < |s.threads| && s.threads[t] == Appending(todo) && todo != []
    ensures Accounted(Become(Append(s, todo[0]), t, Appending(todo[1..])))
  {
    var s' := Become(Append(s, todo[0]), t, Appending(todo[1..]));
    forall u, k: nat | 0 <= u < |s'.threads| && Has(s'.threads[u], k) ensures k < |s'.takes| && u != t {
    }
  }

  lemma {:induction false} RunConserves(s: State, events: seq<Event>)
    requires InOrder(s) && Accounted(s)
    ensures InOrder(Run(s, events)) && Accounted(Run(s, events))
    decreases |events|
  {
    if events == [] {
    } else {
      if Enabled(s, events[0]) {
        StepKeepsOrder(s, events[0]);
        StepIsAccounted(s, events[0]);
      }
      RunConserves(if Enabled(s, events[0]) then Step(s, events[0]) else s, events[1..]);
    }
  }

  /**
   Under any interleaving: the appends are the takes followed by the queue, so jobs leave in order; a job waits exactly
   while it is in the queue, is in flight exactly while a thread has it, and a failed one was appended again, later.
   */
  lemma QueueConservesJobs(events: seq<Event>)
    ensures var s := Run(INITIAL, events);
            && s.appended == s.takes + s.jobs
            && |s.fates| == |s.appended|
            && (forall k :: 0 <= k < |s.fates| ==> (s.fates[k].Waiting? <==> k >= |s.takes|))
            && (forall k, t: nat :: 0 <= k < |s.fates| && t < |s.threads| ==>
                  (s.fates[k] == InFlight(t) <==> Has(s.threads[t], k)))
            && (forall k :: 0 <= k < |s.fates| && s.fates[k].Requeued? ==>
                  k < s.fates[k].ticket < |s.appended| && s.appended[s.fates[k].ticket] == s.appended[k])
  {
    RunConserves(INITIAL, events);
  }

  // ----- where appends come from -----

  /** The job that a step appends for a caller or the cron. */
  function Handed(s: State, e: Event): seq<Job>
    requires Enabled(s, e)
  {
    if e.Act? && s.threads[e.t].Appending? && s.threads[e.t].todo != [] then [s.threads[e.t].todo[0]] else []
  }

  /** The job that a step appends again, because its JobFunc returned an error. */
  function PutAgain(s: State, e: Event): seq<Job>
    requires Enabled(s, e)
  {
    if e.Act? && s.threads[e.t].PuttingBack? && s.threads[e.t].failed && s.threads[e.t].ticket < |s.appended|
    then [s.appended[s.threads[e.t].ticket]] else []
  }

  function AllHanded(s: State, events: seq<Event>): seq<Job>
    decreases |events|
  {
    if events == [] then []
    else if !Enabled(s, events[0]) then AllHanded(s, events[1..])
    else Handed(s, events[0]) + AllHanded(Step(s, events[0]), events[1..])
  }

  function AllPutAgain(s: State, events: seq<Event>): seq<Job>
    decreases |events|
  {
    if events == [] then []
    else if !Enabled(s, events[0]) then AllPutAgain(s, events[1..])
    else PutAgain(s, events[0]) + AllPutAgain(Step(s, events[0]), events[1..])
  }

  lemma StepAppends(s: State, e: Event)
    requires Enabled(s, e)
    ensures Step(s, e).appended == s.appended + Handed(s, e) + PutAgain(s, e)
  {
  }

  /** Over every run: what was appended is what callers handed in and what failed, each as often, and nothing else. */
  lemma {:induction false} AppendsAreHandedInOrFailed(s: State, events: seq<Event>)
    ensures multiset(Run(s, events).appended)
         == multiset(s.appended) + multiset(AllHanded(s, events)) + multiset(AllPutAgain(s, events))
    decreases |events|
  {
    if events == [] {
    } else {
      var e := events[0];
      if Enabled(s, e) { StepAppends(s, e); }
      AppendsAreHandedInOrFailed(if Enabled(s, e) then Step(s, e) else s, events[1..]);
    }
  }

  // ----- what the JobFuncs said -----

  /** What the JobFunc of the job with this ticket returned in the run, if it did: whether it was an error. */
  function Said(s: State, events: seq<Event>, ticket: nat): Option<bool>
    decreases |events|
  {
    if events == [] then None
    else
      var e := events[0];
      if Returns(s, e, ticket) then Some(e.failed && s.threads[e.t].returnsValue)
      else Said(if Enabled(s, e) then Step(s, e) else s, events[1..], ticket)
  }

  predicate Returns(s: State, e: Event, ticket: nat) { Enabled(s, e) && e.Return? && s.threads[e.t].ticket == ticket }

  /** What the state knows of it. */
  function Verdict(s: State, ticket: nat): Option<bool> {
    if ticket >= |s.fates| then None
    else
      match s.fates[ticket]
      case Succeeded => Some(false)
      case Requeued(_) => Some(true)
      case InFlight(t) =>
        if t < |s.threads| && s.threads[t].PuttingBack? then Some(s.threads[t].failed) else None
      case _ => None
  }

  lemma ReturnVerdict(s: State, t: nat, failed: bool, ticket: nat)
    requires Accounted(s) && InOrder(s) && Enabled(s, Return(t, failed))
    ensures Verdict(Step(s, Return(t, failed)), ticket)
         == if s.threads[t].ticket == ticket then Some(failed && s.threads[t].returnsValue) else Verdict(s, ticket)
    ensures s.threads[t].ticket == ticket ==> Verdict(s, ticket).None?
  {
    assert Has(s.threads[t], s.threads[t].ticket);
    assert s.fates[s.threads[t].ticket] == InFlight(t);
  }

  lemma TakeVerdict(s: State, t: nat, ticket: nat)
    requires Accounted(s) && InOrder(s) && t < |s.threads| && s.threads[t].Taking?
    ensures Verdict(Take(s, t), ticket) == Verdict(s, ticket)
  {
    var s' := Take(s, t);
    assert forall u :: 0 <= u < |s.threads| && u != t ==> s'.threads[u] == s.threads[u];
    if s.jobs != [] && ticket == |s.takes| {
      assert s.fates[ticket].Waiting?;
    } else if ticket < |s.fates| {
      assert s'.fates[ticket] == s.fates[ticket];
      if s.fates[ticket].InFlight? { assert Has(s.threads[s.fates[ticket].thread], ticket); }
    }
  }

  lemma PutBackVerdict(s: State, t: nat, own: nat, failed: bool, ticket: nat)
    requires Accounted(s) && t < |s.threads| && s.threads[t] == PuttingBack(own, failed)
    ensures Verdict(PutBack(s, t, own, failed), ticket) == Verdict(s, ticket)
  {
    var s' := PutBack(s, t, own, failed);
    assert Has(s.threads[t], own);
    assert s.fates[own] == InFlight(t);
    assert forall u :: 0 <= u < |s.threads| && u != t ==> s'.threads[u] == s.threads[u];
    if ticket != own && ticket < |s.fates| {
      assert s'.fates[ticket] == s.fates[ticket];
      if s.fates[ticket].InFlight? { assert Has(s.threads[s.fates[ticket].thread], ticket); }
    }
  }

  lemma StepVerdict(s: State, e: Event, ticket: nat)
    requires Accounted(s) && InOrder(s) && Enabled(s, e)
    ensures Verdict(Step(s, e), ticket)
         == if Returns(s, e, ticket) then Some(e.failed && s.threads[e.t].returnsValue) else Verdict(s, ticket)
    ensures Returns(s, e, ticket) ==> Verdict(s, ticket).None?
  {
    match e
    case Return(t, failed) => ReturnVerdict(s, t, failed, ticket);
    case Act(t) =>
      if s.threads[t].Taking? {
        TakeVerdict(s, t, ticket);
      } else if s.threads[t].PuttingBack? {
        PutBackVerdict(s, t, s.threads[t].ticket, s.threads[t].failed, ticket);
      } else if ticket < |s.fates| && s.fates[ticket].InFlight? {
        assert Has(s.threads[s.fates[ticket].thread], ticket);
      }
    case _ =>
  }

  lemma {:induction false} VerdictIsSaid(s: State, events: seq<Event>, ticket: nat)
    requires Accounted(s) && InOrder(s)
    ensures Verdict(Run(s, events), ticket) == if Verdict(s, ticket).Some? then Verdict(s, ticket) else Said(s, events, ticket)
    decreases |events|
  {
    if events == [] {
    } else {
      var e := events[0];
      if Enabled(s, e) {
        StepVerdict(s, e, ticket);
        StepKeepsOrder(s, e);
        StepIsAccounted(s, e);
      }
      VerdictIsSaid(if Enabled(s, e) then Step(s, e) else s, events[1..], ticket);
    }
  }

  /**
   Over every run, by what the JobFuncs returned: a job has succeeded exactly if its JobFunc returned no error, and was
   appended again exactly if it returned one, as soon as the thread has taken the mutex to do so; before the JobFunc
   has returned, the job is neither.
   */
  lemma FateIsWhatTheJobFuncSaid(events: seq<Event>, ticket: nat)
    requires ticket < |Run(INITIAL, events).fates|
    ensures var s := Run(INITIAL, events);
            match Said(INITIAL, events, ticket)
            case None => s.fates[ticket].Waiting? || s.fates[ticket].Discarded? || s.fates[ticket].InFlight?
            case Some(failed) =>
              || (if failed then s.fates[ticket].Requeued? else s.fates[ticket].Succeeded?)
              || exists t: nat :: t < |s.threads| && s.threads[t] == PuttingBack(ticket, failed)
  {
    var s := Run(INITIAL, events);
    RunConserves(INITIAL, events);
    VerdictIsSaid(INITIAL, events, ticket);
    if s.fates[ticket].InFlight? {
      var t := s.fates[ticket].thread;
      assert s.fates[ticket] == InFlight(t) && Has(s.threads[t], ticket);
      if s.threads[t].PuttingBack? { assert s.threads[t] == PuttingBack(ticket, s.threads[t].failed); }
    }
  }

  /** The jobs that were appended again. */
  function Again(fates: seq<Fate>, appended: seq<Job>): multiset<Job>
    requires |fates| <= |appended|
  {
    if fates == [] then multiset{}
    else
      var n := |fates| - 1;
      Again(fates[..n], appended) + (if fates[n].Requeued? then multiset{appended[n]} else multiset{})
  }

  lemma {:induction false} AgainUpdated(fates: seq<Fate>, appended: seq<Job>, k: nat, fate: Fate)
    requires |fates| <= |appended| && k < |fates| && !fates[k].Requeued?
    ensures Again(fates[k := fate], appended)
         == Again(fates, appended) + (if fate.Requeued? then multiset{appended[k]} else multiset{})
  {
    var n := |fates| - 1;
    var updated := fates[k := fate];
    if k == n {
      assert updated[..n] == fates[..n];
    } else {
      assert updated[..n] == fates[..n][k := fate] && updated[n] == fates[n];
      AgainUpdated(fates[..n], appended, k, fate);
    }
  }

  lemma {:induction false} AgainAppended(fates: seq<Fate>, appended: seq<Job>, more: seq<Job>)
    requires |fates| <= |appended|
    ensures Again(fates, appended + more) == Again(fates, appended)
  {
    if fates == [] {
    } else {
      AgainAppended(fates[..|fates| - 1], appended, more);
    }
  }

  lemma AppendAgain(s: State, job: Job)
    requires |s.fates| == |s.appended|
    ensures Again(Append(s, job).fates, Append(s, job).appended) == Again(s.fates, s.appended)
  {
    AgainAppended(s.fates, s.appended, [job]);
    assert (s.fates + [Waiting])[..|s.fates|] == s.fates;
  }

  lemma PutBackAgain(s: State, t: nat, ticket: nat, failed: bool)
    requires Accounted(s) && t < |s.threads| && s.threads[t] == PuttingBack(ticket, failed) && ticket < |s.appended|
    ensures var s' := PutBack(s, t, ticket, failed);
            |s'.fates| == |s'.appended|
            && Again(s'.fates, s'.appended) == Again(s.fates, s.appended) + multiset(if failed then [s.appended[ticket]] else [])
  {
    assert Has(s.threads[t], ticket);
    assert s.fates[ticket] == InFlight(t);
    if failed {
      AgainUpdated(s.fates, s.appended, ticket, Requeued(|s.appended|));
      AppendAgain(SetFate(s, ticket, Requeued(|s.appended|)), s.appended[ticket]);
    } else {
      AgainUpdated(s.fates, s.appended, ticket, Succeeded);
    }
  }

  lemma TakeAgain(s: State, t: nat)
    requires Accounted(s) && InOrder(s) && t < |s.threads| && s.threads[t].Taking?
    ensures Take(s, t).appended == s.appended && |Take(s, t).fates| == |s.appended|
    ensures Again(Take(s, t).fates, s.appended) == Again(s.fates, s.appended)
  {
    if s.jobs != [] {
      assert s.fates[|s.takes|].Waiting?;
      AgainUpdated(s.fates, s.appended, |s.takes|, Discarded);
      AgainUpdated(s.fates, s.appended, |s.takes|, InFlight(t));
    }
  }

  lemma ReturnAgain(s: State, t: nat, failed: bool)
    requires Accounted(s) && Enabled(s, Return(t, failed))
    ensures var s' := Step(s, Return(t, failed));
            s'.appended == s.appended && |s'.fates| == |s.appended|
            && Again(s'.fates, s.appended) == Again(s.fates, s.appended)
  {
    var ticket := s.threads[t].ticket;
    assert Has(s.threads[t], ticket);
    assert s.fates[ticket] == InFlight(t);
    AgainUpdated(s.fates, s.appended, ticket, Succeeded);
  }

  lemma StepAgain(s: State, e: Event)
    requires Accounted(s) && InOrder(s) && Enabled(s, e)
    ensures var s' := Step(s, e);
            |s'.fates| == |s'.appended|
            && Again(s'.fates, s'.appended) == Again(s.fates, s.appended) + multiset(PutAgain(s, e))
  {
    if e.Return? {
      ReturnAgain(s, e.t, e.failed);
    } else if e.Act? {
      ActAgain(s, e.t);
    }
  }

  lemma ActAgain(s: State, t: nat)
    requires Accounted(s) && InOrder(s) && Enabled(s, Act(t))
    ensures var s' := Step(s, Act(t));
            |s'.fates| == |s'.appended|
            && Again(s'.fates, s'.appended) == Again(s.fates, s.appended) + multiset(PutAgain(s, Act(t)))
  {
    match s.threads[t]
    case Taking => TakeAgain(s, t);
    case PuttingBack(ticket, failed) =>
      assert Has(s.threads[t], ticket);
      PutBackAgain(s, t, ticket, failed);
    case Appending(todo) =>
      var s' := Step(s, Act(t));
      if todo == [] {
        assert s'.fates == s.fates && s'.appended == s.appended;
      } else {
        AppendAgain(s, todo[0]);
        assert s'.fates == s.fates + [Waiting] && s'.appended == s.appended + [todo[0]];
      }
    case _ => assert Step(s, Act(t)).fates == s.fates && Step(s, Act(t)).appended == s.appended;
  }

  lemma {:induction false} PutAgainIsAgain(s: State, events: seq<Event>)
    requires Accounted(s) && InOrder(s)
    ensures var t := Run(s, events);
            |t.fates| == |t.appended|
            && Again(t.fates, t.appended) == Again(s.fates, s.appended) + multiset(AllPutAgain(s, events))
    decreases |events|
  {
    if events == [] {
    } else {
      var e := events[0];
      if Enabled(s, e) {
        StepAgain(s, e);
        StepKeepsOrder(s, e);
        StepIsAccounted(s, e);
      }
      PutAgainIsAgain(if Enabled(s, e) then Step(s, e) else s, events[1..]);
    }
  }

  /**
   Over every run the appended jobs are, as a multiset, those that callers and the cron handed in, and once more each
   job whose fate is that it was appended again; `FateIsWhatTheJobFuncSaid` says which these are.
   */
  lemma EachFailedJobIsAppendedOnceMore(events: seq<Event>)
    ensures var s := Run(INITIAL, events);
            |s.fates| == |s.appended|
            && multiset(s.appended) == multiset(AllHanded(INITIAL, events)) + Again(s.fates, s.appended)
  {
    AppendsAreHandedInOrFailed(INITIAL, events);
    PutAgainIsAgain(INITIAL, events);
  }

  /** Two failed jobs were not appended again as one. */
  ghost predicate RequeuesAreDistinct(s: State) {
    forall j, k :: 0 <= j < k < |s.fates| && s.fates[j].Requeued? && s.fates[k].Requeued? ==>
      s.fates[j].ticket != s.fates[k].ticket
  }

  /** A new fate that sends no job back, or sends it behind all others, leaves the requeues distinct. */
  lemma SetFateKeepsRequeuesDistinct(s: State, ticket: nat, fate: Fate)
    requires Accounted(s) && RequeuesAreDistinct(s) && (fate.Requeued? ==> fate.ticket == |s.appended|)
    ensures RequeuesAreDistinct(SetFate(s, ticket, fate))
  {
    assert forall k :: 0 <= k < |s.fates| && s.fates[k].Requeued? ==> s.fates[k].ticket < |s.appended|;
  }

  lemma TakeKeepsRequeuesDistinct(s: State, t: nat)
    requires Accounted(s) && RequeuesAreDistinct(s) && t < |s.threads|
    ensures RequeuesAreDistinct(Take(s, t))
  {
    SetFateKeepsRequeuesDistinct(s, |s.takes|, Discarded);
    SetFateKeepsRequeuesDistinct(s, |s.takes|, InFlight(t));
  }

  lemma PutBackKeepsRequeuesDistinct(s: State, t: nat, ticket: nat, failed: bool)
    requires Accounted(s) && RequeuesAreDistinct(s) && t < |s.threads|
    ensures RequeuesAreDistinct(PutBack(s, t, ticket, failed))
  {
    SetFateKeepsRequeuesDistinct(s, ticket, Requeued(|s.appended|));
    SetFateKeepsRequeuesDistinct(s, ticket, Succeeded);
  }

  lemma StepKeepsRequeuesDistinct(s: State, e: Event)
    requires Accounted(s) && RequeuesAreDistinct(s) && Enabled(s, e)
    ensures RequeuesAreDistinct(Step(s, e))
  {
    match e
    case Act(t) =>
      if s.threads[t].Taking? { TakeKeepsRequeuesDistinct(s, t); }
      if s.threads[t].PuttingBack? { PutBackKeepsRequeuesDistinct(s, t, s.threads[t].ticket, s.threads[t].failed); }
    case Return(t, _) => SetFateKeepsRequeuesDistinct(s, s.threads[t].ticket, Succeeded);
    case _ =>
  }

  lemma {:induction false} RunKeepsRequeuesDistinct(s: State, events: seq<Event>)
    requires InOrder(s) && Accounted(s) && RequeuesAreDistinct(s)
    ensures RequeuesAreDistinct(Run(s, events))
    decreases |events|
  {
    if events == [] {
    } else {
      if Enabled(s, events[0]) {
        StepKeepsOrder(s, events[0]);
        StepIsAccounted(s, events[0]);
        StepKeepsRequeuesDistinct(s, events[0]);
      }
      RunKeepsRequeuesDistinct(if Enabled(s, events[0]) then Step(s, events[0]) else s, events[1..]);
    }
  }

  // ----- the mutex -----

  /** At most one thread is inside, the mutex is held exactly while one is, and no thread unlocked a free mutex. */
  ghost predicate MutexOk(s: State) {
    && !s.crashed
    && (forall t, u :: t in s.inside && u in s.inside ==> t == u)
    && (s.locked <==> s.inside != {})
    && (forall t :: t in s.inside ==> t < |s.threads| && WantsLock(s.threads[t]))
  }

  /** A JobFunc without a result returns: the deferred Unlock runs without a Lock. */
  predicate ReturnsNothing(s: State, e: Event) {
    Enabled(s, e) && e.Return? && !s.threads[e.t].returnsValue
  }

  lemma LeaveKeepsMutex(s: State, t: nat)
    requires MutexOk(s) && t in s.inside
    ensures s.inside == {t} && MutexOk(Leave(s, t))
  {
    assert s.inside == {t};
  }

  lemma ActKeepsMutex(s: State, t: nat)
    requires MutexOk(s) && Enabled(s, Act(t))
    ensures MutexOk(Step(s, Act(t)))
  {
    LeaveKeepsMutex(s, t);
  }

  /** A step keeps the mutex in order exactly unless a JobFunc returns nothing. */
  lemma StepKeepsMutexIff(s: State, e: Event)
    requires MutexOk(s) && Enabled(s, e)
    ensures MutexOk(Step(s, e)) <==> !ReturnsNothing(s, e)
  {
    match e
    case Act(t) => ActKeepsMutex(s, t);
    case Return(t, _) =>
      assert t !in s.inside;
      if s.inside != {} {
        var u :| u in s.inside;
        assert u in s.inside - {t};
      }
    case _ =>
  }

  /** The mutex is in order at all times of the run. */
  ghost predicate AlwaysMutexOk(s: State, events: seq<Event>) {
    forall n :: 0 <= n <= |events| ==> MutexOk(Run(s, events[..n]))
  }

  /** In the run, no JobFunc returns nothing. */
  predicate NoneReturnsNothing(s: State, events: seq<Event>)
    decreases |events|
  {
    events == []
    || (!ReturnsNothing(s, events[0])
        && NoneReturnsNothing(if Enabled(s, events[0]) then Step(s, events[0]) else s, events[1..]))
  }

  lemma AlwaysMutexOkStep(s: State, events: seq<Event>)
    requires events != []
    ensures AlwaysMutexOk(s, events) <==>
            MutexOk(s) && AlwaysMutexOk(if Enabled(s, events[0]) then Step(s, events[0]) else s, events[1..])
  {
    var next := if Enabled(s, events[0]) then Step(s, events[0]) else s;
    forall n | 1 <= n <= |events| ensures Run(s, events[..n]) == Run(next, events[1..][..n - 1]) {
      assert events[..n][0] == events[0] && events[..n][1..] == events[1..][..n - 1];
    }
    assert Run(s, events[..0]) == s;
    if AlwaysMutexOk(s, events) {
      forall n | 0 <= n <= |events[1..]| ensures MutexOk(Run(next, events[1..][..n])) {
        assert MutexOk(Run(s, events[..n + 1]));
      }
    } else if MutexOk(s) {
      var n :| 0 <= n <= |events| && !MutexOk(Run(s, events[..n]));
      assert !MutexOk(Run(next, events[1..][..n - 1]));
    }
  }

  /** Over every run: the mutex is in order at all times exactly if no JobFunc without a result returns. */
  lemma {:induction false} MutexIsInOrderIff(s: State, events: seq<Event>)
    requires MutexOk(s)
    ensures AlwaysMutexOk(s, events) <==> NoneReturnsNothing(s, events)
    decreases |events|
  {
    if events == [] {
      assert Run(s, events[..0]) == s;
    } else {
      var e := events[0];
      AlwaysMutexOkStep(s, events);
      if Enabled(s, e) { StepKeepsMutexIff(s, e); }
      if ReturnsNothing(s, e) {
        assert events[1..][..0] == [];
        assert Run(Step(s, e), events[1..][..0]) == Step(s, e);
      } else {
        MutexIsInOrderIff(if Enabled(s, e) then Step(s, e) else s, events[1..]);
      }
    }
  }

  /** With a free mutex, a JobFunc that returns nothing ends the program at once. */
  lemma FreeMutexCrashesIff(s: State, e: Event)
    requires MutexOk(s) && ReturnsNothing(s, e)
    ensures Step(s, e).crashed <==> s.inside == {}
  {
  }

  /** Otherwise the thread inside goes on without the mutex: any thread can follow it, and its own next step ends
      the program exactly unless it has jobs left to append. */
  lemma HolderIsRobbed(s: State, e: Event, u: nat)
    requires MutexOk(s) && ReturnsNothing(s, e) && u in s.inside
    ensures var robbed := Step(s, e);
            && Enabled(robbed, Act(u))
            && (Step(robbed, Act(u)).crashed <==> !(s.threads[u].Appending? && s.threads[u].todo != []))
            && (forall v :: 0 <= v < |s.threads| && WantsLock(s.threads[v]) && v != u ==>
                  Enabled(robbed, Lock(v)) && {u, v} <= Step(robbed, Lock(v)).inside)
  {
    assert e.t !in s.inside && Step(s, e).inside == s.inside == {u};
  }

  /** An appending thread ends the program when it has appended its last job, if nobody comes in between. */
  lemma {:induction false} RobbedAppenderCrashes(s: State, u: nat, todo: seq<Job>)
    requires !s.crashed && !s.locked && u < |s.threads| && u in s.inside && s.threads[u] == Appending(todo)
    ensures Run(s, Acts(u, |todo| + 1)).crashed
    decreases |todo|
  {
    var events := Acts(u, |todo| + 1);
    assert events[0] == Act(u) && events[1..] == Acts(u, |todo|);
    var next := Step(s, Act(u));
    if todo == [] { assert Run(next, events[1..]) == next; } else { RobbedAppenderCrashes(next, u, todo[1..]); }
  }

  function Acts(t: nat, n: nat): seq<Event> { seq(n, _ => Act(t)) }

  /** A JobFunc of this type is about to be registered, and not refused. */
  predicate Registers(thread: Thread, jobType: string) {
    thread.Registering? && thread.jobType == jobType && jobType != ""
  }

  /** The Postgres handler demands that every JobFunc returns a value; this queue does not check it. */
  predicate ReturnsValue(e: Event) {
    e.Spawn? && e.thread.Registering? && e.thread.jobType != "" ==> e.thread.returnsValue
  }

  predicate AllReturnValues(events: seq<Event>) { forall k :: 0 <= k < |events| ==> ReturnsValue(events[k]) }

  ghost predicate Exclusive(s: State) {
    && MutexOk(s)
    && (forall jobType :: jobType in s.workers ==> s.workers[jobType])
    && (forall t :: 0 <= t < |s.threads| ==>
          (s.threads[t].Running? || (s.threads[t].Registering? && s.threads[t].jobType != "")) ==>
            s.threads[t].returnsValue)
  }

  lemma StepIsExclusive(s: State, e: Event)
    requires Exclusive(s) && Enabled(s, e) && ReturnsValue(e)
    ensures Exclusive(Step(s, e))
  {
    StepKeepsMutexIff(s, e);
  }

  /**
   If every JobFunc returns a value, at most one thread is inside at any time, the mutex is held exactly while one is,
   and it is free again when all have left; no thread unlocks a free mutex.
   */
  lemma {:induction false} MutexIsExclusive(s: State, events: seq<Event>)
    requires Exclusive(s) && AllReturnValues(events)
    ensures Exclusive(Run(s, events))
    decreases |events|
  {
    if events == [] {
    } else {
      assert ReturnsValue(events[0]);
      if Enabled(s, events[0]) { StepIsExclusive(s, events[0]); }
      MutexIsExclusive(if Enabled(s, events[0]) then Step(s, events[0]) else s, events[1..]);
    }
  }

  lemma InitialIsExclusive()
    ensures Exclusive(INITIAL)
  {
  }

  lemma {:induction false} RunAppend(s: State, a: seq<Event>, b: seq<Event>)
    ensures Run(s, a + b) == Run(Run(s, a), b)
    decreases |a|
  {
    if a == [] {
      assert a + b == b;
    } else {
      assert (a + b)[0] == a[0] && (a + b)[1..] == a[1..] + b;
      RunAppend(if Enabled(s, a[0]) then Step(s, a[0]) else s, a[1..], b);
    }
  }

  /** Runs of three events, so that longer ones can be put together. */
  lemma RunThree(s: State, a: Event, b: Event, c: Event)
    requires Enabled(s, a) && Enabled(Step(s, a), b) && Enabled(Step(Step(s, a), b), c)
    ensures Run(s, [a, b, c]) == Step(Step(Step(s, a), b), c)
  {
    var s1 := Step(s, a);
    var s2 := Step(s1, b);
    assert [a, b, c][1..] == [b, c] && [b, c][1..] == [c];
    assert Run(s, [a, b, c]) == Run(s1, [b, c]) == Run(s2, [c]) == Run(Step(s2, c), []);
  }

  function Register(jobType: string, returnsValue: bool): seq<Event> {
    [Spawn(Registering(jobType, returnsValue)), Lock(0), Act(0)]
  }

  /** One thread appends the job, another takes it. */
  function AppendOne(job: Job): seq<Event> { [Spawn(Appending([job])), Lock(1), Act(1)] }
  const TAKE_ONE := [Act(1), Spawn(Taking), Lock(2)]

  function RegisterAppendTake(jobType: string, returnsValue: bool, job: Job): seq<Event> {
    Register(jobType, returnsValue) + AppendOne(job) + TAKE_ONE + [Act(2)]
  }

  lemma Registered(jobType: string, returnsValue: bool)
    ensures Run(INITIAL, Register(jobType, returnsValue))
         == INITIAL.(workers := WithFunc(map[], jobType, returnsValue), threads := [Finished])
  {
    var events := Register(jobType, returnsValue);
    RunThree(INITIAL, events[0], events[1], events[2]);
  }

  /** The queue with the one job, and the thread that appended it still inside. */
  function WithJob(s: State, job: Job): State {
    s.(locked := true, inside := {1}, jobs := [job], appended := [job], fates := [Waiting],
       threads := [Finished, Appending([])])
  }

  lemma AppendsOne(s: State, job: Job)
    requires s == INITIAL.(workers := s.workers, threads := [Finished])
    ensures Run(s, AppendOne(job)) == WithJob(s, job)
  {
    RunThree(s, AppendOne(job)[0], AppendOne(job)[1], AppendOne(job)[2]);
    assert Step(s, AppendOne(job)[0]).threads == [Finished, Appending([job])];
    assert [job][1..] == [];
    assert Run(s, AppendOne(job)).threads == [Finished, Appending([])];
  }

  lemma TakesOne(s: State, job: Job)
    requires s == WithJob(INITIAL.(workers := s.workers, threads := [Finished]), job)
    ensures Run(s, TAKE_ONE)
         == s.(locked := true, inside := {2}, threads := [Finished, Finished, Taking])
  {
    RunThree(s, TAKE_ONE[0], TAKE_ONE[1], TAKE_ONE[2]);
    assert Run(s, TAKE_ONE).threads == [Finished, Finished, Taking];
  }

  lemma AppendedAndTaken(jobType: string, returnsValue: bool, job: Job)
    ensures var t := Run(INITIAL, RegisterAppendTake(jobType, returnsValue, job));
            && !t.crashed && !t.locked && |t.threads| == 3
            && t.appended == [job]
            && var served := JobTypeOf(job) == jobType && jobType != "";
            && t.fates == [if served then InFlight(2) else Discarded]
            && t.threads[2] == if served then Running(0, returnsValue) else Finished
  {
    Registered(jobType, returnsValue);
    var s1 := INITIAL.(workers := WithFunc(map[], jobType, returnsValue), threads := [Finished]);
    var first, second := Register(jobType, returnsValue), AppendOne(job);
    RunAppend(INITIAL, first, second);
    AppendsOne(s1, job);
    RunAppend(INITIAL, first + second, TAKE_ONE);
    TakesOne(WithJob(s1, job), job);
    var s3 := Run(INITIAL, first + second + TAKE_ONE);
    RunAppend(INITIAL, first + second + TAKE_ONE, [Act(2)]);
    assert Run(s3, [Act(2)]) == Run(Step(s3, Act(2)), []) == Take(s3, 2);
  }

  /** One registration of a JobFunc without a result, one job, and one worker end the program for each type but "". */
  lemma UnvaluedJobFuncCrashes(jobType: string)
    ensures Run(INITIAL, RegisterAppendTake(jobType, false, Struct(jobType, 0)) + [Return(2, false)]).crashed
       <==> jobType != ""
  {
    var events := RegisterAppendTake(jobType, false, Struct(jobType, 0));
    AppendedAndTaken(jobType, false, Struct(jobType, 0));
    RunAppend(INITIAL, events, [Return(2, false)]);
    var s := Run(INITIAL, events);
    assert Run(s, [Return(2, false)])
        == Run(if Enabled(s, Return(2, false)) then Step(s, Return(2, false)) else s, []);
  }

  /** Only these JobFuncs are registered: pairs of a job type and whether the function returns a value. */
  ghost predicate RegistersOnly(events: seq<Event>, allowed: set<(string, bool)>) {
    forall k :: 0 <= k < |events| && events[k].Spawn? && events[k].thread.Registering? ==>
      (events[k].thread.jobType, events[k].thread.returnsValue) in allowed
  }

  /**
   Whatever else happens, the mutex stays in order exactly if every JobFunc that may be registered, and is not refused
   for an empty job type, returns a value.
   */
  lemma MutexIsSafeIff(allowed: set<(string, bool)>)
    ensures (forall events :: RegistersOnly(events, allowed) ==> MutexOk(Run(INITIAL, events)))
       <==> forall f :: f in allowed && f.0 != "" ==> f.1
  {
    if forall f :: f in allowed && f.0 != "" ==> f.1 {
      forall events | RegistersOnly(events, allowed) ensures MutexOk(Run(INITIAL, events)) {
        InitialIsExclusive();
        MutexIsExclusive(INITIAL, events);
      }
    } else {
      var f :| f in allowed && f.0 != "" && !f.1;
      var events := RegisterAppendTake(f.0, false, Struct(f.0, 0)) + [Return(2, false)];
      UnvaluedJobFuncCrashes(f.0);
      assert RegistersOnly(events, allowed);
      assert !MutexOk(Run(INITIAL, events));
    }
  }

  // ----- what is accepted -----

  /** Enqueue and Schedule accept one struct, or any number of structs but none. */
  lemma AcceptedIff(job: Job)
    ensures IsValidJob(job) <==>
              || (exists jobType, data :: job == Struct(jobType, data))
              || (exists jobType, elems: seq<Job> ::
                    job == Slice(jobType, elems) && |elems| >= 1 && forall e :: e in elems ==> e.Struct?)
    ensures IsValidJob(job) ==> Elements(job) == if job.Slice? then job.elems else [job]
    ensures IsValidJob(job) ==> Elements(job) != [] && forall e :: e in Elements(job) ==> e.Struct?
  {
    match job
    case Struct(jobType, data) => assert job == Struct(jobType, data);
    case Slice(jobType, elems) =>
      assert job == Slice(jobType, elems);
      assert forall i :: 0 <= i < |elems| ==> elems[i] in elems;
    case _ =>
  }

  // ----- scheduled slices -----

  /** Of the jobs that Enqueue and Schedule accept, the cron appends the same as Enqueue exactly if it is no slice. */
  lemma CronAppendsLikeEnqueueIff(job: Job)
    requires IsValidJob(job)
    ensures [job] == Elements(job) <==> !job.Slice?
  {
    if job.Slice? { assert job.elems[0] != [job][0]; }
  }

  /** A taken job is handed out exactly if a JobFunc for its type is registered at that time; else it is dropped. */
  lemma HandedOutIff(s: State, t: nat)
    requires Accounted(s) && InOrder(s) && t < |s.threads| && s.threads[t].Taking? && s.jobs != []
    ensures Take(s, t).threads[t].Running? <==> JobTypeOf(s.jobs[0]) in s.workers
    ensures Take(s, t).fates[|s.takes|] == if JobTypeOf(s.jobs[0]) in s.workers then InFlight(t) else Discarded
  {
    assert s.appended[|s.takes|] == s.jobs[0];
  }

  /** No JobFunc for this type is registered in the run. */
  predicate NoFuncFor(jobType: string, events: seq<Event>) {
    forall k :: 0 <= k < |events| ==>
      !(events[k].Spawn? && Registers(events[k].thread, jobType))
  }

  /** No JobFunc for this type is registered or about to be, and no job of the type was ever run. */
  ghost predicate Unserved(jobType: string, s: State) {
    && jobType !in s.workers
    && (forall t :: 0 <= t < |s.threads| ==> !Registers(s.threads[t], jobType))
    && |s.fates| == |s.appended|
    && (forall k :: 0 <= k < |s.appended| && JobTypeOf(s.appended[k]) == jobType ==>
          s.fates[k].Waiting? || s.fates[k].Discarded?)
  }

  lemma TakeKeepsUnserved(jobType: string, s: State, t: nat)
    requires Unserved(jobType, s) && Accounted(s) && InOrder(s) && t < |s.threads| && s.threads[t].Taking?
    ensures Unserved(jobType, Take(s, t))
  {
    if s.jobs != [] {
      assert s.appended[|s.takes|] == s.jobs[0];
    }
  }

  /** A job in flight is of another type, so its end changes no fate of this type. */
  lemma InFlightIsServed(jobType: string, s: State, t: nat, ticket: nat)
    requires Unserved(jobType, s) && Accounted(s) && t < |s.threads| && Has(s.threads[t], ticket)
    ensures ticket < |s.appended| && JobTypeOf(s.appended[ticket]) != jobType
  {
    assert s.fates[ticket] == InFlight(t);
  }

  lemma PutBackKeepsUnserved(jobType: string, s: State, t: nat, ticket: nat, failed: bool)
    requires Unserved(jobType, s) && Accounted(s) && t < |s.threads| && s.threads[t] == PuttingBack(ticket, failed)
    ensures Unserved(jobType, PutBack(s, t, ticket, failed))
  {
    InFlightIsServed(jobType, s, t, ticket);
  }

  lemma StepKeepsUnserved(jobType: string, s: State, e: Event)
    requires Unserved(jobType, s) && Accounted(s) && InOrder(s) && Enabled(s, e) && NoFuncFor(jobType, [e])
    ensures Unserved(jobType, Step(s, e))
  {
    match e
    case Act(t) =>
      if s.threads[t].Taking? {
        TakeKeepsUnserved(jobType, s, t);
      } else if s.threads[t].PuttingBack? {
        PutBackKeepsUnserved(jobType, s, t, s.threads[t].ticket, s.threads[t].failed);
      }
    case Return(t, _) => InFlightIsServed(jobType, s, t, s.threads[t].ticket);
    case Spawn(thread) => assert [e][0] == e;
    case _ =>
  }

  /** Over every run without a JobFunc for a type, jobs of the type are never run: they wait or were dropped. */
  lemma {:induction false} UnservedTypeIsNeverRun(jobType: string, s: State, events: seq<Event>)
    requires Unserved(jobType, s) && Accounted(s) && InOrder(s) && NoFuncFor(jobType, events)
    ensures Unserved(jobType, Run(s, events))
    decreases |events|
  {
    if events == [] {
    } else {
      var e := events[0];
      if Enabled(s, e) {
        StepKeepsUnserved(jobType, s, e);
        StepKeepsOrder(s, e);
        StepIsAccounted(s, e);
      }
      assert NoFuncFor(jobType, events[1..]);
      UnservedTypeIsNeverRun(jobType, if Enabled(s, e) then Step(s, e) else s, events[1..]);
    }
  }

  /**
   An accepted job, slice or not, can ever be run as it is exactly if its own type is not empty and a JobFunc for it
   may be registered.
   */
  lemma JobCanRunIff(job: Job, allowed: set<(string, bool)>)
    requires IsValidJob(job)
    ensures (exists events, k :: RegistersOnly(events, allowed) && IsRunning(Run(INITIAL, events), k, job))
       <==> JobTypeOf(job) != "" && exists f :: f in allowed && f.0 == JobTypeOf(job)
  {
    if f :| f in allowed && f.0 == JobTypeOf(job) && f.0 != "" {
      var events := RegisterAppendTake(f.0, f.1, job);
      AppendedAndTaken(f.0, f.1, job);
      assert RegistersOnly(events, allowed);
      assert IsRunning(Run(INITIAL, events), 0, job);
    } else {
      forall events, k | RegistersOnly(events, allowed) ensures !IsRunning(Run(INITIAL, events), k, job) {
        UnservedTypeIsNeverRun(JobTypeOf(job), INITIAL, events);
      }
    }
  }

  predicate IsRunning(s: State, k: nat, job: Job) {
    k < |s.appended| && k < |s.fates| && s.appended[k] == job && s.fates[k].InFlight?
  }

  /** Such a run: a slice of jobs is accepted; through Enqueue its element is handed out, through the cron it is dropped. */
  lemma ScheduledSliceIsDroppedExample()
    ensures var slice := Slice(UNNAMED, [Struct("job", 0)]);
            && IsValidJob(slice) && Elements(slice) == [Struct("job", 0)]
            && Run(INITIAL, RegisterAppendTake("job", true, slice)).fates == [Discarded]
            && Run(INITIAL, RegisterAppendTake("job", true, Struct("job", 0))).fates == [InFlight(2)]
  {
    AppendedAndTaken("job", true, Slice(UNNAMED, [Struct("job", 0)]));
    AppendedAndTaken("job", true, Struct("job", 0));
  }

  /** What each step does to the queue: the methods of `Queue` below, each at its place. */
  lemma StepOnQueue(s: State, e: Event)
    requires Accounted(s) && Enabled(s, e)
    ensures var jobs, workers := Step(s, e).jobs, Step(s, e).workers;
            if !e.Act? then jobs == s.jobs && workers == s.workers
            else match s.threads[e.t]
              case Appending(todo) => jobs == s.jobs + todo[..if todo == [] then 0 else 1] && workers == s.workers
              case Registering(jobType, r) =>
                jobs == s.jobs && workers == if jobType == "" then s.workers else s.workers[jobType := r]
              case Taking => jobs == (if s.jobs == [] then [] else s.jobs[1..]) && workers == s.workers
              case PuttingBack(ticket, failed) =>
                ticket < |s.appended| && workers == s.workers
                && jobs == if failed then s.jobs + [s.appended[ticket]] else s.jobs
              case _ => jobs == s.jobs && workers == s.workers
    ensures e.Act? && e.t !in Step(s, e).inside && s.threads[e.t] != Finished && !s.threads[e.t].Running? ==>
              Step(s, e).threads[e.t] == Finished || (s.threads[e.t].Taking? && Step(s, e).threads[e.t].Running?)
    ensures e.Return? ==> (Step(s, e).threads[e.t] == Finished <==> !s.threads[e.t].returnsValue)
  {
    if e.Act? && s.threads[e.t].PuttingBack? { assert Has(s.threads[e.t], s.threads[e.t].ticket); }
    if e.Act? && s.threads[e.t].Appending? && s.threads[e.t].todo != [] {
      assert s.threads[e.t].todo[..1] == [s.threads[e.t].todo[0]];
    }
  }

  // ----- the critical sections -----

  /** A thread that keeps the mutex appends all its jobs, next to each other, and leaves. */
  lemma {:induction false} AppendingThreadAppendsAll(s: State, t: nat, todo: seq<Job>)
    requires !s.crashed && s.locked && t < |s.threads| && t in s.inside && s.threads[t] == Appending(todo)
    ensures var s' := Run(s, Acts(t, |todo| + 1));
            && |s'.threads| == |s.threads| && s'.threads[t].Finished? && t !in s'.inside
            && s'.jobs == s.jobs + todo && !s'.locked && !s'.crashed
    decreases |todo|
  {
    var events := Acts(t, |todo| + 1);
    assert events[0] == Act(t) && events[1..] == Acts(t, |todo|);
    var s1 := Step(s, Act(t));
    if todo == [] {
      assert Run(s1, events[1..]) == s1;
    } else {
      AppendingThreadAppendsAll(s1, t, todo[1..]);
      assert s.jobs + todo == s.jobs + [todo[0]] + todo[1..];
    }
  }

  /** The queue's fields, with one method for each critical section. */
  class Queue {
    var jobs: seq<Job>
    var workerMap: map<string, bool>
    var cron: seq<Job>  // the jobs of the cron's functions

    constructor ()
      ensures jobs == [] && workerMap == map[] && cron == []
    {
      jobs, workerMap, cron := [], map[], [];
    }

    method Enqueue(job: Job) returns (ok: bool)
      modifies this`jobs
      ensures ok == IsValidJob(job)
      ensures jobs == if ok then old(jobs) + Elements(job) else old(jobs)
    {
      if !IsValidJob(job) { return false; }
      if job.Slice? {
        for i := 0 to |job.elems|
          invariant jobs == old(jobs) + job.elems[..i]
        {
          jobs := jobs + [job.elems[i]];
        }
        assert job.elems[..|job.elems|] == job.elems;
      } else {
        jobs := jobs + [job];
      }
      return true;
    }

    /** The same check as for Enqueue; `specParses` stands for the cron's parser. */
    method Schedule(job: Job, specParses: bool) returns (ok: bool)
      modifies this`cron
      ensures ok == (IsValidJob(job) && specParses)
      ensures cron == if ok then old(cron) + [job] else old(cron)
    {
      if !IsValidJob(job) { return false; }
      if !specParses { return false; }
      cron := cron + [job];
      return true;
    }

    /** The cron runs the function that Schedule gave to it: unlike Enqueue, it appends a slice as it is. */
    method RunScheduled(i: nat)
      requires i < |cron|
      modifies this`jobs
      ensures jobs == old(jobs) + [cron[i]]
      ensures IsValidJob(cron[i]) ==> (jobs == old(jobs) + Elements(cron[i]) <==> !cron[i].Slice?)
    {
      if IsValidJob(cron[i]) {
        CronAppendsLikeEnqueueIff(cron[i]);
        assert (jobs + [cron[i]])[|jobs|..] == [cron[i]];
        assert (jobs + Elements(cron[i]))[|jobs|..] == Elements(cron[i]);
      }
      jobs := jobs + [cron[i]];
    }

    method RegisterJobFunc(jobType: string, returnsValue: bool) returns (ok: bool)
      modifies this`workerMap
      ensures ok == (jobType != "")
      ensures workerMap == if ok then old(workerMap)[jobType := returnsValue] else old(workerMap)
    {
      if jobType == "" { return false; }
      workerMap := workerMap[jobType := returnsValue];
      return true;
    }

    /** processFirstJob up to the unlock: the job to run, if there is one. */
    method TakeFirst() returns (r: Option<Job>)
      modifies this`jobs
      ensures jobs == if old(jobs) == [] then [] else old(jobs)[1..]
      ensures r == if old(jobs) != [] && JobTypeOf(old(jobs)[0]) in workerMap then Some(old(jobs)[0]) else None
    {
      if |jobs| == 0 { return None; }
      var job := jobs[0];
      jobs := jobs[1..];
      if JobTypeOf(job) !in workerMap { return None; }
      return Some(job);
    }

    /** processFirstJob after the JobFunc. */
    method PutBackFailed(job: Job, failed: bool)
      modifies this`jobs
      ensures jobs == if failed then old(jobs) + [job] else old(jobs)
    {
      if failed { jobs := jobs + [job]; }
    }
  }
}
