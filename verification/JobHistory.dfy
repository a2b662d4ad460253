/**
 The history of job attempts. gue runs the lock hook, the worker and the done hook of an attempt in one transaction;
 the worker puts a savepoint around the JobFunc, so that a failed JobFunc loses its own writes but keeps the history row.
 */
module JobHistory {
  import opened Options

  type JobID = string
  type Write = nat

  datatype Row = Row(jobID: JobID, runCount: nat, success: bool, finished: bool)

  /** A queued job: how often it failed, and whether its arguments and its job data can be decoded. */
  datatype Job = Job(errorCount: nat, argsDecode: bool, dataDecodes: bool)

  datatype DB = DB(jobs: map<JobID, Job>, history: seq<Row>, writes: seq<Write>)

  datatype Statement =
    | InsertHistory(jobID: JobID, runCount: nat)
    | UpdateHistory(jobID: JobID, runCount: nat, success: bool)
    | JobFuncWrites(ws: seq<Write>)
    | CountError(jobID: JobID)
    | DeleteJob(jobID: JobID)

  /** UPDATE ... WHERE job_id = $2 AND run_count = $4 AND finished_at IS NULL */
  function CloseRows(history: seq<Row>, jobID: JobID, runCount: nat, success: bool): seq<Row> {
    if history == [] then []
    else
      var row := history[0];
      var closed := if row.jobID == jobID && row.runCount == runCount && !row.finished
                    then row.(success := success, finished := true) else row;
      [closed] + CloseRows(history[1..], jobID, runCount, success)
  }

  function Execute(db: DB, s: Statement): DB {
    match s
    case InsertHistory(id, n) => db.(history := db.history + [Row(id, n, false, false)])
    case UpdateHistory(id, n, success) => db.(history := CloseRows(db.history, id, n, success))
    case JobFuncWrites(ws) => db.(writes := db.writes + ws)
    case CountError(id) =>
      if id in db.jobs then db.(jobs := db.jobs[id := db.jobs[id].(errorCount := db.jobs[id].errorCount + 1)]) else db
    case DeleteJob(id) => db.(jobs := db.jobs - {id})
  }

  // ----- an attempt, seen from outside -----

  /** What happens around one attempt: which statements fail, and what the JobFunc does. */
  datatype Env = Env(
    insertFails: bool,
    savepointFails: bool,
    jobWrites: seq<Write>,
    jobBreaksTx: bool,    // one of the JobFunc's own statements failed
    jobFails: bool,       // the JobFunc returned an error
    rollbackFails: bool,
    releaseFails: bool,
    updateFails: bool,
    finishFails: bool,    // gue's own statement on the job
    commitFails: bool
  )

  predicate AttemptFails(job: Job, env: Env) { !job.argsDecode || !job.dataDecodes || env.jobFails }

  predicate Commits(job: Job, env: Env) {
    && (job.argsDecode ==> !env.insertFails)
    && (job.argsDecode && job.dataDecodes ==>
          && !env.savepointFails
          && (if env.jobFails then !env.rollbackFails else !env.jobBreaksTx && !env.releaseFails))
    && !env.updateFails && !env.finishFails && !env.commitFails
  }

  /** The database after a committed attempt. */
  function AfterAttempt(db: DB, id: JobID, env: Env): DB
    requires id in db.jobs
  {
    var job := db.jobs[id];
    var failed := AttemptFails(job, env);
    DB(if failed then db.jobs[id := job.(errorCount := job.errorCount + 1)] else db.jobs - {id},
       if job.argsDecode then db.history + [Row(id, job.errorCount, !failed, true)] else db.history,
       if failed then db.writes else db.writes + env.jobWrites)
  }

  // ----- an attempt, step by step -----

  /** A transaction: a failed statement aborts it, and only going back to the savepoint recovers it. */
  class Tx {
    var db: DB
    var aborted: bool
    var savepoint: Option<DB>

    constructor (start: DB)
      ensures db == start && !aborted && savepoint == None
    {
      db, aborted, savepoint := start, false, None;
    }

    method Exec(s: Statement, fails: bool) returns (ok: bool)
      modifies this`db, this`aborted
      ensures ok == !(old(aborted) || fails) && aborted == !ok
      ensures db == if ok then Execute(old(db), s) else old(db)
    {
      ok := !aborted && !fails;
      if ok { db := Execute(db, s); }
      aborted := !ok;
    }

    method Savepoint(fails: bool) returns (ok: bool)
      modifies this`aborted, this`savepoint
      ensures ok == !(old(aborted) || fails) && aborted == !ok
      ensures savepoint == if ok then Some(db) else old(savepoint)
    {
      ok := !aborted && !fails;
      if ok { savepoint := Some(db); }
      aborted := !ok;
    }

    method RollbackToSavepoint(fails: bool) returns (ok: bool)
      modifies this`db, this`aborted
      ensures ok == (old(savepoint).Some? && !fails) && aborted == !ok
      ensures db == if ok then old(savepoint).value else old(db)
    {
      ok := savepoint.Some? && !fails;
      if ok { db := savepoint.value; }
      aborted := !ok;
    }

    method ReleaseSavepoint(fails: bool) returns (ok: bool)
      modifies this`aborted, this`savepoint
      ensures ok == !(old(aborted) || fails) && aborted == !ok
    {
      ok := !aborted && !fails;
      if ok { savepoint := None; }
      aborted := !ok;
    }

    /** recordStartedJobsToHistory: no row without decodable arguments, and a failed insert is only logged. */
    method RecordStarted(id: JobID, job: Job, env: Env)
      modifies this`db, this`aborted
      ensures aborted == (old(aborted) || (job.argsDecode && env.insertFails))
      ensures db == if job.argsDecode && !aborted then Execute(old(db), InsertHistory(id, job.errorCount)) else old(db)
    {
      if !job.argsDecode { return; }
      var _ := Exec(InsertHistory(id, job.errorCount), env.insertFails);
    }

    /** gueWorkerAdapter */
    method Work(job: Job, env: Env) returns (err: bool)
      modifies this
      ensures !aborted ==> err == AttemptFails(job, env)
      ensures !aborted ==> db == if err then old(db) else Execute(old(db), JobFuncWrites(env.jobWrites))
      ensures aborted <==>
                if !job.argsDecode || !job.dataDecodes then old(aborted)
                else old(aborted) || env.savepointFails
                     || (if env.jobFails then env.rollbackFails else env.jobBreaksTx || env.releaseFails)
      ensures !err ==> !aborted
    {
      if !job.argsDecode { return true; }
      if !job.dataDecodes { return true; }
      var ok := Savepoint(env.savepointFails);
      if !ok { return true; }
      ok := Exec(JobFuncWrites(env.jobWrites), env.jobBreaksTx);
      if env.jobFails {
        var _ := RollbackToSavepoint(env.rollbackFails);
        return true;
      }
      ok := ReleaseSavepoint(env.releaseFails);
      return !ok;
    }

    /** recordFinishedJobsToHistory: a failed update is only logged. */
    method RecordFinished(id: JobID, job: Job, err: bool, env: Env)
      modifies this`db, this`aborted
      ensures aborted == (old(aborted) || env.updateFails)
      ensures !aborted ==> db == Execute(old(db), UpdateHistory(id, job.errorCount, !err))
    {
      if err {
        var _ := Exec(UpdateHistory(id, job.errorCount, false), env.updateFails);
        return;
      }
      var _ := Exec(UpdateHistory(id, job.errorCount, true), env.updateFails);
    }

    /** gue: count the error or delete the job. */
    method Finish(id: JobID, err: bool, env: Env)
      modifies this`db, this`aborted
      ensures aborted == (old(aborted) || env.finishFails)
      ensures !aborted ==> db == Execute(old(db), if err then CountError(id) else DeleteJob(id))
    {
      var _ := Exec(if err then CountError(id) else DeleteJob(id), env.finishFails);
    }
  }

  ghost predicate AllClosed(history: seq<Row>) { forall i :: 0 <= i < |history| ==> history[i].finished }

  lemma {:induction false} CloseLast(history: seq<Row>, id: JobID, n: nat, success: bool)
    requires AllClosed(history)
    ensures CloseRows(history, id, n, success) == history
    ensures CloseRows(history + [Row(id, n, false, false)], id, n, success) == history + [Row(id, n, success, true)]
  {
    if history == [] {
    } else {
      var open := Row(id, n, false, false);
      CloseLast(history[1..], id, n, success);
      assert (history + [open])[1..] == history[1..] + [open];
      assert history == [history[0]] + history[1..];
    }
  }

  /** One attempt of a job: either its transaction commits with exactly the declared effect, or nothing changes. */
  method Attempt(db: DB, id: JobID, env: Env) returns (after: DB)
    requires id in db.jobs && AllClosed(db.history)
    ensures after == if Commits(db.jobs[id], env) then AfterAttempt(db, id, env) else db
  {
    var job := db.jobs[id];
    var tx := new Tx(db);
    tx.RecordStarted(id, job, env);
    var err := tx.Work(job, env);
    CloseLast(db.history, id, job.errorCount, !err);
    tx.RecordFinished(id, job, err, env);
    tx.Finish(id, err, env);
    if tx.aborted || env.commitFails { return db; }
    return tx.db;
  }

  /**
   An attempt is lost exactly if a statement fails that is sent and not undone: the JobFunc's own statements are undone
   if it returns an error, and are sent, with the savepoint around them, only if arguments and data decode.
   */
  lemma AttemptIsLostIff(job: Job, env: Env)
    ensures !Commits(job, env) <==>
              var runs := job.argsDecode && job.dataDecodes;
              || (job.argsDecode && env.insertFails) || env.updateFails || env.finishFails || env.commitFails
              || (runs && env.savepointFails)
              || (runs && env.jobFails && env.rollbackFails)
              || (runs && !env.jobFails && (env.jobBreaksTx || env.releaseFails))
  {
  }

  // ----- every run -----

  datatype Event = Enqueue(id: JobID, argsDecode: bool, dataDecodes: bool) | TryJob(id: JobID, env: Env)

  function RowsOf(history: seq<Row>, id: JobID): seq<Row> {
    if history == [] then []
    else
      var n := |history| - 1;
      RowsOf(history[..n], id) + (if history[n].jobID == id then [history[n]] else [])
  }

  predicate Enabled(db: DB, e: Event) {
    match e
    case Enqueue(id, _, _) => id !in db.jobs && RowsOf(db.history, id) == []  // gue makes a new ID
    case TryJob(id, _) => id in db.jobs
  }

  function Step(db: DB, e: Event): DB
    requires Enabled(db, e)
  {
    match e
    case Enqueue(id, argsDecode, dataDecodes) => db.(jobs := db.jobs[id := Job(0, argsDecode, dataDecodes)])
    case TryJob(id, env) => if Commits(db.jobs[id], env) then AfterAttempt(db, id, env) else db
  }

  const EMPTY := DB(map[], [], [])

  /** The run of `events`; events that are not enabled do not happen. */
  function Run(events: seq<Event>): DB {
    if events == [] then EMPTY
    else
      var n := |events| - 1;
      var db := Run(events[..n]);
      if Enabled(db, events[n]) then Step(db, events[n]) else db
  }

  /** The committed attempt of a job that an event is, if it is one: whether it failed. */
  function AttemptOf(db: DB, e: Event, id: JobID): seq<bool> {
    if e.TryJob? && e.id == id && id in db.jobs && Commits(db.jobs[id], e.env)
    then [AttemptFails(db.jobs[id], e.env)] else []
  }

  /** The committed attempts of a job over a run, each with whether it failed. */
  function AttemptsOf(events: seq<Event>, id: JobID): seq<bool> {
    if events == [] then []
    else
      var n := |events| - 1;
      AttemptsOf(events[..n], id) + AttemptOf(Run(events[..n]), events[n], id)
  }

  predicate EnqueuesDecodable(db: DB, e: Event, id: JobID) {
    e.Enqueue? && e.id == id && Enabled(db, e) && e.argsDecode
  }

  /** Whether the job was enqueued with arguments that decode. */
  predicate Decodes(events: seq<Event>, id: JobID) {
    if events == [] then false
    else
      var n := |events| - 1;
      EnqueuesDecodable(Run(events[..n]), events[n], id) || Decodes(events[..n], id)
  }

  /** The writes of the JobFuncs whose attempt succeeded. */
  function KeptWrites(events: seq<Event>): seq<Write> {
    if events == [] then []
    else
      var n := |events| - 1;
      var e := events[n];
      var db := Run(events[..n]);
      KeptWrites(events[..n])
      + (if e.TryJob? && e.id in db.jobs && Commits(db.jobs[e.id], e.env) && !AttemptFails(db.jobs[e.id], e.env)
         then e.env.jobWrites else [])
  }

  /** The row of the n-th committed attempt. */
  predicate IsRowOf(row: Row, id: JobID, n: nat, failed: bool) { row == Row(id, n, !failed, true) }

  ghost predicate RowsRecord(rows: seq<Row>, id: JobID, attempts: seq<bool>) {
    |rows| == |attempts| && forall i :: 0 <= i < |rows| ==> IsRowOf(rows[i], id, i, attempts[i])
  }

  lemma RowsOfAppend(history: seq<Row>, row: Row, id: JobID)
    ensures RowsOf(history + [row], id) == RowsOf(history, id) + (if row.jobID == id then [row] else [])
  {
    assert (history + [row])[..|history|] == history;
  }

  ghost predicate JobInv(db: DB, id: JobID, attempts: seq<bool>, decodes: bool) {
    && (if decodes then RowsRecord(RowsOf(db.history, id), id, attempts) else RowsOf(db.history, id) == [])
    && (forall i :: 0 <= i < |attempts| - 1 ==> attempts[i])
    && (id in db.jobs ==>
          && db.jobs[id].argsDecode == decodes
          && db.jobs[id].errorCount == |attempts|
          && (attempts != [] ==> attempts[|attempts| - 1]))
    && (id !in db.jobs ==> if decodes then attempts != [] && !attempts[|attempts| - 1] else attempts == [])
  }

  lemma EnqueueKeepsJobInv(db: DB, id: JobID, attempts: seq<bool>, decodes: bool, e: Event)
    requires JobInv(db, id, attempts, decodes) && e.Enqueue? && Enabled(db, e)
    ensures JobInv(Step(db, e), id, attempts, decodes || (e.id == id && e.argsDecode))
  {
  }

  lemma AttemptKeepsJobInv(db: DB, id: JobID, attempts: seq<bool>, decodes: bool, env: Env)
    requires JobInv(db, id, attempts, decodes) && id in db.jobs
    ensures JobInv(AfterAttempt(db, id, env), id, attempts + [AttemptFails(db.jobs[id], env)], decodes)
  {
    var job := db.jobs[id];
    var failed := AttemptFails(job, env);
    if decodes {
      var row := Row(id, job.errorCount, !failed, true);
      RowsOfAppend(db.history, row, id);
      var rows := RowsOf(db.history, id);
      forall i | 0 <= i < |rows| + 1 ensures IsRowOf((rows + [row])[i], id, i, (attempts + [failed])[i]) {
        if i < |rows| { assert IsRowOf(rows[i], id, i, attempts[i]); }
      }
    }
  }

  lemma OtherAttemptKeepsJobInv(db: DB, id: JobID, attempts: seq<bool>, decodes: bool, other: JobID, env: Env)
    requires JobInv(db, id, attempts, decodes) && other in db.jobs && other != id
    ensures JobInv(AfterAttempt(db, other, env), id, attempts, decodes)
  {
    var job := db.jobs[other];
    RowsOfAppend(db.history, Row(other, job.errorCount, !AttemptFails(job, env), true), id);
  }

  lemma StepKeepsJobInv(db: DB, id: JobID, attempts: seq<bool>, decodes: bool, e: Event)
    requires JobInv(db, id, attempts, decodes)
    ensures JobInv(if Enabled(db, e) then Step(db, e) else db, id,
                   attempts + AttemptOf(db, e, id), EnqueuesDecodable(db, e, id) || decodes)
  {
    assert attempts + [] == attempts;
    if Enabled(db, e) {
      if e.Enqueue? {
        EnqueueKeepsJobInv(db, id, attempts, decodes, e);
      } else if e.id == id {
        AttemptKeepsJobInv(db, id, attempts, decodes, e.env);
      } else {
        OtherAttemptKeepsJobInv(db, id, attempts, decodes, e.id, e.env);
      }
    }
  }

  lemma {:induction false} RunKeepsJobInv(events: seq<Event>, id: JobID)
    ensures JobInv(Run(events), id, AttemptsOf(events, id), Decodes(events, id))
  {
    if events == [] {
    } else {
      var n := |events| - 1;
      RunKeepsJobInv(events[..n], id);
      StepKeepsJobInv(Run(events[..n]), id, AttemptsOf(events[..n], id), Decodes(events[..n], id), events[n]);
    }
  }

  lemma {:induction false} RunKeepsClosed(events: seq<Event>)
    ensures AllClosed(Run(events).history)
  {
    if events == [] {
    } else {
      RunKeepsClosed(events[..|events| - 1]);
    }
  }

  /** The runs are what the transactions do: working off the events attempt by attempt gives the run's database. */
  method WorkAll(events: seq<Event>) returns (db: DB)
    ensures db == Run(events)
  {
    db := EMPTY;
    for n := 0 to |events|
      invariant db == Run(events[..n])
    {
      RunKeepsClosed(events[..n]);
      assert events[..n + 1][..n] == events[..n];
      if Enabled(db, events[n]) {
        match events[n] {
          case Enqueue(id, argsDecode, dataDecodes) => db := db.(jobs := db.jobs[id := Job(0, argsDecode, dataDecodes)]);
          case TryJob(id, env) => db := Attempt(db, id, env);
        }
      }
    }
    assert events[..|events|] == events;
  }

  /**
   For a job whose arguments decode, the history has exactly one closed row for each committed attempt, numbered
   0, 1, 2, ... in order; only the last can be a success, and it is one exactly if the job is finished.
   */
  lemma {:induction false} HistoryRecordsAttempts(events: seq<Event>, id: JobID)
    requires Decodes(events, id)
    ensures var db := Run(events);
            var rows := RowsOf(db.history, id);
            && |rows| == |AttemptsOf(events, id)|
            && (forall i :: 0 <= i < |rows| ==> rows[i].jobID == id && rows[i].runCount == i && rows[i].finished)
            && (forall i :: 0 <= i < |rows| ==>
                  (rows[i].success <==> i == |rows| - 1 && id !in db.jobs))
            && (id in db.jobs ==> db.jobs[id].errorCount == |rows|)
            && (id !in db.jobs ==> rows != [])
  {
    RunKeepsJobInv(events, id);
    var rows := RowsOf(Run(events).history, id);
    forall i | 0 <= i < |rows| ensures IsRowOf(rows[i], id, i, AttemptsOf(events, id)[i]) {
    }
  }

  /** A committed attempt leaves its row exactly if the arguments decode; without them no attempt leaves any. */
  lemma {:induction false} AttemptsLeaveRowsIffArgsDecode(events: seq<Event>, id: JobID)
    requires AttemptsOf(events, id) != []
    ensures |RowsOf(Run(events).history, id)| == |AttemptsOf(events, id)| <==> Decodes(events, id)
    ensures !Decodes(events, id) ==> RowsOf(Run(events).history, id) == []
  {
    RunKeepsJobInv(events, id);
  }

  /** The database keeps the writes of successful attempts, and none of a failed one. */
  lemma {:induction false} OnlySuccessfulWritesAreKept(events: seq<Event>)
    ensures Run(events).writes == KeptWrites(events)
  {
    if events == [] {
    } else {
      OnlySuccessfulWritesAreKept(events[..|events| - 1]);
    }
  }
}
