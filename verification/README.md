# A verified model of Arrower's stateful core

Arrower is a Go web framework. Most of it is plumbing. This project models the parts whose correctness cannot be
seen in one branch of the code, and proves what they promise over all inputs, all runs and all interleavings.

Each file is one module and one component:

| file | component |
|---|---|
| `PostgresJobs.dfy` | the restart protocol of the Postgres job handler: registrations, the delayed start timer, `Shutdown` |
| `JobHistory.dfy` | one attempt of a job in its transaction: history hooks, savepoint, `gue`'s own statements |
| `MemoryQueue.dfy` | the in-memory queue: enqueuers, cron and workers around one mutex |
| `MemoryRepository.dfy` | the generic in-memory repository and its hand-written rollbacks |
| `PostgresIterator.dfy` | the cursor iterator: producer goroutine, buffered channel, consumer |
| `ColumnFlattening.dfy` | entities as columns and values |
| `Query.dfy` | queries and filters, the memory repository's matching, slices of conditions |
| `QueryTranslation.dfy` | the translation of queries to SQL, and when both repositories select the same |
| `TemplateNames.dfy`, `Renderer.dfy` | the grammar of template names, layout resolution, the template cache |
| `SettingValues.dfy`, `Settings.dfy` | integer and boolean settings as text; the two settings stores |
| `UserPaging.dfy` | keyset pagination over users |
| `UserNames.dfy`, `BoolFlags.dfy` | names and flags of a user, and how they survive the database |
| `UserAccounts.dfy` | register, issue a token, verify, block, log in |
| `Strings.dfy`, `Options.dfy` | Go's `Split`, `Join`, `Contains`, `TrimSpace` with their laws; a value that may be missing |

Code that changes state is a class or a method with loops; its contract ties the new state to a transition function.
The theorems are lemmas about those functions and about runs of them; among them are, for each function, some that say
what it does in terms of the state before, the events or the arguments alone. Concurrency is a state machine: every critical
section, and everything that happens without the lock, is one step, and a run is any sequence of steps. The clock, new
ids, and whether a statement, the store or another system fails are part of the step.

## What the proofs found

Each of these is a property one would expect, that holds exactly under the condition proved here.

- **A successful `Shutdown` is not final.** It does not stop an armed or expired start timer. Workers can come to
  life afterwards exactly when a start was outstanding (`PostgresJobs.ShutdownIsFinalUnlessStartOutstanding`).
- **One failed `scheduler.Run` wedges the handler.** `isStartInProgress` stays set with a spent timer: no pool ever
  starts again, while every later registration reports success (`PostgresJobs.SchedulerErrorWedges`).
- **A pool that ended with an error wedges it too**: nothing changes any more, and every later registration and
  `Shutdown` reports the old error (`PostgresJobs.FailedPoolWedges`, and `PoolFailsIff` for how it comes to that).
- **A failed update of the pool's row leaves the handler idle**: its workers have ended and no start is outstanding,
  until a later call gets past the update (`PostgresJobs.PoolIdlesIff`, `PostgresJobs.IdleUntilCallSucceeds`).
- **A JobFunc is accepted with any first parameter that is an interface called `Context`**, of whatever package, as the
  check asks for either half of the name (`PostgresJobs.JobFuncIsValidIff`).
- **A rejected registration can look accepted.** If the start timer has expired and its callback still waits for the
  mutex, the callback's error is dropped (`PostgresJobs.RejectedChangeIsReported`).
- **A batch that does not fit the entity can end an iteration without any error**, and the iteration then looks
  complete (`PostgresIterator.SilentTruncation`). A failed `FETCH` is reported exactly if it aborts the transaction, by
  the errors of `CLOSE` and Commit, or if rows were still on their way (`PostgresIterator.FetchErrorIsReportedIff`).
- **A loop body that stops at the error of `CLOSE` is called again**, with Commit's error, at which Go panics; and this
  is the only stop after which it is called again (`PostgresIterator.CalledAfterStopIff`).
- **Stopping an iteration early can leave the producer blocked for good**, exactly for cursors with at least two rows
  more than the channel holds (`PostgresIterator.EarlyStopCanLeakIffTwoMoreThanCapacity`). No context can free it then
  (`PostgresIterator.BlockedForGoodIff`).
- **A transaction that the iterator began itself stays open for good after an early stop or a cancellation**, and after
  no other end of the caller's loop; a transaction that the caller put into the context is ended by every iteration
  that goes to its end (`PostgresIterator.TransactionStaysOpenIff`).
- **The rollbacks of the memory repository are not exact in general.** `MemoryRepository.RollbackRestoresIff` says for
  each operation when they are; a failing `AddAll` is never undone unless it is empty, and `Save` of a stored ID deletes it.
- **Pointer fields break the alignment of columns and values**: for pointers to scalars, exactly as soon as one is set
  (`ColumnFlattening.ColumnsFitIffNoPointerIsSet`), and a nil pointer names its column twice.
- **Queries built from one base can overwrite each other**, exactly while the base's array of conditions has room
  (`Query.BranchesAreIndependentIff`), as it has after three chained conditions (`Query.FourthConditionIsOverwritten`).
- **Or groups are ignored** by the memory repository, and by SQL too if there is no plain condition; the repositories
  differ exactly on the entities named in `QueryTranslation.GroupedQueryAgreesIff`.
- **A filter selects the same in both repositories** exactly if no field it sets has a column that is an earlier
  field's Go name but for case (`QueryTranslation.FilterKeepsMeaningIff`), given columns that SQL can name without
  quotes. A tag with a dot is never found by a filter, and one in upper case only if it spells the field's own name.
- **A JobFunc without a result breaks the memory queue's mutex**: over all runs the mutex is in order exactly if every
  JobFunc that may be registered, and is not refused for an empty job type, returns a value
  (`MemoryQueue.MutexIsSafeIff`).
- **A slice given to `Schedule` of the memory queue is appended whole**, unlike by `Enqueue`
  (`MemoryQueue.CronAppendsLikeEnqueueIff`), and can be run exactly if a JobFunc for the slice's own type may be
  registered (`MemoryQueue.JobCanRunIff`).
- **A context used both plainly and below `admin/`** gives one cache key to two different pages, unless the admin
  context's layout is blank or the same (`Renderer.MixedUseAgreesIff`); `Renderer.MixedUseExample` is a run that serves
  the wrong one.
- **A localised request panics** exactly if its cached template was executed before without a language
  (`Renderer.LocalisedRequestPanicsIff`).
- **The two settings stores differ** on registering nothing and on listing existing keys twice, and, as long as the
  listed keys have three non-empty parts, nowhere else (`Settings.StoresAreEquivalent`).
- **Paging from a login that no longer exists** gives an empty page in memory and the following users in SQL
  (`UserPaging.PagesAgreeIff`).
- **A registration that fails after saving the user cannot be repeated**: the login is taken
  (`UserAccounts.LateFailureTakesTheLogin`).

Where the code and its comments disagree the model follows the code: the comment "prevent go routine leak" in the
iterator does not hold, as the quit channel is looked at only between two fetches; and the `Settings` interface
describes one behaviour for both stores, which differ as said above.

## Model

Rows that begin with *Supporting* are steps towards the other results, or readings of one transition.

| member | source | states |
|---|---|---|
| `PostgresJobs.AtMostOneStartAndOnePool` | jobs/postgres.go:257-295 | In every interleaving, failures included: at most one delayed start is outstanding and none once the queue has started; at most one worker pool is live. |
| `PostgresJobs.StepKeepsInv` | jobs/postgres.go:601-656 | Every atomic step (registration, Shutdown, timer expiry, timer callback, a dying pool) keeps the protocol's invariant. |
| `PostgresJobs.RegisterKeepsInv` | jobs/postgres.go:257-295 | Stopping the pool, changing the handler and re-arming the timer keep the invariant, on every failing branch. |
| `PostgresJobs.ShutdownKeepsInv` | jobs/postgres.go:880-907 | shutdown keeps the invariant and never leaves a live pool, even where it reports an error with hasStarted still true. |
| `PostgresJobs.NeverAlreadyStarted` | jobs/postgres.go:601-610 | startWorkers never reaches its "queue already started" error. |
| `PostgresJobs.CallbackRunsBetweenPools` | jobs/postgres.go:257-295 | The callback runs only when no pool is live; if stopping fails it does not run and nothing it would change is changed. |
| `PostgresJobs.WorkMapIsFirstRegistration` | jobs/postgres.go:431-451 | Over a whole run the work map is write-once per job type: it holds exactly the first registration of each. |
| `PostgresJobs.SchedulesAreKept` | jobs/postgres.go:241-254 | Over a whole run the schedules are a log of the calls whose callback ran, and the scheduler's a log of those it took: no restart loses one, no call enters two. |
| `PostgresJobs.MissedOnlyAfterSchedulerError` | jobs/postgres.go:601-656 | A registered job type or schedule is neither with the last started pool nor waiting for a start exactly after scheduler.Run has failed. |
| `PostgresJobs.OutstandingStartIsServed` | jobs/postgres.go:257-295 | Letting an outstanding timer run its course starts a pool that knows every registered job type and every schedule. |
| `PostgresJobs.SchedulerErrorWedges` | jobs/postgres.go:601-656 | After a scheduler error no run starts a pool again, although each registration returns no error. |
| `PostgresJobs.FailedPoolWedges` | jobs/postgres.go:872-907 | Once the last pool ended with an error, no event changes the handler, and every registration and Shutdown reports that error. |
| `PostgresJobs.PoolFailsIff` | jobs/postgres.go:880-907 | A step leads there exactly if a pool is live and ends with an error, by itself or while it is stopped. |
| `PostgresJobs.PoolIdlesIff` | jobs/postgres.go:880-907 | A step leads to that state exactly if a live pool is stopped well by a registration or Shutdown and the update of its row fails. |
| `PostgresJobs.IdleUntilCallSucceeds` | jobs/postgres.go:880-907 | A handler whose last pool ended well while it counts as started works nothing off, although that pool was given all work; no run changes it until a registration or Shutdown gets past the update of the row, and exactly such a call does. |
| `PostgresJobs.RejectedChangeIsReported` | jobs/postgres.go:257-295 | The callback's error reaches the caller exactly unless a start is in progress whose timer has already expired. |
| `PostgresJobs.RegistrationAnswersIff` | jobs/postgres.go:257-295 | Over every run, said of the state before: a registration fails as a shutdown exactly if the pool cannot be stopped; it returns the callback's error exactly if the change is refused and no expired timer hides it; else it succeeds. |
| `PostgresJobs.RegistrationChanges` | jobs/postgres.go:257-295 | Over every run: all that a registration changes. A change that is not refused is made, a refused schedule is kept in the list only, and, unless it is too late to stop the old timer, a new one is the only one armed. |
| `PostgresJobs.ShutdownAnswersIff` | jobs/postgres.go:872-907 | Over every run: exactly when Shutdown fails, and all that it changes. |
| `PostgresJobs.StartAnswersIff` | jobs/postgres.go:601-656 | Over every run: what an expired timer's callback answers, and all that it changes; the new pool has every job type and schedule. |
| `PostgresJobs.JobFuncIsValidIff` | jobs/postgres.go:453-494 | A JobFunc is accepted exactly if it takes two parameters, an interface of package context or called Context and a struct, and returns one error. |
| `PostgresJobs.HiddenRejectionExample` | jobs/postgres.go:257-295 | A concrete run in which a second registration of a type is refused and nevertheless returns no error. |
| `PostgresJobs.ShutdownIsFinalUnlessStartOutstanding` | jobs/postgres.go:872-907 | After a successful Shutdown, without further registrations, a pool can become live again exactly if a start was outstanding. |
| `PostgresJobs.StartAfterShutdownExample` | jobs/postgres.go:872-907 | A concrete run in which a pool becomes live after a successful Shutdown. |
| `PostgresJobs.PostgresJobsHandler.RegisterJobFunc` | jobs/postgres.go:431-494 | An invalid JobFunc or type name is refused and changes nothing; else state and result are those of the registration step. |
| `PostgresJobs.PostgresJobsHandler.Schedule` | jobs/postgres.go:216-255 | A job that is no struct, has no type name or cannot be marshalled is refused and changes nothing; else the registration step: the schedule is kept even if the scheduler refuses it. |
| `PostgresJobs.PostgresJobsHandler.ExecuteBetweenRestarts` | jobs/postgres.go:257-295 | The method's branches on isStartInProgress and on Stop of the timer are those of the registration step. |
| `PostgresJobs.PostgresJobsHandler.StartWorkers` | jobs/postgres.go:601-656 | The timer callback's effect on every field, on all three branches. |
| `PostgresJobs.PostgresJobsHandler.Shutdown` | jobs/postgres.go:872-907 | The effect of Shutdown on every field, on all branches. |
| `JobHistory.Attempt` | jobs/postgres.go:496-567 | Hook, worker and hook run statement by statement in one transaction: either it commits with the declared effect, or the database is unchanged. |
| `JobHistory.AttemptIsLostIff` | jobs/postgres.go:534-565 | An attempt is lost exactly if a statement fails that is sent and not undone. |
| `JobHistory.Tx.Work` | jobs/postgres.go:496-567 | The worker adapter: a failed JobFunc leaves the transaction usable and none of its writes; success is reported only in a usable transaction. |
| `JobHistory.Tx.RecordStarted` | jobs/postgres.go:734-792 | A started job gets its history row exactly if its arguments decode and the insert works. |
| `JobHistory.Tx.RecordFinished` | jobs/postgres.go:819-870 | The finished hook closes the open row of this job and run count with the success that the worker reported. |
| `JobHistory.CloseLast` | jobs/models/query.sql.go:82-107 | The conditions on job, run count and missing finish time make the update touch exactly the row inserted last. |
| `JobHistory.HistoryRecordsAttempts` | jobs/postgres.go:734-870 | Over every run, a job whose arguments decode has exactly one closed row per committed attempt, numbered 0, 1, 2, ...; only the last can be a success, and it is one exactly if the job is finished. |
| `JobHistory.AttemptsLeaveRowsIffArgsDecode` | jobs/postgres.go:734-815 | Attempts leave their rows exactly if the arguments decode; otherwise they leave none. |
| `JobHistory.OnlySuccessfulWritesAreKept` | jobs/postgres.go:534-565 | Over every run the database keeps exactly the writes of successful attempts, in order. |
| `JobHistory.WorkAll` | jobs/postgres.go:496-567 | Working off any events with the statement-by-statement transactions gives exactly the database of the run that the theorems are about. |
| `MemoryQueue.QueueConservesJobs` | jobs/inmemory.go:52-107 | Over every interleaving: appends equal takes followed by the queue (FIFO), and every append has exactly one true fate: waiting, in flight with one thread, succeeded, re-appended later, or dropped. |
| `MemoryQueue.AppendsAreHandedInOrFailed` | jobs/inmemory.go:52-107 | Over every run the appended jobs are, as a multiset, those handed in by callers and the cron and those put back, and nothing else. |
| `MemoryQueue.FateIsWhatTheJobFuncSaid` | jobs/inmemory.go:163-181 | Over every run, by what the JobFuncs returned: a job is appended again exactly if its JobFunc returned an error and has succeeded exactly if it returned none, once its thread has taken the mutex; before it returned, it is neither. |
| `MemoryQueue.EachFailedJobIsAppendedOnceMore` | jobs/inmemory.go:163-181 | Over every run the appended jobs are, as a multiset, those handed in and each failed job once more. |
| `MemoryQueue.StepOnQueue` | jobs/inmemory.go:52-107 | What every step of the machine does to queue and work map, which is what the methods of the queue do. |
| `MemoryQueue.RunKeepsRequeuesDistinct` | jobs/inmemory.go:173-180 | Over every run two failed jobs are never appended again as one. |
| `MemoryQueue.StepIsAccounted` | jobs/inmemory.go:146-181 | Every step keeps the account of fates. |
| `MemoryQueue.StepKeepsOrder` | jobs/inmemory.go:146-181 | Every step keeps first in, first out. |
| `MemoryQueue.MutexIsExclusive` | jobs/inmemory.go:146-181 | If every JobFunc returns a value: at most one thread is inside, the mutex is held exactly while one is, and it is released on every way out. |
| `MemoryQueue.MutexIsSafeIff` | jobs/inmemory.go:95-107 | Over all runs with the given JobFuncs the mutex is in order exactly if all of them, but those refused for an empty job type, return a value. |
| `MemoryQueue.MutexIsInOrderIff` | jobs/inmemory.go:146-181 | In one run the mutex is in order at all times exactly if no JobFunc without a result returns. |
| `MemoryQueue.StepKeepsMutexIff` | jobs/inmemory.go:164-181 | A step keeps the mutex in order exactly unless it is such a return. |
| `MemoryQueue.HolderIsRobbed` | jobs/inmemory.go:146-181 | After a JobFunc without a result has returned, any waiting thread can join the one inside, and that one's own next step ends the program exactly unless it has jobs left to append. |
| `MemoryQueue.RobbedAppenderCrashes` | jobs/inmemory.go:52-74 | And then it ends the program when it has appended its last job. |
| `MemoryQueue.UnvaluedJobFuncCrashes` | jobs/inmemory.go:95-181 | For every job type, except the empty one that is refused: a run of one registration, one job and one worker that ends the program. |
| `MemoryQueue.CronAppendsLikeEnqueueIff` | jobs/inmemory.go:52-93 | Of the accepted jobs, the cron appends what Enqueue appends exactly if the job is no slice. |
| `MemoryQueue.JobCanRunIff` | jobs/inmemory.go:76-107 | An accepted job, slice or not, is run as it is in some run exactly if its own job type is not empty and a JobFunc of it may be registered. |
| `MemoryQueue.UnservedTypeIsNeverRun` | jobs/inmemory.go:146-161 | In every run without a JobFunc of a type, all jobs of the type wait or are dropped. |
| `MemoryQueue.AcceptedIff` | jobs/postgres.go:392-429 | Enqueue and Schedule accept exactly a struct, or a slice of at least one struct and of nothing else; Enqueue appends exactly these structs. |
| `MemoryQueue.ScheduledSliceIsDroppedExample` | jobs/inmemory.go:76-93 | A concrete slice that Schedule accepts: enqueued, its element is handed out; from the cron, it is dropped. |
| `MemoryQueue.AppendingThreadAppendsAll` | jobs/inmemory.go:52-74 | A thread with the mutex appends all its jobs next to each other and frees the mutex. |
| `MemoryQueue.Queue.Enqueue` | jobs/inmemory.go:52-74 | A rejected job changes nothing; an accepted one appends itself or its elements at the tail. |
| `MemoryQueue.Queue.Schedule` | jobs/inmemory.go:76-93 | Accepts exactly what Enqueue accepts if the spec parses; then the job waits in the cron, and the queue is unchanged. |
| `MemoryQueue.Queue.RunScheduled` | jobs/inmemory.go:82-87 | The cron appends the scheduled value as one job, which is what Enqueue would append exactly if it is no slice. |
| `MemoryQueue.Queue.RegisterJobFunc` | jobs/inmemory.go:95-107 | An empty job type is refused; else the last registration of a type is the one in force. |
| `MemoryQueue.Queue.TakeFirst` | jobs/inmemory.go:146-164 | The first job leaves the queue, and is handed out exactly if its type has a JobFunc. |
| `MemoryQueue.Queue.PutBackFailed` | jobs/inmemory.go:173-180 | A failed job is appended again at the tail. |
| `MemoryRepository.RollbackRestoresIff` | arepo/inmemory.repository.go:178-605 | For each of the operations: the rollback after a failed store restores the map exactly under a condition on the arguments. |
| `MemoryRepository.SaveAllRestoresIff` | arepo/inmemory.repository.go:464-491 | A failed SaveAll is undone exactly if all IDs were stored and a repeated ID repeats what was stored. |
| `MemoryRepository.DeleteByIDsRestoresIff` | arepo/inmemory.repository.go:561-582 | A failed DeleteByIDs is undone exactly if the IDs are stored and different. |
| `MemoryRepository.StepStaysInSyncIff` | arepo/inmemory.repository.go:444-529 | After one call the map equals the store's content unless the store failed outside the rollback's condition. |
| `MemoryRepository.RunStaysInSyncIff` | arepo/inmemory.repository.go:444-605 | Over every run the map equals the store's content at all times exactly if every failing store met the condition. |
| `MemoryRepository.RunKeepsKeysAndReloads` | arepo/inmemory.repository.go:86-93 | Then every key is its entity's ID, none is the zero ID, and loading the store gives the live map. |
| `MemoryRepository.ApplyKeepsKeys` | arepo/inmemory.repository.go:444-529 | Every accepted operation keeps each entity under its own non-zero ID. |
| `MemoryRepository.SuccessfulCallIsLookedUp` | arepo/inmemory.repository.go:178-605 | After every successful call, what a lookup of any ID finds in the map and in the store: the entity written last under the ID, nothing if it was deleted, and else what was there. |
| `MemoryRepository.AnswersIff` | arepo/inmemory.repository.go:178-605 | For every call, exactly when it is refused and when the store decides; a refused call changes nothing. |
| `MemoryRepository.FailedCallIsLookedUp` | arepo/inmemory.repository.go:178-605 | What a lookup finds after a call whose store failed: what was there, but for the IDs that the inexact rollbacks of Save, Delete and AddAll leave wrong. |
| `MemoryRepository.SelectedCount` | arepo/inmemory.repository.go:339-358 | Counting the matches of map and list: as many as the list is long exactly if every listed ID is stored, and then they are what FindByID gives over the list. |
| `MemoryRepository.MemoryRepository.AllByIDs` | arepo/inmemory.repository.go:339-358 | For any map, also one that a rollback left with entities under keys that are not their IDs: each entity is found as often as its ID is listed, once for every key it is under, and the call succeeds exactly if that gives as many as are listed. With each entity under its own ID it succeeds exactly if every listed ID is stored, repeats allowed. |
| `MemoryRepository.MemoryRepository.ExistAll` | arepo/inmemory.repository.go:407-422 | Holds exactly for a non-empty list of stored IDs. |
| `MemoryRepository.MemoryRepository.Create` | arepo/inmemory.repository.go:178-200 | A zero or known ID is refused and changes nothing; a failing store removes the new entity again. |
| `MemoryRepository.MemoryRepository.Update` | arepo/inmemory.repository.go:206-229 | An unknown ID is refused; a failing store puts the old entity back. |
| `MemoryRepository.MemoryRepository.Delete` | arepo/inmemory.repository.go:231-247 | The entity's ID is gone afterwards, unless the store fails: then the old value is put back, a zero entity if there was none. |
| `MemoryRepository.MemoryRepository.Save` | arepo/inmemory.repository.go:444-462 | The entity is stored under its ID; a failing store deletes the ID, whether it was stored before or not. |
| `MemoryRepository.MemoryRepository.SaveAll` | arepo/inmemory.repository.go:464-491 | Refused as a whole for any zero ID; the loop stores the entities in order, and after a failing store a second loop puts the replaced values back under their own IDs. |
| `MemoryRepository.MemoryRepository.UpdateAll` | arepo/inmemory.repository.go:493-529 | An unknown ID is refused before anything changes; after a failing store the loop puts the old entities back. |
| `MemoryRepository.MemoryRepository.AddAll` | arepo/inmemory.repository.go:535-544 | Any known ID refuses the whole list; else SaveAll decides, with its rollback. |
| `MemoryRepository.MemoryRepository.DeleteByIDs` | arepo/inmemory.repository.go:561-582 | All listed IDs are gone; after a failing store the removed values are put back under their own IDs. |
| `MemoryRepository.MemoryRepository.DeleteAll` | arepo/inmemory.repository.go:584-605 | The map is empty afterwards, or unchanged if the store fails; where keys are not the IDs, a failing store leaves each entity under its ID. |
| `PostgresIterator.CallerSeesPrefix` | arepo/postgres.repository.go:708-797 | In every interleaving the caller has seen a prefix of the cursor's rows; CLOSE and Commit come only after the producer is done; quitting never blocks, and every quit signal waits until the producer has taken one. |
| `PostgresIterator.RunConserves` | arepo/postgres.repository.go:708-797 | At every step: rows yielded, dropped, held, in the channel, still to send and unfetched are together the cursor's rows, in order. |
| `PostgresIterator.FullIteration` | arepo/postgres.repository.go:708-797 | Undisturbed, every schedule is finite and can go on until the consumer returns, having seen each row exactly once, in order, without error, and having committed the transaction, even the caller's own. |
| `PostgresIterator.ExhaustedWithoutFetchErrorIsComplete` | arepo/postgres.repository.go:708-797 | An iteration that ends normally has yielded all rows unless a fetch failed; if no error was reported, unless rows did not fit the entity. |
| `PostgresIterator.FetchErrorIsReportedIff` | arepo/postgres.repository.go:743-796 | A full iteration is told about a failed fetch exactly if the database refused it, or rows were in the channel or in the consumer's hand at that time. |
| `PostgresIterator.ErrorsAfterFailedFetch` | arepo/postgres.repository.go:743-796 | After a failed fetch a consumer that goes on meets exactly one error for each row in the channel or in its hand, and two more, of CLOSE and Commit, if the transaction is aborted. |
| `PostgresIterator.CalledAfterStopIff` | arepo/postgres.repository.go:761-796 | Over all runs: the function that gets the rows is called again after it returned false exactly if it returned false at the error of CLOSE and Commit was sent. |
| `PostgresIterator.SilentTruncation` | arepo/postgres.repository.go:743-796 | Whatever the rows: if the first batch does not fit the entity, the iteration ends normally without rows and without error. |
| `PostgresIterator.ProducerEndsIffRowsFit` | arepo/postgres.repository.go:725-759 | After an early stop or a cancellation, if no fetch fails that need not fail, as it must in a done context: the producer can end exactly if what it is bound to send fits the channel. |
| `PostgresIterator.BlockedForGoodIff` | arepo/postgres.repository.go:725-759 | Then, whatever happens later, failing fetches and a done context included, the producer never ends exactly if it is sending more rows than the channel has room for. |
| `PostgresIterator.TransactionStaysOpenIff` | arepo/postgres.repository.go:761-796 | Over all runs: Commit comes only with the channel drained; once the loop has ended, the transaction is open at all later times exactly after an early stop or a cancellation, unless it is the caller's own and the caller ends it. |
| `PostgresIterator.NoRowAfterCancel` | arepo/postgres.repository.go:766-784 | Over every run: once the context is done the caller sees no further row, and an error for each one that is dropped. |
| `PostgresIterator.CancelledExample` | arepo/postgres.repository.go:766-784 | For any rows, a run in which the first row is lost to a done context, with one error. |
| `PostgresIterator.EarlyStopCanLeakIffTwoMoreThanCapacity` | arepo/postgres.repository.go:725-784 | An early stop can block the producer for good exactly for cursors of at least 1002 rows, two more than the channel holds. |
| `ColumnFlattening.ColumnsAndValues` | arepo/postgres.repository.go:938-1020 | The recursive loop returns the flattening, nil and set pointers included. |
| `ColumnFlattening.FlattenIsPerLeaf` | arepo/postgres.repository.go:938-1020 | Without pointers, the pairs are exactly the exported leaves in order, each with its own dotted path as name and its own value. |
| `ColumnFlattening.RenamingTaggedFieldKeepsRows` | arepo/postgres.repository.go:938-1014 | Renaming a field that has a tag changes neither columns nor values of any entity. |
| `ColumnFlattening.ScalarColumn` | arepo/postgres.repository.go:938-1014 | *Supporting.* A scalar field is one column, called by its tag, or without one by the column mapper. |
| `ColumnFlattening.FlattenFollowsPointers` | arepo/postgres.repository.go:938-962 | *Supporting.* An entity behind pointers is flattened like the entity itself, and nil gives nothing. |
| `ColumnFlattening.NamesAndValuesAreAligned` | arepo/postgres.repository.go:910-931 | The names of the zero value fit the values of any entity, position by position. |
| `ColumnFlattening.SameNameIffSameLabels` | arepo/postgres.repository.go:1022-1028 | With dot-free columns two leaves have the same name exactly if they have the same columns along their paths. |
| `ColumnFlattening.DistinctSiblingsGiveDistinctNames` | arepo/postgres.repository.go:938-1028 | If no two siblings, inlined structs counted in, share a column, all names are pairwise different. |
| `ColumnFlattening.QuotedIsInjective` | arepo/postgres.repository.go:905-907 | Quoting keeps different columns different. |
| `ColumnFlattening.Update` | arepo/postgres.repository.go:195-222 | After an update by position the row holds every exported leaf in its own column; other columns stay. |
| `ColumnFlattening.RowDeterminesExportedLeaves` | arepo/postgres.repository.go:169-222 | A row determines all exported leaves of the entity written to it. |
| `ColumnFlattening.ColumnsFitIffNoPointerIsSet` | arepo/postgres.repository.go:970-984 | With pointers to scalars, the zero value's columns fit an entity, in names and in number, exactly if it sets none of them. |
| `ColumnFlattening.SetPointersShorten` | arepo/postgres.repository.go:970-984 | Every pointer that is set takes one entry away. |
| `ColumnFlattening.PointerFieldIsNamedTwice` | arepo/postgres.repository.go:970-984 | In the zero value's columns a pointer field is named twice in a row. |
| `Query.MatchEntity` | arepo/inmemory.repository.go:268-300 | The counter says whether all conditions hold, or the first condition with a problem decides the error. |
| `Query.AllBy` | arepo/inmemory.repository.go:262-303 | Selects each matching entity exactly once; reports a wrong query exactly if there is an entity to hold it against. |
| `Query.FirstErrorIs` | arepo/inmemory.repository.go:262-303 | A query is refused exactly if a condition is wrong, for the first one, and for a missing value before an unknown field before a value of another kind. |
| `Query.MatchesIff` | arepo/inmemory.repository.go:262-303 | An entity is selected exactly if for every condition the field it names has its value. |
| `Query.QuotedIff` | arepo/inmemory.repository.go:308-312 | *Supporting.* A quoted name is a text between two quotes, or a single quote, which is both. |
| `QueryTranslation.BuildFilteredSQL` | arepo/postgres.repository.go:654-690 | One equality per condition and one OR per group, in order; refused exactly for a nil value that is looked at; without plain conditions the groups are not. |
| `QueryTranslation.QueryKeepsMeaning` | arepo/postgres.repository.go:654-690 | For conditions about the same field on both sides the memory repository's counter and the WHERE select the same entities. |
| `QueryTranslation.GroupedQueryAgreesIff` | arepo/postgres.repository.go:672-689 | With Or groups the repositories differ on an entity exactly if it meets the plain conditions, there is one, and it fails a group. |
| `QueryTranslation.ConditionKeepsMeaningIff` | arepo/postgres.repository.go:664-669 | A name that both sides resolve, with any value of the field's kind, selects the same for all entities exactly if it is the same field and the value has the field's own type. |
| `QueryTranslation.UnquotedMeansTheSameIff` | arepo/inmemory.repository.go:305-337 | An unquoted name is one field on both sides exactly if it spells its column in any case and no earlier field's Go name is the same. |
| `QueryTranslation.QuotedMeansTheSameIff` | arepo/postgres.repository.go:894-903 | A quoted name is one field on both sides exactly if it is its Go name and its column is that in lower case, as SQL folds it. |
| `QueryTranslation.FilterKeepsMeaningIff` | arepo/q/query.go:136-159 | A filter selects the same in both repositories exactly if no name it uses is taken by an earlier field. |
| `QueryTranslation.FilterWhereAgrees` | arepo/q/query.go:136-159 | The WHERE of a filter selects exactly the entities that agree with it on all its non-zero fields. |
| `Query.Filter` | arepo/q/query.go:136-159 | The loop makes the conditions of the fields that are not zero. |
| `Query.FilterSelectsAgreeing` | arepo/q/query.go:136-159 | A filter is valid and selects exactly the entities that agree with it on all its non-zero fields. |
| `Query.FindsItselfIff` | arepo/inmemory.repository.go:308-337 | A field is found by the name a filter gives it exactly if its column is in lower case, or its name's lower case, and no earlier field takes that name. |
| `Query.DottedTagIsNeverFound` | arepo/q/query.go:161-174 | A tag with a dot becomes a quoted name that resolves to no field. |
| `Query.BranchesAreIndependentIff` | arepo/q/query.go:46-71 | Of two queries built from one base the first keeps its condition exactly if the base's array had no room, or both add the same. |
| `Query.BranchesOfChainAreIndependentIff` | arepo/q/query.go:46-71 | For a base built by a chain of conditions: exactly if the chain fills its doubled arrays, or both add the same. |
| `Query.FourthConditionIsOverwritten` | arepo/q/query.go:65-71 | After three chained conditions the second of two different continuations overwrites the first. |
| `TemplateNames.RoundTrip` | renderer/renderer.go:520-594 | For every accepted name, printing the parsed record and parsing again gives the same record. |
| `TemplateNames.ParseOfPrint` | renderer/renderer.go:520-594 | Every well-formed record is the parse of its printed name. |
| `TemplateNames.ShortNameIsPadded` | renderer/renderer.go:530-560 | A name of one or two segments means what it means with a separator in front, so that with `ParseOfPrint` the meaning of all names is fixed. |
| `TemplateNames.ComponentIff` | renderer/renderer.go:530-580 | An accepted name is a component exactly if it begins with the fragment mark; it has at most three segments, the last one with at most one fragment. |
| `TemplateNames.ParsedIsWellFormed` | renderer/renderer.go:520-594 | Accepted parts are trimmed and free of separators; an accepted component has only its non-empty fragment. |
| `TemplateNames.FinalCheckOnlyMeetsFragmentInLayout` | renderer/renderer.go:578-583 | The final check rejects a name exactly if a layout segment holds "#". |
| `Renderer.CacheAgreesWithFreshBuild` | renderer/renderer.go:138-183 | In every run of requests, stores, executions, reloads and added contexts, what is served is what a renderer that never rendered would build. |
| `Renderer.OwnPageIsServed` | renderer/renderer.go:138-337 | Over every tame run, whatever is cached: changing one page of one context changes what is served for that page there, to the new text, and nothing that is served for any other request. |
| `Renderer.BuiltIs` | renderer/renderer.go:258-337 | Said of the views: a page is the context's own, else the shared one of that name; its root is the shared base, its layout the context's, below admin overlaid by admin's unless that is blank; a component is its context's. |
| `Renderer.BuildFailsIff` | renderer/renderer.go:258-337 | Exactly when a request fails for its context, its component, its layouts or its page. |
| `Renderer.InvalidNameIff` | renderer/renderer.go:138-160 | *Supporting.* A request is refused for its name exactly if the name does not parse. |
| `Renderer.LayoutsAre` | renderer/renderer.go:230-256 | A layout that is named wins over the default of the context, a base over the shared default; a shared page takes its layout as the base. |
| `Renderer.ContextIs` | renderer/renderer.go:216-228 | A context is what the path says, and below "admin/", with or without a slash in front, what follows. |
| `Renderer.AddedContextIs` | renderer/renderer.go:596-634 | A new context has its own files, with the shared components where it has none of the name; nothing else changes. |
| `Renderer.KeyIsInjective` | renderer/renderer.go:497-510 | Two requests share a key exactly if they agree on what the build reads; a component never has a page's key. |
| `Renderer.StepKeepsInv` | renderer/renderer.go:138-183 | Every step keeps the views equal to the configured ones up to aliases, and every cached template true to its request. |
| `Renderer.BuildAgrees` | renderer/renderer.go:258-337 | The aliases that earlier builds left never change a build. |
| `Renderer.ResolvedIsTame` | renderer/renderer.go:230-256 | Layout resolution gives the same on live and configured views, and keeps the separators out of the layouts. |
| `Renderer.MixedUseAgreesIff` | renderer/renderer.go:286-317 | Plain and admin requests of a page share a key, and their builds agree exactly if the page has no layouts, or the admin context has that base and a layout that is blank or repeats the context's. |
| `Renderer.MixedUseExample` | renderer/renderer.go:138-183 | A concrete run that serves a shop page with admin's layout, where a new renderer gives the shop's. |
| `Renderer.LocalisedRequestPanicsIff` | renderer/renderer.go:162-203 | Over every run: a localised request of a cached template panics exactly if that very template was executed before by a request without a language. |
| `Renderer.Renderer.Render` | renderer/renderer.go:138-183 | Serves the cached or newly built template, and its exact effect on cache and views, with and without hot reload; panics exactly for a localised request of a template that was executed. |
| `Renderer.Renderer.BuildPageTemplate` | renderer/renderer.go:258-337 | The imperative build returns the template of the specification and adds exactly the alias of a built component. |
| `Renderer.Renderer.AddContext` | renderer/renderer.go:596-634 | Refused without a name, without files, for a known name and if loading fails; else the context's components are laid over the shared ones. |
| `SettingValues.ReadReturnsIffFits` | setting/settings.go:301-550 | Whatever width an integer was saved from, the reader of another width returns it exactly if it fits, despite the boolean check before. |
| `SettingValues.WidthsAre` | setting/settings.go:301-550 | *Supporting.* The widths are those of Go's integer types. |
| `SettingValues.BooleanIffZeroOrOne` | setting/settings.go:279-290 | Of all printed integers only 0 and 1 are taken for booleans. |
| `SettingValues.StringIsDecimal` | setting/settings.go:234-255 | String returns the decimal text that was saved, for signed and unsigned values. |
| `SettingValues.StringKeepsTheNumber` | setting/settings.go:234-255 | Any text that is an integer, as "+7" or "007", reads the same after String has normalised it. |
| `SettingValues.ParseOfFormat` | setting/settings.go:82-161 | Parsing a printed integer gives it back exactly within the bounds of the parser. |
| `Settings.StoresAreEquivalent` | setting/postgres.settings.go:32-129 | Over every run the two stores hold the same raw texts, and their answers differ exactly at an empty Register or at repeated keys that all exist. |
| `Settings.StepsAgree` | setting/inmemory.settings.go:21-72 | One operation on related stores: they stay related, with the same answer exactly if the operation is agreeable. |
| `Settings.CompleteByCountIff` | setting/postgres.settings.go:107-119 | The length check says "all found" exactly if all keys exist and none is listed twice. |
| `Settings.RawSurvives` | setting/settings.go:61-211 | The raw text of every value that can be saved is its own raw text when it is read back, times and composites included. |
| `Settings.SavedValueReadsBack` | setting/settings.go:61-211 | What was saved is what is read, from memory and from the raw text in the database: integers at every width they fit, booleans, and texts that are no times. |
| `Settings.KeySurvivesIff` | setting/postgres.settings.go:107-112 | The key rebuilt from a row is the row's key exactly if it has three parts and none is empty. |
| `Settings.PartsOfNewKey` | setting/settings.go:40-56 | Splitting a key made of dot-free parts gives these parts, with "MISSING" for the empty ones. |
| `Settings.InMemorySettings.Register` | setting/inmemory.settings.go:21-29 | The loop adds the defaults of missing keys and leaves existing settings alone. |
| `Settings.InMemorySettings.Save` | setting/inmemory.settings.go:31-37 | The key holds the new value, all others what they held. |
| `Settings.InMemorySettings.Settings` | setting/inmemory.settings.go:48-68 | Returns exactly the settings of the known keys, and whether a key is missing. |
| `Settings.PostgresSettings.Register` | setting/postgres.settings.go:32-64 | One insert of all values that keeps existing rows; fails exactly for no settings. |
| `Settings.PostgresSettings.Setting` | setting/postgres.settings.go:87-94 | The value of the row's text, or not found exactly if there is no row. |
| `Settings.PostgresSettings.Settings` | setting/postgres.settings.go:96-120 | Files each found row under the key made of its parts; for plain keys exactly the found settings, with the length check as error. |
| `UserPaging.WalkListsEveryUserOnce` | contexts/auth/internal/interfaces/repository/user.inmemory.repository.go:27-64 | Asking page after page from the last login ends, and has listed every user exactly once in the order of the logins. |
| `UserPaging.PagesAgreeIff` | contexts/auth/internal/interfaces/repository/models/query.sql.go:53-61 | With a positive limit the page equals the SQL page exactly if the offset is empty, is a login, or has no login behind it. |
| `UserPaging.NextOffset` | contexts/auth/internal/interfaces/repository/user.inmemory.repository.go:38-64 | What lies behind an offset is the page followed by what lies behind the page's last login. |
| `UserPaging.AfterSelects` | contexts/auth/internal/interfaces/repository/models/query.sql.go:53-61 | What lies behind an offset are exactly the users with a greater login. |
| `UserPaging.PageIsFull` | contexts/auth/internal/interfaces/repository/user.inmemory.repository.go:38-64 | A page has as many users as the limit allows and as lie behind the offset. |
| `UserPaging.LessIff` | contexts/auth/internal/interfaces/repository/user.inmemory.repository.go:27-37 | *Supporting.* Logins are ordered by the first place where they differ. |
| `UserPaging.UserRepository.All` | contexts/auth/internal/interfaces/repository/user.inmemory.repository.go:27-64 | For any users: the page of a sorted list of the map's values, with limit 0 as no limit; with unique, non-empty logins it is the page of the one sorted list. |
| `UserPaging.UserRepository.PageOf` | contexts/auth/internal/interfaces/repository/user.inmemory.repository.go:38-64 | For any list: the loop with its found flag and its wrapping unsigned limit returns what lies behind the offset, without users of that login, up to the limit. |
| `UserPaging.ListPageIsMemoryPage` | contexts/auth/internal/interfaces/repository/user.inmemory.repository.go:38-64 | On a sorted list of unique, non-empty logins this is the page that the walk and the SQL comparison are about. |
| `UserNames.NewNameIsIdempotent` | contexts/auth/internal/domain/user.business.go:199-221 | Making a name of a name's own parts gives the same name, derived display names included. |
| `UserNames.NewNamePanicsIff` | contexts/auth/internal/domain/user.business.go:199-236 | NewName panics exactly if a non-empty part is blank or has two spaces in a row between words. |
| `UserNames.ToTitleGivesTitle` | contexts/auth/internal/domain/user.business.go:223-236 | The result is trimmed and every word of it begins in title case. |
| `UserNames.ToTitleRaisesInitials` | contexts/auth/internal/domain/user.business.go:223-236 | The result is the trimmed text letter by letter, with title case exactly where a word begins. |
| `UserNames.NameIs` | contexts/auth/internal/domain/user.business.go:199-221 | What each part of a name is made of; without a display name it is the first name, a space and the last name, or the one that there is. |
| `UserNames.TitleWords` | contexts/auth/internal/domain/user.business.go:223-236 | The loop computes the titled text, and fails where the program indexes an empty word. |
| `UserNames.StoredUserSurvives` | contexts/auth/internal/interfaces/repository/mapping.go:41-83 | Identity, login, hash, name and the truth of the three flags survive userToModel and userFromModelWithSession. |
| `UserNames.LoadedUserIsStableIff` | contexts/auth/internal/interfaces/repository/mapping.go:104-158 | Storing a loaded user again and loading it changes nothing, times included, exactly if no flag column holds the zero instant. |
| `UserAccounts.VerifiedOnlyWithOwnValidToken` | contexts/auth/internal/domain/verify-user.business.go:41-113 | Over every run: logins are unique, a verified user presented a token issued to it before, no later than its expiry, and nobody was let in without. |
| `UserAccounts.IssuedTokenVerifiesIff` | contexts/auth/internal/domain/verify-user.business.go:73-113 | Whatever runs in between, presenting an issued token answers well exactly for the user it was issued to and until a week later, and then, and only then, makes a user verified who was not; nothing else of that user changes, and no other user. |
| `UserAccounts.VerifiedInTimeIsLetIn` | contexts/auth/internal/domain/authenticate-user.business.go:18-37 | From the token to the login: a user that is not blocked and presents its token in time is let in by a login with the right password, and has the new session. |
| `UserAccounts.SavesIff` | contexts/auth/internal/domain/register-user.business.go:29-58 | Exactly when each use case saves what it is for, and exactly when it then also answers well. |
| `UserAccounts.NewUserIs` | contexts/auth/internal/application/new-user.usecase.go:43-61 | A new user has its own login and hash, is neither verified nor blocked, is a superuser exactly if an administrator made it one, and has one session exactly if it registered itself. |
| `UserAccounts.SavedUseCaseLeaves` | contexts/auth/internal/application/block-user.usecase.go:36-57 | What every other use case leaves behind: the token, the flag with its time, the session or the setting, and nothing else. |
| `UserAccounts.OthersLeaveNothing` | contexts/auth/internal/application/login-user.usecase.go:66-120 | A use case that has not saved leaves users, tokens and settings alone. |
| `UserAccounts.RefusedFor` | contexts/auth/internal/domain/register-user.business.go:29-58 | Which error a use case answers with: that of the first check that fails. |
| `UserAccounts.StepKeepsInv` | contexts/auth/internal/application/register-user.usecase.go:59-105 | Every use case keeps unique logins, tokens that were issued, and proofs behind each verified user and each authentication. |
| `UserAccounts.BlockedUserStaysOut` | contexts/auth/internal/application/block-user.usecase.go:36-57 | In every run in which nobody unblocks it, a blocked user is not let in. |
| `UserAccounts.UserStays` | contexts/auth/internal/domain/user.business.go:101-121 | A stored user stays, with its login, verified once it is, and blocked until it is unblocked. |
| `UserAccounts.UserApplication.RegisterUser` | contexts/auth/internal/application/register-user.usecase.go:59-105 | A stored user has one session and is neither verified, blocked nor superuser; refusals, a failing lookup of the login among them, change nothing, failures after the save leave the user stored. |
| `UserAccounts.UserApplication.AddUser` | contexts/auth/internal/application/new-user.usecase.go:43-61 | The same checks, failing lookup included, for users made by an administrator, who may be superusers; no session. |
| `UserAccounts.UserApplication.SendVerificationEmail` | contexts/auth/internal/application/send-new-user-verification-email.usecase.go:41-65 | A token for this very user, valid for a week, is stored. |
| `UserAccounts.UserApplication.VerifyUser` | contexts/auth/internal/domain/verify-user.business.go:90-113 | State and answer on every branch: unknown token, another user's token, an expired one, a failed save. |
| `UserAccounts.UserApplication.BlockUser` | contexts/auth/internal/application/block-user.usecase.go:36-57 | Blocking keeps the time of an earlier block; unblocking clears it. |
| `UserAccounts.UserApplication.LoginUser` | contexts/auth/internal/application/login-user.usecase.go:66-120 | State and answer on every branch, including the failures after the session was saved. |
| `Strings.SplitOfJoin` | renderer/renderer.go:530-530 | Splitting a joined list gives the list back if no element holds the separator. |
| `Strings.TrimSpaceLaws` | renderer/renderer.go:545-558 | Trimming gives a part without surrounding white space and leaves such a text alone. |
| `Strings.TrimSpaceTakesSpace` | renderer/renderer.go:545-558 | *Supporting.* Trimming takes away nothing but white space. |
| `UserAccounts.LetInIff` | contexts/auth/internal/domain/authenticate-user.business.go:18-37 | *Supporting.* A login attempt is let in exactly for a verified, unblocked user with a matching password while login is enabled. |
| `UserAccounts.RegisteredIff` | contexts/auth/internal/domain/register-user.business.go:29-58 | *Supporting.* A registration stores a user exactly if it is enabled, the login can be looked up, is free and acceptable, and saving works. |
| `UserAccounts.LateFailureTakesTheLogin` | contexts/auth/internal/application/register-user.usecase.go:59-105 | *Supporting.* A registration that fails after saving leaves the login taken, so repeating it is refused. |
| `Renderer.BuildIsMonotone` | renderer/renderer.go:596-634 | *Supporting.* Adding a context never changes a build that succeeded before. |
| `Renderer.RenderIsRequestAndStore` | renderer/renderer.go:138-183 | *Supporting.* A call of Render on its own is a request followed by a store. |
| `Renderer.AliasBecomesComponent` | renderer/renderer.go:262-279 | *Supporting.* Rendering a component makes its key a component of its context, which it was not before. |
| `SettingValues.WiderReadersAgree` | setting/settings.go:301-550 | *Supporting.* On any text, a wider reader of the same signedness returns what a narrower one returns. |
| `PostgresJobs.StepRegistersFirst` | jobs/postgres.go:431-451 | *Supporting.* A step adds a job type exactly if it is a registration of it whose callback runs; a known type is never replaced. |
| `SettingValues.BoolsReadBack` | setting/settings.go:279-316 | *Supporting.* Booleans read back as booleans, and as 1 and 0 at every width. |
| `UserNames.FlagSurvivesIff` | contexts/auth/internal/interfaces/repository/mapping.go:104-118 | *Supporting.* A flag keeps its truth exactly unless it is the zero instant outside UTC; its time is cut to microseconds. |
| `Renderer.MixedUseIsServed` | renderer/renderer.go:138-183 | *Supporting.* Once a page was stored below admin, the plain request is served admin's build. |
| `MemoryQueue.HandedOutIff` | jobs/inmemory.go:146-164 | *Supporting.* A taken job is handed out exactly if a JobFunc of its type is registered at that time, and dropped otherwise. |
| `MemoryQueue.FreeMutexCrashesIff` | jobs/inmemory.go:146-148 | *Supporting.* Such a return ends the program at once exactly if nobody is inside. |

## Left out

- gue, gueron, pgx, squirrel and html/template: only what the code relies on is assumed, as the order of the hooks, savepoints that restore, equality in WHERE, and templates as the texts they are built from.
- `scheduler.Run` adds its refresh job to the work map on success and leaves the map alone on failure; other effects of it are not part of this model.
- The handler's life probe `continuouslyRegisterInstance`.
- Two attempts of different jobs in concurrent transactions: each attempt is one step of a run, which is what a committed transaction looks like to the others.
- Panicking JobFuncs, in both queues; deliberate cancellation of a running JobFunc.
- The iterator is a state machine over its steps and has no imperative form, as Dafny has neither goroutines nor channels; failures of BEGIN and DECLARE are not part of it, and CLOSE and Commit fail here only in a transaction that a FETCH or the caller has ended, or with a done context.
- `PostgresIterator.TransactionStaysOpenIff`: a caller's transaction may be a savepoint of another one; and other statements of the caller in it while the goroutine fetches are not part of this model.
- `PostgresJobs.PostgresJobsHandler.Schedule`: a nil job makes the source panic, and is refused here like any job that is no struct.
- `nextSingleValue`, an unused second form of the iterator.
- `MemoryRepository.MemoryRepository.AddAll`: the check for existing IDs and the save are separate critical sections in the source and one here; what a save does whose IDs were added in between is `SaveAll`, which the run theorems cover.
- JSONStore: it truncates before it writes; the store here takes the whole map or keeps what it has.
- The generation of IDs by `NextID` and the tenant repository, which repeats this core.
- `QueryTranslation.BuildFilteredSQL`: a text that names no column is an SQL error and here selects nothing; names that are SQL keywords.
- Values of types that cannot be compared, and unexported fields, at which `Filter` and `AllBy` panic; `ToLower` is modelled for ASCII.
- Embedded fields that FieldByName would find through promotion.
- `ColumnFlattening.ColumnsFitIffNoPointerIsSet`: pointers to structs are modelled by the flattening, but have no such law, as a nil one can by chance have the names of its struct.
- `ColumnFlattening.DistinctSiblingsGiveDistinctNames`: one direction only, as siblings may share a column when they are structs without a common leaf; `SameNameIffSameLabels` is the exact law.
- `Renderer.Renderer.Render`: the lookup of a page's fragment in the finished template, the merged data and what the execution writes; whether a call gets as far as the execution is a parameter.
- `getParsedTemplate` of the renderer reads the views without the mutex that `AddContext` holds; here reading the views and building is one step.
- `Renderer.Renderer.BuildPageTemplate`: parse errors of template texts; a layout of nothing but comments or definitions, which html/template takes for blank as well; `NilComponents` stands for the nil-pointer panic of the source for an unknown context.
- `Query.BranchesOfChainAreIndependentIff`: Go doubles the capacity of a slice up to 256 elements; longer chains grow more slowly.
- A memory queue JobFunc for one unnamed type that is called with a job of another: it panics.
- `Renderer.CacheAgreesWithFreshBuild`: asks that context names, fragments and layouts keep the separators out and that each context is used either plainly or below admin; `MixedUseAgreesIff` and `AliasBecomesComponent` show what happens otherwise.
- Float, JSON and time settings beyond their raw text, `Unmarshal`, and the time parser, of which only the shape of what it takes is assumed.
- `Settings.PostgresSettings.Settings`: a found key with fewer than three parts is a panic in the source and a precondition here; failing database statements are left out of the comparison of the stores.
- `UserPaging.PagesAgreeIff`: limit 0 and limits beyond 32 bits, which the SQL takes differently, and the collation of the database: both sides compare logins as Go does.
- `UserNames.StoredUserSurvives`: birthdays, locales, profiles and sessions of a stored user, and bytes in names that are not valid UTF-8.
- Password rules, bcrypt, mail address syntax and IP resolution: their verdicts are part of the event.
- A setting whose text is no boolean makes `MustBool` panic; here it is a setting that cannot be loaded or a boolean.
- `UserAccounts.UserStays`: a verification at the zero instant would not set the flag; the clock is asked to be past it.
- Two use cases at the same time: runs are sequential, so the gap between checking a login and saving it is not part of this model.
- HTTP controllers, sessions and cookies, the command line, code generation, logging, tracing, metrics and the pages.
