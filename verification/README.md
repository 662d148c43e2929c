# Verified model of the access control and reporting system

Employees swipe at gates. The Access API decides each swipe against the employee's stored
state, buffers the event once in a Redis stream and queues it for Kafka. Two consumers, one
reading Kafka and one reading the stream, save the events into one database, from which the
reporting API and the report page in the browser compute attendance, roll-ups and anomaly
lists. This project models that path in Dafny and proves what it promises.

`dafny verify dfyconfig.toml` checks the whole project.

## How the model is laid out

**The swipe-event pipeline.** `AntiPassback` holds the decision script and histories of swipes,
resets and expiries. `Events` holds the stream behind its dedupe keys and the saving
transaction. `Pipeline` is one transition system for everything that happens to an event:
swipes, appends, Kafka messages, deliveries, marker lookups, saves, commits of offsets,
acknowledgements, crashes, failures, expiries and stream trimming. Every Redis script, Kafka call,
and database read or commit is one step, and all parties' steps interleave freely. A save reads the
employee and the default department in one step and commits in a later one; the commit writes only
the columns that differ from what was read, and is refused if the row, or an employee or default
department it would insert, is there by then. A call may be carried out and still fail for its
caller: a decision whose reply is lost, an append, a commit, an acknowledgement. An event too long
for its columns, or with U+0000 in an id, can never be saved.
`Produce` may put any issued event into the topic at any time and any number
of times, which covers whatever the queueing publisher delivers, loses or repeats.
`PipelineSafety` proves the inductive invariant, `PipelineGuarantees` what follows over every run;
`Races` has the two runs in which the consumers race for one employee. `Consumers`,
`RecoveryConsumer` and `KafkaConsumer` are the two consumers as objects with loops; each call of
theirs is a step of the pipeline, and between any two calls everybody else may take any steps, so
the guarantees hold of the loops as well. `AccessApi` is the Redis store, the stream publisher and
the swipe handler, the latter two over the same steps. `AsyncPublisher` is the queueing publisher as
a transition system, `PublisherLoops` its object and loops over those steps. `Simulator` plays the
load generator's normal profile against the decision script.

**Attendance.** `Attendance` says, without reference to any order, what an employee-day is.
`AttendanceFolds` has the server's one-pass minimum and maximum and the browser's group, sort and
pick; `AttendanceSummary` both ways of adding the days up to the report's figures;
`AttendanceCounts` says what the figures are of the rows alone, and `AttendanceReports` proves that
the two reports show these, and when they agree; `AttendanceFacts` has the conservation laws, the
main-gate report and the link back to the decision script. Times are integers, microseconds for the
server and cut down to milliseconds for the browser; hours are kept as differences of times, before
division and rounding; the local date of an event is a field. `Sums` holds the lemmas about sums.

**Departments.** `Hierarchy` has the parent pointers and the recursive query, `Departments` the
linked forest the serialiser builds and the preorder list with depths the picker scans,
`Rollups` the analytics rows, `Visibility` and `Snapshots` what users see and which stored
reports they share.

**Smaller pieces.** `Like` (the LIKE to regular expression translation), `ReportCache` (the
bounded cache), `Remarks` (anomaly ids and remark updates), `Text` (request ids, trimming).

## Where the code does not do what one might expect

- A swipe whose decision is carried out but whose reply is lost moves the stored state and leaves no
  event. The laws of the decision history hold between an employee's consecutive events exactly when an
  even number of grants was lost between them (`PipelineGuarantees.LawsAcrossLostReplies`,
  `LostReplyShows`).
- An employee's last known state is not always that of the last inserted row. When both consumers have
  read the employee, the one that commits last writes no state if its event's is the one it had read,
  and what the other has written stays (`Races.StaleSaveShows`). It is the last row's state exactly when that row's save
  told something else than it had read, or what it had read was still so
  (`PipelineGuarantees.StateFollowsExactly`; likewise the last seen time).
- The recovery consumer does not converge by itself once calls stop failing: an entry whose save failed
  while new entries were read stays pending until the next restart drains it
  (`RecoveryConsumer.OneFailedSaveStays`). The same happens although nothing has failed: if neither
  consumer found the employee, or the default department, the second commit is refused on that key, and
  an entry refused so while new entries were read stays pending (`Races.OvertakenSaveStays`). What is
  missing from the table is then exactly what is pending, at most one entry for each call that failed and
  each save that was overtaken so, of which there are no more than new employees (and the default
  department); one more restart catches up, if no call fails and no new employee comes during it.
- An event too long for its columns, or with U+0000 in an id, can pass the swipe handler
  (`AccessApi.UnfitAccepted`, `UnfitIds`). It makes the Kafka consumer retry it for ever, in the way of its
  partition, and the drain loop never end (`PipelineGuarantees.UnfitStaysOpen`, `HopelessStaysPending`,
  `KafkaConsumer.Service.HandleWithRetry`, `RecoveryConsumer.Service.DrainPending`).
- An event is in the stream twice exactly when it was appended again after its dedupe key had expired
  (`PipelineGuarantees.StreamedOnceExactly`, `ExpiredKeyDuplicates`).
- Accepted events can be abandoned by the queueing publisher after Close, but only after an attempt that
  failed (`AsyncPublisher.GivenUpAfterClose`, `NoFailureAbandonsNothing`), and an event sent after the
  last worker has exited stays in the queue (`SentAfterDrain`). That can happen exactly when a producer
  stands between its check and its send as the publisher is closed (`StrandsExactly`).
- The browser counts rows without an employee, the server skips them, although the server's comment says
  it mirrors the browser exactly (`AttendanceReports.ReportsAgree`, `SwipeOfNobody`). The swipe handler
  refuses an empty employee id, and the column is not null; only a message from elsewhere with an empty
  id can make such a row. And the browser reads times in whole milliseconds: an IN and an OUT within one
  are a stay for the server and none for the browser (`FractionsDiffer`).
- A visible set with a hole in a chain of departments is counted in two rows
  (`Rollups.RowsDisjointExactly`), and when the only root's children are shown in its place the root's
  own employees are in no row (`Rollups.WhatIsCovered`).
- An empty department id asks for everything when it comes alone and for nothing when it comes in a list
  (`Visibility.ManyIsUnion`).
- The fallback that reads any stored report with the right target returns another user's narrower report
  whenever that user's scope leaves out a row of the requester's (`Snapshots.FallbackRightExactly`), and
  is right for no stored key on all data (`FallbackNeverRight`).
- An EMPLOYEE asking for the own department, if nothing lies below it, shares its key and is answered
  with the whole department's report (`Snapshots.EmployeeSharesOwnDepartment`, `SharersAgreeExactly`).
- The compiled pattern and LIKE agree for every pattern exactly on strings without a newline
  (`Like.MeaningKeptExactly`).
- A late arrival whose day has an earlier main-gate IN outside the listed window takes the remark of a
  different event (`Remarks.LateReadsBack`). A remark on an unpaired day is never shown there: with the
  IN missing it becomes the day's overtime note, with the OUT missing it goes to the late list's event
  exactly where the day has a single IN (`Remarks.UnpairedWritesElsewhere`).

## Model

| member | source | states |
|---|---|---|
| Text.RequestIdNamesEmployee | access-api/handlers.go:350-352 | a request id names its employee, whatever dashes the employee id has |
| Text.RequestIdCollision | access-api/handlers.go:350-352 | two swipes share a request id exactly when the same employee swipes in the same nanosecond |
| Text.PaddedInjective | access-api/cmd/swipe-simulator/main.go:619-621 | zero-padded numbers of different values differ, also beyond the padded width |
| Text.StripExactly | reporting-api/app/repositories.py:2529 | trimming and stripping yield a text if and only if it is the part between the white space at both ends |
| Text.UpperExactly | access-api/handlers.go:106-108 | the texts whose upper case is IN or OUT are exactly these words in either case, and one with a dotless i |
| AntiPassback.StoreMatchesLog | access-api/store.go:13-49 | after any history the stored state of every employee is the one the log last reports, and is IN or OUT |
| AntiPassback.WholeHistory | access-api/store.go:26-48 | in every history each decision starts from the state the one before left (UNKNOWN after a reset), grants alternate starting with IN, and a swipe is granted exactly when it moves the employee |
| AntiPassback.DecidedByLog | access-api/store.go:26-48 | in every history a swipe is granted exactly if the employee, going by the log before, was last seen outside or never and asks for IN, or inside and asks for OUT; it is told apart from a denial by its states and reason |
| AntiPassback.SwipeFrame | access-api/store.go:26-48 | a denied swipe changes nothing and no swipe touches another employee |
| AntiPassback.ChainedAcross | access-api/store.go:26-48 | whatever decisions between are left out of sight, a decision starts from the state an earlier one reports exactly when an even number of grants lies between (none, if there was no state) |
| AntiPassback.AlternatesAcross | access-api/store.go:26-48 | grants alternate across what is left out exactly when an even number of grants is left out |
| AntiPassback.HeadCount | access-api/store.go:13-49 | with no reset or expiry the employees IN number granted INs minus granted OUTs |
| Events.AppendOnceKeeps | access-api/store.go:51-88 | an append keeps keys equal to the ids in the stream, each id once, and earlier entries in place |
| Events.AppendAllOnce | access-api/publisher.go:76-85 | a batch adds exactly its own ids, each once, and moves nothing |
| Events.RedoPrefix | access-api/publisher.go:76-85 | redoing a batch over events that are already in changes nothing |
| Events.RedoBatch | access-api/publisher.go:349-371 | a batch appended after an attempt that got as far as any of its events is the batch once |
| Events.InsertKeeps | reporting-api/app/repositories.py:193-240 | a commit that no key refuses keeps request ids unique, employees with rows present in the department they were seeded in, and employees without rows as seeded |
| Events.SaveSetsState | reporting-api/app/repositories.py:207-240 | a commit leaves the employee with its event's state, and its time, if and only if it is not stale: it tells something else than was read, or what was read is still so; a stale one leaves what is there, and no other employee changes |
| PipelineSafety.AccessKeeps | access-api/handlers.go:124-180 | swipes, appends, messages, expiries, resets and trimming keep the pipeline's invariant |
| PipelineSafety.SaveKeeps | reporting-api/app/repositories.py:193-240 | look, insert, a commit whose reply is lost, failure and crash of either consumer keep the invariant, though the two race for rows, employees and the default department |
| PipelineSafety.KafkaStepKeeps | reporting-api/app/consumers/access_events.py:104-192 | delivery, marking, retry and commit keep the invariant: what lies below a position is handled or in flight |
| PipelineSafety.EntryStepKeeps | reporting-api/app/consumers/redis_recovery.py:143-161 | marker check, acknowledgement and leaving an entry pending keep the invariant |
| PipelineSafety.ReadPendingKeeps | reporting-api/app/consumers/redis_recovery.py:119-141 | reading the pending list hands out genuine, still pending entries in order |
| PipelineSafety.ReadNewKeeps | reporting-api/app/consumers/redis_recovery.py:119-141 | reading new entries makes each of them pending before any is processed |
| PipelineSafety.Reachable | reporting-api/app/consumers/redis_recovery.py:80-216 | every reachable state of the composed pipeline satisfies all its invariants |
| Pipeline.SkippedExactly | reporting-api/app/repositories.py:177-185 | exactly the employees whose id a configured prefix begins are skipped |
| PipelineGuarantees.NothingBufferedIsLost | reporting-api/app/consumers/redis_recovery.py:113-216 | in every run, an id whose append was reported successful is stored, skip-listed, undelivered or pending in the stream, or was trimmed away |
| PipelineGuarantees.UnprefixedIsStored | reporting-api/app/repositories.py:188-199 | in every run, a buffered id of an employee no configured prefix begins is a row, undelivered or pending in the stream, or trimmed |
| PipelineGuarantees.PrefixedIsNotStored | reporting-api/app/repositories.py:188-199 | in no run is there a row of an employee a configured prefix begins |
| PipelineGuarantees.HandledIsStored | reporting-api/app/repositories.py:188-199 | handled means that there is a row of the id, unless a configured prefix begins the employee |
| PipelineGuarantees.TheEventItselfIsKept | access-api/store.go:51-88 | when ids do not collide it is the very event, with all its fields |
| PipelineGuarantees.NoTrimming | access-api/store.go:221-247 | without trimming the trimmed category is empty |
| PipelineGuarantees.TrimmingLoses | access-api/store.go:221-247 | what is cut off behind the cursor before it is read is read no more, and no row comes of it |
| PipelineGuarantees.HandledMeansHandled | reporting-api/app/consumers/access_events.py:104-192 | every committed offset, live marker and acknowledged entry stands for a stored, skip-listed or unparseable event; rows are unique, issued and fit their columns; employees are those of the rows and of the seed |
| PipelineGuarantees.RedeliveryIsSilent | reporting-api/app/repositories.py:193-207 | no step of a consumer holding a handled message changes the database |
| PipelineGuarantees.OnlyInsertsChangeRows | reporting-api/app/repositories.py:207-240 | the database changes exactly at a commit of an event in hand that is absent, fits its columns and meets no taken key, and then by that save's net change alone |
| PipelineGuarantees.StateFollowsExactly | reporting-api/app/repositories.py:207-240 | over every run, last_known_state is that of the employee's last inserted row, and last_seen_at its time, if and only if the save of that row was not stale |
| Races.RaceLeavesStale | reporting-api/app/repositories.py:207-240 | from any state in which both consumers have read the employee as IN, Kafka committing OUT and then recovery committing IN leaves the last row IN and the state OUT |
| Races.StaleSaveShows | reporting-api/app/repositories.py:207-240 | a run of swipes, reads and commits, no call failing, that ends so |
| Races.RaceLeavesPending | reporting-api/app/consumers/redis_recovery.py:143-216 | from any state in which both have found the employee absent, or their employees and the default department, the second commit is refused and its entry left pending and missing |
| Races.OvertakenSaveStays | reporting-api/app/consumers/redis_recovery.py:143-216 | a run, no call failing, that ends with everything read, nothing in hand, and an entry pending and missing |
| PipelineGuarantees.RowsStay | reporting-api/app/models.py:203 | later states keep every row in place |
| PipelineGuarantees.UnfitStaysOpen | reporting-api/app/models.py:177-193 | an event too long for its columns, or with U+0000 in an id, is not handled in any run (unless skip-listed, or its id is another event's) |
| Events.UnfitExactly | reporting-api/app/models.py:177-193 | an event fits no row exactly if an id is over its width or holds U+0000, or the latency is out of 32 bits |
| PipelineGuarantees.HopelessStaysPending | reporting-api/app/consumers/redis_recovery.py:113-117 | once delivered and not trimmed, its entry is pending in every run |
| PipelineGuarantees.UnfitSwipe | reporting-api/app/models.py:177-193 | a swipe with any employee id its column does not hold issues such an event |
| PipelineGuarantees.StreamedOnceExactly | access-api/store.go:51-88 | over every run an id is in the stream at most once if and only if it was never appended again after its own key had expired, and at least once if an append succeeded |
| PipelineGuarantees.StreamedOnce | access-api/store.go:51-88 | so in a run in which no key expires, every id is in the stream at most once |
| PipelineGuarantees.ExpiredKeyDuplicates | access-api/store.go:51-88 | appending again after the key has expired puts the event into the stream twice |
| PipelineGuarantees.IssuedAreAnswered | access-api/handlers.go:124-156 | whatever else runs, the issued events are in order the answered decisions of one anti-passback history; those whose reply was lost moved the state and left no event |
| PipelineGuarantees.LawsAcrossLostReplies | access-api/handlers.go:124-132 | between an employee's consecutive events, chaining and alternation hold if and only if an even number of grants lost their reply (none, from UNKNOWN) |
| PipelineGuarantees.LostReplyShows | access-api/handlers.go:124-132 | after an IN whose reply is lost, a second IN is the first event: denied, from IN |
| Consumers.SettledStays | reporting-api/app/repositories.py:193-207 | what is handled stays handled under everyone else's steps |
| Consumers.World.Others | reporting-api/app/consumers/redis_recovery.py:163-173 | however others run, the consumer's own fields and the message in its hands stand still and rows only accumulate |
| Consumers.World.Insert | reporting-api/app/repositories.py:207-240 | the commit is refused for a second row, an event that does not fit, or an employee or default department inserted since it was read; otherwise the row is there with the net change, whether or not the reply comes |
| Consumers.SaveAccessEvent | reporting-api/app/repositories.py:188-240 | a save that returns leaves a row of the event's id, unless a configured prefix begins its employee, and then touches nothing; it says truthfully whether it inserted, and then the event is a row; it raises only on a failed call, an event that does not fit, because the other consumer won the race for the row, or because someone inserted its employee or the default department meanwhile |
| RecoveryConsumer.BacklogStays | reporting-api/app/consumers/redis_recovery.py:113-141 | interference never adds to the work left |
| RecoveryConsumer.ReadNewEffect | reporting-api/app/consumers/redis_recovery.py:119-141 | reading new entries lowers the weighted measure of work |
| RecoveryConsumer.IdleLeavesPending | reporting-api/app/consumers/redis_recovery.py:93-99 | with nothing in hand and nothing undelivered, what is missing from the table is exactly what is pending unsettled, or was trimmed |
| RecoveryConsumer.Converged | reporting-api/app/consumers/redis_recovery.py:93-99 | if moreover nothing was left behind, every buffered id is stored, skip-listed, trimmed or fits no row |
| RecoveryConsumer.ConvergedIsStored | reporting-api/app/consumers/redis_recovery.py:93-99 | in particular it has its row, if no configured prefix begins its employee, it was not trimmed and it fits |
| RecoveryConsumer.OneFailedSaveStays | reporting-api/app/consumers/redis_recovery.py:93-99 | one failed save while new entries are read leaves the event pending and missing, although nothing fails any more and reading on finds nothing |
| RecoveryConsumer.XReadPending | reporting-api/app/consumers/redis_recovery.py:119-129 | the first pending entries are in hand, batchSize of them or all; an empty reply means that nothing is pending |
| RecoveryConsumer.XReadNew | reporting-api/app/consumers/redis_recovery.py:119-129 | the next entries of the stream are pending and in hand, batchSize of them or all there are; an empty reply means that nothing is undelivered |
| RecoveryConsumer.Service.HandleMessage | reporting-api/app/consumers/redis_recovery.py:194-216 | true only if the entry is handled; inserted, duplicates and failed count exactly what happened; false only on a failed call, a lost race for the row, an employee or the default department, or an event that does not fit |
| RecoveryConsumer.Service.ProcessEntry | reporting-api/app/consumers/redis_recovery.py:143-161 | an entry is acknowledged only once its event is handled, across the grace wait; if its marker is live when looked up, nothing more is done and it may be acknowledged |
| RecoveryConsumer.Service.ReadAndProcess | reporting-api/app/consumers/redis_recovery.py:119-141 | reports nothing processed exactly when nothing was there; new entries move the group on, pending ones lower the work left, unless one can never be saved; a read or acknowledgement may be carried out and raise |
| RecoveryConsumer.Service.DrainPending | reporting-api/app/consumers/redis_recovery.py:113-117 | ends against any interference with nothing pending, unless it crashed or still drains an event that fits no row; with an unsavable entry pending it never ends with nothing pending |
| RecoveryConsumer.Service.ConsumeUntilIdle | reporting-api/app/consumers/redis_recovery.py:80-99 | drain followed by reads ends; what is missing is exactly what is pending, at most one entry left behind for each failed call and each overtaken save, of which there are no more than new employees; with neither, everything is stored, trimmed or unfit |
| RecoveryConsumer.Service.RunUntilIdle | reporting-api/app/consumers/redis_recovery.py:65-78 | restarts included, the service comes to idle (or to draining an unsavable event) with no more left behind than calls failed and saves were overtaken since its last start |
| RecoveryConsumer.Service.Restart | reporting-api/app/consumers/redis_recovery.py:65-78 | one more restart with no call failing leaves no more behind than saves are overtaken during it; if no new employee comes, everything is stored |
| KafkaConsumer.KafkaFacts | reporting-api/app/consumers/access_events.py:104-122 | committed offsets stay below positions and cover handled messages only |
| KafkaConsumer.CommittedIsStored | reporting-api/app/consumers/access_events.py:104-122 | every committed message that parses and whose employee no configured prefix begins has its row |
| KafkaConsumer.IdleIsCommitted | reporting-api/app/consumers/access_events.py:104-122 | in every run, with nothing in flight the next message of each partition is the first not committed |
| KafkaConsumer.Service.HandleMessage | reporting-api/app/consumers/access_events.py:152-176 | true only if the message is handled, with exact counters, and then its marker is set if no call failed; false only on a failed call, a lost race for the row, an employee or the default department, or an event that does not fit |
| KafkaConsumer.Service.HandleWithRetry | reporting-api/app/consumers/access_events.py:124-145 | ends with the same message handled, failures being finite, if it fits its columns; one that does not is still in hand after any number of tries unless something else settled it, and never handled if its id is its own |
| KafkaConsumer.Service.ConsumeOne | reporting-api/app/consumers/access_events.py:104-122 | takes the partition's next message exactly if there is one; with no call failing the turn ends with it committed and marked, or still retrying an event that does not fit; a commit that raises, carried out or not, goes back to what is committed |
| KafkaConsumer.Service.ConsumeTurns | reporting-api/app/consumers/access_events.py:104-122 | over any schedule of partitions and any interference, each turn of a partition commits one more of the messages it began with, or a call failed, until an event that fits no row stands in the way; so with neither, as many turns commit all |
| AccessApi.RedisStore.DecideAccess | access-api/store.go:159-182 | the script's branches compute the decision function in one step; a lost reply leaves either the old or the new state |
| AccessApi.RedisStore.AppendEventOnce | access-api/store.go:221-247 | success means the event went in or was there; failure leaves the stream as it was or with the event once |
| AccessApi.EventReports | access-api/handlers.go:124-156 | the event built from a decision tells the stored states before and after truthfully, is GRANTED exactly to those who may pass, and gives the reason |
| AccessApi.UnfitAccepted | access-api/handlers.go:97-156 | a request with any non-empty trimmed employee id its column does not hold is accepted as it is, and its event fits no row |
| AccessApi.UnfitIds | access-api/handlers.go:97-156 | there are such ids: one of 65 characters, and a short one with U+0000 in it |
| AccessApi.RedisEventPublisher.PublishBatch | access-api/publisher.go:76-85 | success means every event is buffered, whoever acts in between; an attempt that fails anywhere keeps what is in the stream |
| AccessApi.RedisEventPublisher.PublishWithRecovery | access-api/publisher.go:349-371 | against any interleaving, attempts failing at any position any finite number of times: on success each id of the batch is in the stream, and exactly once if and only if it was not appended again after its key expired; giving up only when closing, after a failed attempt |
| AccessApi.App.DecideAndRecord | access-api/handlers.go:124-156 | the event of an answered decision tells the stored states around it; without an answer there is no event, though the state may have moved |
| AccessApi.App.Swipe | access-api/handlers.go:97-200 | whoever acts in between, the event reports the states at its decision, "buffered" means accounted for from then on, "queued" accepted by the publisher; an acceptable request is answered 503, or its event not buffered, only if a call failed, and not queued only if the publisher is closed or full; a refused request touches nothing |
| AsyncPublisher.EffectConserves | access-api/publisher.go:294-388 | no worker action loses or doubles an event |
| AsyncPublisher.WorkKeeps | access-api/publisher.go:294-388 | every action of any worker keeps bounds, order of the queue and counters |
| AsyncPublisher.ProducerKeeps | access-api/publisher.go:237-253 | every producer step and both steps of Close keep them too |
| AsyncPublisher.Reachable | access-api/publisher.go:182-388 | every reachable state satisfies the publisher's invariants |
| AsyncPublisher.Conservation | access-api/publisher.go:237-388 | accepted = queue + batches in hand + delivered + abandoned as multisets, within the bounds; nothing is abandoned before Close nor without a failed attempt |
| AsyncPublisher.CloseDrains | access-api/publisher.go:268-276 | once all workers have exited, every event accepted before Close was delivered or abandoned after a failed attempt |
| AsyncPublisher.SentAfterDrain | access-api/publisher.go:237-276 | a producer past the closed check can send after the last worker has exited; its event stays in the queue |
| AsyncPublisher.QuietCloseStrandsNothing | access-api/publisher.go:268-276 | if no producer stands between check and send at Close, the queue is empty once all workers have exited, and everything accepted was delivered or abandoned |
| AsyncPublisher.StrandsExactly | access-api/publisher.go:237-276 | closed at any point of any run, whatever the number of workers, some continuation lets all workers exit with an event in the queue if and only if a producer stands between its check and its send |
| AsyncPublisher.CloseEnds | access-api/publisher.go:268-276 | once done has closed, in every interleaving no more steps move anything than workers, queue and producers of that moment allow, and two for every failing attempt |
| AsyncPublisher.NobodyIsStuck | access-api/publisher.go:268-276 | until it has exited, every worker can do something then; so the wait in Close ends |
| AsyncPublisher.GivenUpAfterClose | access-api/publisher.go:349-371 | a failed attempt followed by Close gives the event up |
| AsyncPublisher.NoFailureAbandonsNothing | access-api/publisher.go:349-388 | if no attempt fails, nothing is ever abandoned |
| AsyncPublisher.OneWorkerInOrder | access-api/publisher.go:294-347 | with one worker and nothing abandoned, delivered, batch and queue are the accepted events in order |
| PublisherLoops.OtherStep | access-api/publisher.go:182-195 | nobody else touches a worker's batch or sends a producer's event; a closed publisher lets no new producer in |
| PublisherLoops.AsyncEventPublisher.Publish | access-api/publisher.go:237-253 | closed exactly if closed when checked; queued means appended at the tail and counted; otherwise counted as dropped, with the queue full |
| PublisherLoops.AsyncEventPublisher.Close | access-api/publisher.go:268-276 | only the first call closes, and it closes both flags |
| PublisherLoops.AsyncEventPublisher.CollectBatch | access-api/publisher.go:309-327 | between one and batchSize events, the first one first, the others accepted ones in order, off the head of the queue; unless the batch is full or done has closed, as many events have left the queue as it looked, or all there were |
| PublisherLoops.AsyncEventPublisher.PublishBatchWithRecovery | access-api/publisher.go:349-371 | delivers the batch whole, or gives it up whole after done closed and an attempt failed; the wait doubles with every wait up to its maximum |
| PublisherLoops.AsyncEventPublisher.DrainNext | access-api/publisher.go:329-347 | one turn of drain takes an event or sees the queue empty and finishes |
| PublisherLoops.AsyncEventPublisher.Drain | access-api/publisher.go:329-347 | terminates, and leaves in the queue only what was accepted after Close |
| PublisherLoops.AsyncEventPublisher.SelectOnce | access-api/publisher.go:294-307 | a round at an empty queue blocks, or exits once done has closed; any other round exits after done, or ends with the head of the queue delivered, or given up after done and a failed attempt |
| PublisherLoops.AsyncEventPublisher.RunWorker | access-api/publisher.go:294-307 | after n rounds n of the events queued at first have left the queue, or all; a worker alone has delivered them in order by then; once done has closed it exits within as many rounds as events can still come; otherwise it waits with empty hands |
| Simulator.IdsDiffer | access-api/cmd/swipe-simulator/main.go:619-621 | different employee numbers have different ids |
| Simulator.InitialInsideSet | access-api/cmd/swipe-simulator/main.go:285-292 | exactly the numbers picked by the first entries of the permutation |
| Simulator.BuildNormalScenario | access-api/cmd/swipe-simulator/main.go:237-282 | one setup IN per employee inside, one swipe per employee, the rest copies of these |
| Simulator.FirstIsGranted | access-api/store.go:26-48 | where everyone asks for one direction and has the state for it, exactly each employee's first request is granted |
| Simulator.SetupLoads | access-api/cmd/swipe-simulator/main.go:237-250 | every setup swipe is granted, in whatever order |
| Simulator.OutcomeIndependentOfOrder | access-api/cmd/swipe-simulator/main.go:237-282 | in any order of sending exactly Employees timed swipes are granted, one each, and exactly the duplicates are denied as anti-passback violations |
| Attendance.DetailIsOne | reporting-api/app/repositories.py:666-692 | an employee-day's first-in, last-out, denials and department do not depend on the order of the rows |
| Attendance.SameAttendance | reporting-api/app/repositories.py:666-692 | two readings of the same rows in any orders yield the same employee-days |
| Attendance.CutAttendance | frontend/src/pages/employee/Reports.tsx:273-280 | cutting times to milliseconds cuts the ends of each employee-day and changes nothing else |
| AttendanceFolds.OnePass | reporting-api/app/repositories.py:666-692 | the one-pass loop yields exactly the employee-days of the named rows, each rightly described |
| AttendanceFolds.PushRow | frontend/src/pages/employee/Reports.tsx:246-267 | gathering an event and then sorting moves the ends like the running minimum and maximum |
| AttendanceFolds.SortKeeps | frontend/src/pages/employee/Reports.tsx:273-274 | sorting gives an ascending permutation |
| AttendanceFolds.BuildAttendanceDetails | frontend/src/pages/employee/Reports.tsx:243-286 | group, sort and pick yields exactly the employee-days of all events |
| AttendanceSummary.SummaryPermuted | reporting-api/app/repositories.py:694-760 | the figures do not depend on the order of the employee-days |
| AttendanceSummary.Accumulate | reporting-api/app/repositories.py:694-760 | the server's loop computes the order-free figures, sets and department statistics |
| AttendanceSummary.DepartmentStayStats | frontend/src/pages/employee/Reports.tsx:323-340 | the browser's two passes give each department its rows and its stays |
| AttendanceSummary.BuildDailyAttendanceTrend | frontend/src/pages/employee/Reports.tsx:361-374 | the employees who came, day by day |
| AttendanceSummary.BuildHrMetrics | frontend/src/pages/employee/Reports.tsx:315-359 | the browser's filters and loops compute the same order-free figures |
| AttendanceReports.SummaryCounts | reporting-api/app/repositories.py:694-760 | the figures made of the employee-days are, for any rows, the sizes of sets of employee-days said of the rows alone |
| AttendanceReports.ServerReport | reporting-api/app/repositories.py:654-760 | the server counts, of the rows with an employee: days that occur, days with a granted IN, days with a granted IN and OUT and no denial, days that lack one or have a denial, stays and their longest times, people, trend, and each department's share of these |
| AttendanceReports.ClientReport | frontend/src/pages/employee/Reports.tsx:243-374 | the browser counts the same of all its events, their times cut to milliseconds |
| AttendanceReports.ReportsAgree | reporting-api/app/repositories.py:654-665 | for any order of the rows on either side, the browser's figures are those of the server's employee-days with their ends cut to milliseconds if and only if every row has an employee, and the server's own if and only if moreover the cut changes no figure, which is so for whole milliseconds |
| AttendanceReports.SwipeOfNobody | frontend/src/pages/employee/Reports.tsx:243-286 | one swipe of nobody is a row and an anomaly for the browser, nothing for the server |
| AttendanceReports.FractionsDiffer | frontend/src/pages/employee/Reports.tsx:273-280 | an IN and an OUT within one millisecond are one stay for the server and none for the browser |
| AttendanceFacts.FiguresConserve | reporting-api/app/repositories.py:705-736 | normal rows and anomaly days add up to all rows; department rows, normal rows, stay times and work days add up to the global ones |
| AttendanceFacts.TrendConserves | reporting-api/app/repositories.py:714-718 | the daily head counts add up to the attended rows, and the period's people are those of its days |
| AttendanceFacts.CompletedDays | reporting-api/app/repositories.py:1284-1302 | exactly the days with a first main-gate IN before a last main-gate OUT, with the time between them |
| AttendanceFacts.MainGateWithinStay | reporting-api/app/repositories.py:1284-1302 | a completed main-gate day is a completed any-gate day with at least as much time |
| AttendanceFacts.StayCoversTimeInside | access-api/store.go:26-48 | for a day of decided swipes that starts and ends outside, both ends exist, the reported time is at least the time inside, and equal exactly when there is one visit |
| Hierarchy.GetDescendantDepartmentIds | reporting-api/app/permissions.py:34-45 | the recursive query terminates on acyclic parents with every department below, each once |
| Hierarchy.RestrictionFaithful | reporting-api/app/repositories.py:1612-1616 | the visible rows alone tell who lies below whom if and only if no visible chain runs through a hidden department |
| Departments.ForestHoldsEachOnce | reporting-api/app/serializers.py:25-43 | the forest holds every department exactly once if and only if the parent pointers have no cycle |
| Departments.ForestExists | reporting-api/app/serializers.py:25-43 | every table with distinct ids has a finite forest, with or without a cycle elsewhere |
| Departments.SerializeDepartmentTree | reporting-api/app/serializers.py:25-43 | what hangs from the returned roots, appended in place, is exactly the forest of the parent pointers |
| Departments.FlattenIds | frontend/src/pages/employee/Reports.tsx:185-193 | the options are the departments of the forest that are not hidden |
| Departments.GetDescendantIds | frontend/src/components/DeptMultiSelect.tsx:15-25 | the scan collects the run of deeper options after the chosen one |
| Departments.AfterIsSubtree | frontend/src/pages/employee/Reports.tsx:185-193 | that run is the flattening of the department's own subtree, whatever was spliced out around or below it |
| Departments.ScanFindsBelow | frontend/src/components/DeptMultiSelect.tsx:15-25 | the scan finds each department below the chosen one that is not hidden, once, and nothing else |
| Departments.PickerMatchesQuery | frontend/src/components/DeptMultiSelect.tsx:15-25 | picker and recursive query choose the same departments as far as the picker lists them |
| Rollups.RowsDisjointExactly | reporting-api/app/repositories.py:1615-1634 | displayed rows cover disjoint sets of departments if and only if no visible chain runs through a hidden department |
| Rollups.ClosedIsConvex | reporting-api/app/permissions.py:26-29 | a visible set closed under descendants has no such chain |
| Rollups.WhatIsDisplayed | reporting-api/app/repositories.py:1618-1620 | a row for each visible department without a visible parent, or, if there is only one and it has visible children, for each of these |
| Rollups.WhatIsCovered | reporting-api/app/repositories.py:1618-1634 | the rows cover everything visible, except the only root when its children are shown instead |
| Rollups.RowsAddUp | reporting-api/app/repositories.py:1707-1726 | row totals add up to exactly the records of the covered departments, each counted once |
| Rollups.AddUp | reporting-api/app/repositories.py:1707-1715 | a row's figure is the sum over the department and the visible ones below it |
| Rollups.DepartmentAnalytics | reporting-api/app/repositories.py:1605-1733 | one row per displayed department, in order, with its total |
| Visibility.GetVisibleDepartmentIds | reporting-api/app/permissions.py:14-31 | everything exactly for ADMIN and EXECUTIVE, otherwise the closure of the scopes, or the own department if there are none |
| Visibility.VisibleDepartmentIds | reporting-api/app/repositories.py:2864-2879 | the requested closure cut down to what the user sees; nothing for nobody |
| Visibility.MultiDeptVisibleIds | reporting-api/app/repositories.py:2846-2861 | the union of the requested closures cut down to what the user sees, or a name no department has |
| Visibility.ManyIsUnion | reporting-api/app/repositories.py:2846-2861 | several departments select exactly what they select one by one, if and only if no empty id is among them, or it cannot matter |
| Snapshots.SharesKeyExactly | reporting-api/app/repositories.py:419-487 | a user has an executive's lookup key for a department if and only if its whole closure is visible to the user |
| Snapshots.SharedScopeIsExecutives | reporting-api/app/repositories.py:2864-2879 | then the effective department scope is the executive's |
| Snapshots.SharedReportIsOwn | reporting-api/app/repositories.py:2833-2840 | and on all data the user's rows are the executive's, if and only if the user is not restricted to his own rows |
| Snapshots.KeyDeterminesRows | reporting-api/app/repositories.py:458-487 | equal lookup keys mean reports on the same rows: for keys not shared always, for shared ones among users restricted alike (neither, or both to one employee) |
| Snapshots.KeyGivesBack | reporting-api/app/repositories.py:458-487 | the key gives back preset, period, limit and department of the request, and, where it is not shared, who asked and what is seen |
| Snapshots.ScopedExactly | reporting-api/app/repositories.py:2833-2843 | a report reads exactly the rows of the departments seen, and of these an EMPLOYEE tied to a record only the own ones |
| Snapshots.SameTargetAsks | reporting-api/app/repositories.py:554-569 | the fallback takes a stored report exactly for a request with the same department, not the whole, and the same preset, period and limit |
| Snapshots.SharersAgreeExactly | reporting-api/app/repositories.py:2839-2840 | two users who share a department's key have the same rows on all data if and only if they are restricted alike |
| Snapshots.EmployeeSharesOwnDepartment | reporting-api/app/repositories.py:419-428 | an EMPLOYEE without scopes may share the own department's report if and only if nothing lies below it |
| Snapshots.SnapshotLookup | reporting-api/app/repositories.py:458-487 | the key and the sharing decision as the code puts them together |
| Snapshots.ReportStore.GetReportCenter | reporting-api/app/repositories.py:926-969 | a hit on the exact key is the requester's own report on the rows there were when it was stored, and a report computed because nothing stored has the target that on the rows there are (a shared one the executive's); what is stored stays right as of its storing unless a user restricted to his own rows stores a shared one for want of an executive; the fallback answers with some stored report of the target; only a miss stores, under its own key |
| Snapshots.FallbackRightExactly | reporting-api/app/repositories.py:554-569 | on given data the fallback has the requester's rows if and only if none of them lies outside the scope of whoever stored the report |
| Snapshots.FallbackNeverRight | reporting-api/app/repositories.py:554-569 | whatever other key is stored for the target, on some data the fallback is wrong |
| Snapshots.FallbackMayDiffer | reporting-api/app/repositories.py:554-569 | a directory of two departments in which it is |
| Like.CompileLike | reporting-api/app/repositories.py:86-97 | the text is the anchored translation, part by part |
| Like.TextReadsBack | reporting-api/app/repositories.py:86-97 | the engine reads the text back as exactly the pattern: escaping loses and invents nothing |
| Like.AcceptsExactly | reporting-api/app/repositories.py:100-104 | what the compiled expression matches, for every pattern and every string, newlines included |
| Like.TranslationKeepsMeaning | reporting-api/app/repositories.py:86-104 | for every pattern and every newline-free string it matches exactly when LIKE does |
| Like.MeaningKeptExactly | reporting-api/app/repositories.py:86-104 | expression and LIKE agree on a string for every pattern if and only if the string has no newline |
| Like.NewlinesDiffer | reporting-api/app/repositories.py:86-104 | two smallest strings on which they do not, one in each direction |
| Like.SuffixIsNarrower | reporting-api/app/repositories.py:2718 | a name ending in "_A" matches the default pattern; exactly the names ending in A after another character than an underscore match without it |
| ReportCache.RecentIs | reporting-api/app/repositories.py:641-651 | the recency list has each stored key once |
| ReportCache.RecentIsOrdered | reporting-api/app/repositories.py:641-651 | it is ordered by the time of the latest store |
| ReportCache.OldestIsLast | reporting-api/app/repositories.py:648-650 | the evicted key is the least recently stored of those held |
| ReportCache.OneMoreStore | reporting-api/app/repositories.py:641-651 | how the most recent keys change by one more store |
| ReportCache.Cache.Store | reporting-api/app/repositories.py:641-651 | after any run of stores the cache holds exactly the most recent distinct keys up to its maximum, each with its latest result |
| Remarks.IdsReadBack | reporting-api/app/repositories.py:2505-2523 | a printed anomaly id is read back if and only if its employee id has no colon; denied ids always |
| Remarks.ParsesExactly | reporting-api/app/repositories.py:2505-2523 | a text is read as an anomaly id exactly if it is the printed one and none of its fields carries a colon |
| Remarks.ListedIdsReadBack | reporting-api/app/repositories.py:2505-2523 | the id of a listed item, whose date the database casts to itself, stands for that item if and only if its employee id has no colon |
| Remarks.TargetIsOne | reporting-api/app/repositories.py:2541-2560 | an anomaly id stands for at most one event |
| Remarks.TargetExactly | reporting-api/app/repositories.py:2541-2560 | an id stands for the earliest (late) or latest (overtime, unpaired) granted main-gate swipe of the employee and day in the direction wanted, ties by key, or for the denied event of its request id; only among those the user may see |
| Remarks.EventTable.UpdateRemark | reporting-api/app/repositories.py:2499-2626 | unsupported exactly if the id does not parse, an error exactly if its date does not cast, not found exactly if no event qualifies, otherwise exactly the target's remark becomes the stripped text; the reply shows it, or the reason of a denial, or the default |
| Remarks.ListsStay | reporting-api/app/repositories.py:2243-2287 | remarks decide neither what is listed nor in which list |
| Remarks.ListedIsUpdatable | reporting-api/app/repositories.py:2525-2539 | whoever is listed for a user may be updated by that user |
| Remarks.ListedHasTarget | reporting-api/app/repositories.py:2541-2560 | the update of a listed overtime day or late arrival is not refused |
| Remarks.OvertimeReadsBack | reporting-api/app/repositories.py:2268-2306 | after the update the day shows the trimmed remark or the default and every other note stays |
| Remarks.LateReadsBack | reporting-api/app/repositories.py:2629-2705 | the same for a late arrival, exactly where no earlier IN of the day lies outside the window |
| Remarks.WholeDaysReadBack | reporting-api/app/repositories.py:2653-2677 | a window of whole days meets that condition |
| Remarks.DeniedReadsBack | reporting-api/app/repositories.py:2398-2411 | the same for a denied event, found by its request id, with its reason before the default |
| Remarks.UnpairedWritesElsewhere | reporting-api/app/repositories.py:2515-2521 | a remark on an unpaired day leaves its fixed note; a missing IN writes the day's overtime note, a missing OUT the late list's event exactly where the day has a single IN |

## Left out

- Real time: timers, grace periods and backoff sleeps are points where anyone else may step in; nothing is said about durations.
- Termination of the retry and recovery loops assumes that only finitely many calls fail; the number is a parameter. Loops that never end on an event that fits no row are watched for a number of rounds, a parameter too.
- Messages from elsewhere are unparseable ones; a parseable foreign message is not part of this model.
- The reads of one save are one step; reading the row, the employee and the department one after the other changes no outcome, since the commit checks all three keys again.
- Several instances of the recovery consumer under different consumer names, and several instances in the Kafka consumer group; each group has one consumer here.
- A crash of Redis, Kafka or PostgreSQL themselves that loses what they acknowledged.
- The cooperative stop events of the consumers: stopping is covered as a crash.
- PublisherLoops.AsyncEventPublisher.Close: leaves out the wait for the workers, which AsyncPublisher.CloseEnds is about, and closing the inner publisher.
- Trace headers, spans, metrics text, HTTP, JSON and configuration parsing.
- Upper-casing maps ASCII letters and the dotless i, the only others whose upper case is a letter of a direction.
- PipelineGuarantees.StreamedOnce: assumes that no dedupe key expires; StreamedOnceExactly does not.
- PipelineGuarantees.NothingBufferedIsLost: events cut off by MAXLEN trimming before delivery are a category of their own.
- The steps of the queueing publisher and those of the pipeline are two systems: what a publisher delivers reaches the pipeline as Produce steps, which may be any.
- AsyncPublisher.OneWorkerInOrder: with several workers batches may overtake each other, so order is stated for one worker.
- The order of rows in reports (display sorting, ties in the department ranking), rates and rounding; both sides divide the same proven counts.
- AttendanceReports.ReportsAgree: takes the department as a function of the employee, as the joins deliver it; display names are left out, and the browser's own time zone is taken to be Asia/Taipei.
- AttendanceFacts.CompletedDays: the list is a map from employee-day to time; the grouping by month, quarter and year is left out.
- Snapshots.KeyDeterminesRows: leaves out users restricted differently where the key is shared; SharersAgreeExactly says that their rows do differ.
- Snapshots.ReportStore.GetReportCenter: departments and scopes stand still between storing and reading (events need not), commits do not fail, and the hash of a scope key is taken to be the key.
- The preview and attendance parts of a report for several departments at once, which do not use the combined scope.
- Visibility.ManyIsUnion: assumes that no department is called "__none__".
- ReportCache.Cache.Store: assumes a clock that moves on between stores; expiry of entries on reading is left out.
- Remarks: which texts the database casts to a date (a parameter), paging of the lists, the lateness cutoffs (a parameter), and the database session's time zone (taken to be the reporting one).
- Like: a backslash in a SQL pattern is an escape in PostgreSQL; the patterns here have no escapes.
- Simulator.BuildNormalScenario: times are left out because the outcome is proved for every order; the other profiles are left out.
- The checkbox logic of the department picker, passwords, tokens, cookies, seeding and dashboards.
