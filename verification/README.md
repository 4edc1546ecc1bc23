# Maestro: how its replicas coordinate

Maestro's server replicas share one PostgreSQL database and coordinate only through advisory locks,
soft deletes, an event table and version and sequence checks. This project models that
coordination and proves what it guarantees over every run of any number of replicas, and beside it
the status event purge, consumer ownership, the search tree rewrite, resync batching and the list
pager. `dafny verify dfyconfig.toml` checks everything.

## How it is built

- `Store` has the tables, one function per data access statement, and what each service operation
  decides about the row it read (`Judge`) and makes of it (`Perform`).
- `System` is the step system: processes (service calls, event workers, detector passes) that
  advance one data access call at a time over the shared tables and locks, with a clock that never
  runs backwards. Any process may stop anywhere, and then its lock is released.
- `Discipline` proves one invariant of all runs by rely and guarantee: each guarded write is made under its
  lock, and what a process knows between two steps is stable under everyone else's allowed writes.
  `Incarnations` adds what the locks say when a row is hard deleted and created again, for which no
  lock is taken.
- `Throttle`, `Lifecycle`, `Serial`, `Convergence` and `Delivery` are the theorems about runs, and
  `Limits` has the runs that show where a tempting claim is false.
- `Locks`, `Service`, `Controllers`, `Dispatcher` and `StatusPurge.StatusStore` are the objects of
  the code, with its fields and control flow, proved against the same functions of `Store`. A data
  access or broker call may fail at any time unless the object is made reliable. `Answers` says what the
  calls of the service answer and leave in terms of the columns alone.
- `Solo` and `Workers` join the two: a process of the step system that is not interrupted leaves what
  the code of the service and of the controllers promises.
- `StatusPurge`, `Ownership`, `Search`, `Pager` and `Batching` are self-contained.

Four kinds of history variables record what happened and are never read by a modelled statement:
the incarnation number of a row (an identifier can be hard deleted and created again), the
incarnation a delete event announces, whether an event was put back after its purge together with
all events ever inserted, and the log of steps.

## Where the code falls short of a simple claim

- Saving an event writes the whole row and inserts it when it is gone (`pkg/dao/event.go:67-74`).
  A worker that saves after a purge puts the event back, so two stored delete events can be closer
  than the republish interval (`Limits.RevivedEventsCanBeClose`). They get so exactly when an event
  is saved after its purge too close to a stored one, or inserted too close to one put back
  (`Throttle.StaysApartIff`, `Throttle.AlwaysApartIff`). Events that were never put back, in
  particular all unreconciled ones, keep the interval in every run.
- `Update` and `UpdateStatus` write by identifier. If the row is hard deleted and created again
  between the read and the write, the write crosses to another incarnation. What one incarnation
  keeps in all runs is in `Lifecycle.RunsEndure` and `Lifecycle.NoLostUpdates`. Five more things fail
  then, each with its run and its exact condition:
  - a status is ahead of its row, written by a report that crosses (`Limits.StatusCanBeAhead`), or by
    one that does not but was overtaken by an update that crosses (`Limits.StatusCanBeOvertaken`), or
    met by such an update; exactly these steps do it (`Lifecycle.StaysBoundedIff`,
    `Lifecycle.AlwaysBoundedIff`);
  - the version falls (`Limits.VersionCanFall`, `Lifecycle.VersionKeptIff`);
  - the payload changes under an unchanged version (`Limits.PayloadCanChange`,
    `Lifecycle.PayloadKeptIff`);
  - the version of the stored status falls (`Limits.StatusVersionCanFall`,
    `Lifecycle.StatusVersionKeptIff`);
  - the serial order of the operations stops giving the stored row and the verdicts, exactly at the
    first write that changes a row for which its operation would not be accepted (`Serial.MatchesIff`,
    `Serial.AlwaysMatchesIff`); for the row of `Limits.StatusCanBeAhead` no order does.

  No step crosses as long as no identifier is created while somebody who has read its row has yet to
  write it (`Lifecycle.UndisturbedRunsAreCalm`), in particular if identifiers are not used again.
- A delete event that outlives its incarnation makes the gRPC broker publish a delete request for the
  live row created since (`Limits.LiveRowCanBeDeleted`, `Delivery.DeletesLiveRowIff`).
- A throttled delete request may have been throttled by a delete event of an earlier incarnation, and
  then the marked one was never announced (`Limits.ThrottledByEarlierIncarnation`). Unless the latest
  event is as old as the mark, the two times tell which it is (`Throttle.LookupTellsIff`); at equal
  times both occur.
- Delete events of earlier incarnations add up while the row is not marked before the cutoff of the
  stale delete pass (`Limits.EarlierIncarnationsAddUp`, `Throttle.OtherBacklogsStay`). Once it is, the
  bound holds of all delete events of the identifier (`Throttle.WholeBacklogBounded`).
- A create or update request can be published after the soft delete when its handler read the row
  before (`Limits.PublishCanFollowSoftDelete`); it never is when the read came after.
- With a republish interval of zero or less an interrupted delete never heals
  (`Throttle.DisabledNeverHeals`); with a positive one it does (`Throttle.CompletedDeleteHeals`).
- A first status is stored without its sequence identifier being parsed, and may shut out all later
  reports for good (`Limits.FirstStatusCanStick`). It does exactly when it is neither empty nor a
  number below the last one of its node (`Lifecycle.ReportsPossibleIff`).
- A consumer is queued for resynchronisation before it joins the consumer set, so the resync can begin,
  and be over, before it joins (`Ownership.ResyncCanComeTooEarly`). Exactly then it joins with no later
  one pending (`Ownership.CoveredIff`, `Ownership.AlwaysCoveredIff`).
- A search operator without a first operand is given an empty one, so the rewritten tree means
  something else exactly then (`Search.MeaningPreservedIff`).
- A limit above the maximum page size that is no multiple of it is not kept: the pager returns all
  the rest (`Pager.WithinLimitIff`). The token `0` lists the first page twice (`Pager.PageList`).

## Model

| member | source | states |
|---|---|---|
| `SequenceIds.Fields` | pkg/services/util.go:58-81 | time, node and step are disjoint bit fields that together make up the identifier |
| `SequenceIds.CompareIsIntegerOrder` | pkg/services/util.go:58-81 | comparing time and then step is comparing the numbers, and it succeeds exactly for two parsed identifiers of one node |
| `SequenceIds.NewerIsStrictOrder` | pkg/services/util.go:58-81 | being newer is irreflexive, transitive and total on the distinct identifiers of one node |
| `SequenceIds.LetsInIff` | pkg/services/util.go:58-81 | something is newer than an identifier if and only if it is empty, or a number that is not the last one of its node |
| `SequenceIds.ParseReads` | pkg/services/util.go:58-81 | a decimal number is read as itself, and a sign in front of it counts |
| `SequenceIds.ParsesDigitsOnly` | pkg/services/util.go:58-81 | nothing but digits behind a sign or none is read |
| `Store.ColumnsCommute` | pkg/dao/resource.go:55-95 | spec, status and mark are columns of their own, so the writes to them commute |
| `Discipline.StepKeepsLocked` | pkg/db/advisory_locks.go:91-136 | in every step a process past its lock is the recorded holder of the lock's key |
| `Discipline.NoOrphanLocks` | pkg/db/advisory_locks.go:279-291 | in every run a lock that is held belongs to a process that has not ended |
| `Discipline.Exclusive` | pkg/db/advisory_locks.go:114-136 | two processes past the same lock are one process, whatever names hash to the same key |
| `Discipline.GuardedWrites` | pkg/services/resource.go:103-315 | every spec write, soft delete and announced delete event is made under the resource lock, every status write under the status lock |
| `Discipline.PlanAllowed` | pkg/services/resource.go:261-358 | a process soft deletes only live rows, announces a deletion only once it is marked and the interval has passed, and saves only events it read |
| `Discipline.Stable` | pkg/services/resource.go:103-315 | what a process knows between two of its steps survives every allowed write of any other process |
| `Discipline.ActKeepsDb` | pkg/dao/event.go:67-155 | every allowed write keeps the tables consistent: identifiers in use were issued, delete events follow the soft delete they announce |
| `Discipline.ActKeepsWellSpaced` | pkg/services/resource.go:324-358 | every allowed write keeps the delete events of an incarnation the interval apart |
| `Discipline.StepKeepsGood` | pkg/services/resource.go:103-358 | every step of every process, every tick and every purge keeps the whole invariant |
| `Discipline.RunKeepsGood` | pkg/services/resource.go:103-358 | so does every run, of any number of replicas, including processes that stop anywhere |
| `Incarnations.StaysSound` | pkg/services/resource.go:103-315 | under its lock an update keeps a live row to write, a report that crosses keeps a row without a status, and a delete request keeps its incarnation the only marked one, whatever others write |
| `Incarnations.ActKeepsOthersFirst` | pkg/services/resource.go:261-358 | delete events that announce another incarnation were inserted no later than the stored one was marked |
| `Incarnations.RunKeepsSound` | pkg/services/resource.go:103-358 | both hold over every run |
| `Throttle.DeleteEventsApart` | pkg/services/resource.go:324-358 | in every reachable state stored delete events of one incarnation that were never put back are the interval apart |
| `Throttle.PendingDeletesApart` | pkg/services/resource.go:324-358 | all unreconciled delete events of one incarnation are the interval apart |
| `Throttle.StaysApartIff` | pkg/dao/event.go:67-92 | a step makes two stored delete events of an incarnation closer than the interval if and only if it saves one after its purge too close to a stored one, or inserts one too close to one put back |
| `Throttle.AlwaysApartIff` | pkg/dao/event.go:67-92 | the stored delete events keep the interval all along a run if and only if it has no such step |
| `Throttle.PunctualRunsReviveNone` | pkg/dao/event.go:67-92 | a run without late saves never puts an event back |
| `Throttle.AllDeletesApart` | pkg/dao/event.go:85-92 | over such runs any two stored delete events of an incarnation are the interval apart, however purges fall |
| `Throttle.CompletedDeleteHeals` | pkg/services/resource.go:261-358 | a delete request that completes leaves the resource absent or its incarnation gone or soft deleted; unthrottled it has just announced that incarnation; throttled it found a delete event of the identifier younger than the interval, which announces that incarnation if it is younger than the mark, while no stored event that was never put back does if it is older; the three other endings are named |
| `Throttle.LookupTellsIff` | pkg/dao/event.go:160-173 | unless the latest delete event is as old as the mark, a stored one announces the marked incarnation if and only if the latest is younger than the mark |
| `Throttle.DisabledNeverHeals` | pkg/services/resource.go:324-330 | with republishing off an incarnation left marked and unannounced is never announced in any run |
| `Throttle.LeftBehind` | pkg/dao/event.go:131-155 | an event a pass leaves unreconciled is no older than the threshold |
| `Throttle.BacklogBounded` | pkg/dao/event.go:131-155 | after a pass that did not fill its batch every stored resource has at most threshold / interval + 1 unreconciled delete events that announce its incarnation, as of the pass's clock reading |
| `Throttle.WholeBacklogBounded` | pkg/dao/event.go:131-155 | for a row marked before the cutoff the bound holds of all unreconciled delete events of the identifier |
| `Throttle.OtherBacklogsStay` | pkg/dao/event.go:131-155 | for any other row the pass retires none |
| `Spacing.CountInStretch` | pkg/services/event.go:120-126 | at most n / gap + 1 moments that are pairwise a gap apart lie in a stretch of length n |
| `Lifecycle.StepEndures` | pkg/dao/resource.go:55-95 | every step leaves a row enduring, or another incarnation, also when it crosses |
| `Lifecycle.RunsEndure` | pkg/services/resource.go:103-315 | over every run an incarnation that is marked keeps version, payload and mark, and the statuses stored for an incarnation strictly advance in sequence |
| `Lifecycle.RowHistory` | pkg/services/resource.go:103-315 | the same between any two moments of any run from the empty tables |
| `Lifecycle.Born` | pkg/api/resource_types.go:40-53 | an incarnation begins with a validated creation of a free identifier, with version one where none is given, and carries the clock of its insert |
| `Lifecycle.StoredPayloadsAreValid` | pkg/services/resource.go:76-161 | in every reachable state every stored payload has passed the validation, although it was checked before other processes stepped |
| `Lifecycle.NeverUndeliveredAgain` | pkg/dao/resource.go:135-147 | in every run an incarnation that has reported or is marked is not selected as undelivered again |
| `Lifecycle.ReportsPossibleIff` | pkg/services/resource.go:196-245 | a row with a status can take another report if and only if the stored identifier lets one in |
| `Lifecycle.StuckStatusStays` | pkg/services/resource.go:196-245 | a status that lets none in stays for as long as its incarnation |
| `Lifecycle.CalmRunsEvolve` | pkg/services/resource.go:103-252 | over runs in which no write to the identifier crosses its versions never fall, payloads change only with versions, the versions of its statuses do not fall and no status is ahead of its row |
| `Lifecycle.StaysBoundedIff` | pkg/services/resource.go:163-252 | a step puts a status ahead of its row if and only if an update that crosses meets a status of a later version than it writes, or a report is of a later version than its row has by then |
| `Lifecycle.AlwaysBoundedIff` | pkg/services/resource.go:163-252 | no status is ahead of its row all along a run if and only if it has no such step |
| `Lifecycle.VersionKeptIff` | pkg/services/resource.go:103-161 | a step takes an incarnation back to an earlier version if and only if an update that crosses writes an earlier one |
| `Lifecycle.PayloadKeptIff` | pkg/services/resource.go:103-161 | its payload changes under an unchanged version if and only if an update that crosses writes that version with another payload |
| `Lifecycle.StatusVersionKeptIff` | pkg/services/resource.go:163-252 | the version of its status falls if and only if a report replaces a status that was ahead of the row it read |
| `Lifecycle.AlwaysEvolvesIff` | pkg/services/resource.go:103-252 | versions, payloads and status versions evolve all along a run if and only if it has none of these steps |
| `Lifecycle.StaysMatchedIff` | pkg/services/resource.go:76-101 | a step leaves somebody about to cross if and only if it creates the row while somebody who has read it has yet to write |
| `Lifecycle.UndisturbedRunsAreCalm` | pkg/services/resource.go:76-252 | no write to an identifier crosses in a run without such a create |
| `Lifecycle.NeverReusedIsUndisturbed` | pkg/services/resource.go:76-101 | an identifier that is not used again has none |
| `Lifecycle.NeverReusedIsBounded` | pkg/services/resource.go:163-252 | so its status is never ahead of its row |
| `Lifecycle.NoLostUpdates` | pkg/services/resource.go:103-161 | over every run the successful updates of an incarnation name consecutive versions, the last one the version before the stored one |
| `Lifecycle.ReachableIsCounted` | pkg/services/resource.go:103-161 | so in every reachable state, for every incarnation |
| `Lifecycle.AddsUpIff` | pkg/services/resource.go:103-161 | a step keeps the stored version the first one of its incarnation and one more for each successful update, if and only if it is no update that crosses to another version than it names |
| `Lifecycle.AlwaysAddsUpIff` | pkg/services/resource.go:103-161 | the same all along a run |
| `Lifecycle.FirstUpdateNamesFirstVersion` | pkg/services/resource.go:103-161 | then the first successful update names the version the row was created with |
| `Serial.StatusCommutes` | pkg/dao/resource.go:55-82 | operations other than reports decide the same and write the same whatever the status column holds, up to a hard delete |
| `Serial.VerdictsAreTold` | pkg/services/resource.go:76-366 | the verdict in the serial order is the one the caller gets |
| `Serial.DecisionActs` | pkg/services/resource.go:103-315 | an operation that decides as its caller is told changes the row at its write as it would alone at that moment |
| `Serial.WriterReplays` | pkg/services/resource.go:103-315 | an update or soft delete whose row was hard deleted under it, placed directly before the removal, is accepted there and changes nothing later |
| `Serial.InsertReplays` | pkg/services/resource.go:163-252 | an accepted report placed where it read, before the writes that happened since, gives the stored row |
| `Serial.MatchesIff` | pkg/services/resource.go:76-366 | a step keeps the serial order faithful to the verdicts, with the stored row as its outcome, if and only if it does not change another incarnation than it read for which its operation would not be accepted |
| `Serial.AlwaysMatchesIff` | pkg/services/resource.go:76-366 | the same all along a run |
| `Serial.RunKeepsSerial` | pkg/services/resource.go:103-315 | the serial order grows with every step by exactly the operation decided |
| `Serial.Serializable` | pkg/services/resource.go:76-366 | every run without such a step ends in the row, with the verdicts the callers got, of a serial order of exactly the same operations: writers at their write or directly before the removal of their row, reports at their read |
| `Serial.SerializableFrom` | pkg/services/resource.go:76-366 | the same from any reachable state in which no report on the row is between its read and its write and whoever is about to update or mark it has its row |
| `Serial.UndisturbedIsSerializable` | pkg/services/resource.go:76-366 | in particular when the identifier is never created while somebody who has read its row has yet to write it |
| `Serial.SerialIsBounded` | pkg/services/resource.go:163-252 | no serial order puts a status ahead of its row |
| `Convergence.OneReport` | pkg/services/resource.go:185-245 | one more report on the row's version leaves the greatest of all seen so far, which may be of earlier versions |
| `Convergence.GreatestIsStored` | pkg/services/resource.go:185-245 | reports on one version from one node, in any order and with duplicates, leave the greatest of them and of what the row held |
| `Convergence.OrderIndependent` | pkg/services/util.go:58-81 | two orders of the same reports leave the same status |
| `Convergence.ConcurrentDeliveryConverges` | cmd/maestro/server/event_server.go:251-270 | so does every concurrent delivery by any number of replicas, from such a state |
| `Delivery.OneHandlerPerEvent` | pkg/controllers/event_filter.go:46-73 | in every reachable state at most one process is inside the handlers of an event under its lock, whatever the hash |
| `Delivery.HandledAtMostOnce` | pkg/controllers/framework.go:130-206 | over every run each event is recorded as done at most once by the locking workers of all replicas |
| `Delivery.StepKeepsSettled` | pkg/controllers/framework.go:244-267 | a reconciled event is never unreconciled again, and no unreconciled event is purged |
| `Delivery.ReconciledForever` | pkg/dao/event.go:85-92 | once settled an event stays settled over every run |
| `Delivery.ReconciliationJustified` | pkg/controllers/framework.go:187-206 | an event becomes reconciled only when each of its handlers returned success to this process, by publishing its request, or because it found no row, or, under a create or update event, one that was soft deleted before; or its resource was found absent; or a stale delete pass that read the clock at `now` retires it, and then it is a delete event with `createdAt < now - threshold` whose stored row has `deletedAt < now - threshold` |
| `Delivery.StalePassIsComplete` | pkg/dao/event.go:127-155 | a stale delete pass that retires fewer than 10000 events leaves no delete event created before its cutoff of a row soft deleted before it |
| `Delivery.OnlyTheseReconcile` | cmd/maestro/server/grpc_broker.go:325-354 | only a save of this event or a stale delete pass that picked it reconciles an event |
| `Delivery.NoResurrection` | pkg/client/cloudevents/source_client.go:66-142 | every published create or update request goes back to a read by the same process that saw the row live, and no soft delete of that incarnation precedes that read |
| `Delivery.DeleteRequestsJustified` | pkg/client/cloudevents/source_client.go:144-173 | every published delete request goes back to a read by the same process that saw the row marked, or is one of the gRPC broker whose event announces another incarnation than the live one it read |
| `Delivery.DeletesLiveRowIff` | cmd/maestro/server/grpc_broker.go:276-289 | a worker goes on to publish the deletion of a live row if and only if it is one of the gRPC broker and the row is live, and then the event announces another incarnation |
| `Limits.StatusCanBeAhead` | pkg/services/resource.go:196-245 | a run in which a re-created row gets a status of a later version than it has; no serial order of any operations gives that row |
| `Limits.VersionCanFall` | pkg/services/resource.go:114-161 | a run in which a late update takes a re-created row back to an earlier version |
| `Limits.StatusCanBeOvertaken` | pkg/services/resource.go:196-245 | a run in which a report lands on the row it read and its status is ahead, because an update crossed in between |
| `Limits.PayloadCanChange` | pkg/services/resource.go:114-161 | a run in which a late update changes the payload under an unchanged version |
| `Limits.StatusVersionCanFall` | pkg/services/resource.go:196-245 | a run in which an accepted report is of an earlier version than the stored status |
| `Limits.LiveRowCanBeDeleted` | cmd/maestro/server/grpc_broker.go:276-289 | a run in which the gRPC broker publishes a delete request for a live row |
| `Limits.RevivedEventsCanBeClose` | pkg/dao/event.go:67-92 | a run that ends with two stored delete events of one incarnation closer than the interval |
| `Limits.PublishCanFollowSoftDelete` | cmd/maestro/server/grpc_broker.go:217-243 | a run in which a create request is published after the soft delete, from an earlier read |
| `Limits.DisabledLeavesSilent` | pkg/services/resource.go:324-330 | with republishing off a completed delete request can leave a marked row that no continuation ever announces |
| `Limits.ThrottledByEarlierIncarnation` | pkg/services/resource.go:324-358 | a run in which a repeated delete request completes throttled and its incarnation was never announced |
| `Limits.EqualTimesCanBeOwn` | pkg/dao/event.go:160-173 | a run after which the latest delete event is as old as the mark and announces its incarnation |
| `Limits.FirstStatusCanStick` | pkg/services/resource.go:196-245 | a first status whose identifier is no number is stored and every later report changes nothing |
| `Limits.EarlierIncarnationsAddUp` | pkg/dao/event.go:131-155 | a run in which an unfilled pass leaves more delete events of an identifier than the bound |
| `Locks.LockTable.Begin` | pkg/db/advisory_locks.go:138-153 | a transaction no one has used, holding nothing |
| `Locks.AdvisoryLock.Unlock` | pkg/db/advisory_locks.go:279-291 | ends the lock's transaction once, a second call does nothing |
| `Locks.WithoutNew` | pkg/db/advisory_locks.go:279-291 | ending a new transaction restores the lock table as it was before it took its key |
| `Locks.LockFactory.KeysCollideIff` | pkg/db/advisory_locks.go:244-245 | two names share a key exactly when both their hashes agree |
| `Locks.LockFactory.NewNonBlockingLock` | pkg/db/advisory_locks.go:114-136 | acquired exactly when nobody holds the key; stored under its owner either way; no other lock is touched |
| `Locks.LockFactory.NewAdvisoryLock` | pkg/db/advisory_locks.go:91-112 | success holds the key for this owner and touches no other lock; failure stores nothing |
| `Locks.LockFactory.Unlock` | pkg/db/advisory_locks.go:156-187 | ends the owner's lock only: every key not held by this owner keeps its holder, an unknown owner changes nothing |
| `Locks.EventFilter.Filter` | pkg/controllers/event_filter.go:46-65 | the event is processed exactly when its key was free, and is then held for the remembered owner |
| `Locks.EventFilter.DeferredAction` | pkg/controllers/event_filter.go:68-73 | the remembered owner's lock is ended and forgotten, and nothing else |
| `Service.Database.SelectStale` | pkg/dao/event.go:131-144 | picks only unreconciled delete events created before the cutoff of stored rows soft deleted before it, at most 10000, and all of them when fewer |
| `Service.Database.RetireStale` | pkg/dao/event.go:131-155 | marks exactly the picked events reconciled and changes nothing else; fewer than 10000 means that no such event is left |
| `Service.Database.FindLatestDelete` | pkg/dao/event.go:160-173 | the greatest creation time among the stored delete events of the resource, or none |
| `Service.ResourceService.Create` | pkg/services/resource.go:76-101 | decides and acts as the operation alone does; a failure leaves nothing, or the row without its event |
| `Service.ResourceService.UpdateRow` | pkg/services/resource.go:114-161 | the same for an update, with its five refusals in order; it answers unless a data access call fails |
| `Service.ResourceService.UpdateStatusOfRow` | pkg/services/resource.go:176-252 | the same for a report; a written status is reported as updated exactly when it was accepted |
| `Service.ResourceService.RepublishDelete` | pkg/services/resource.go:324-358 | announces again exactly when the interval is positive and no stored delete event is younger than it |
| `Service.ResourceService.MarkRow` | pkg/services/resource.go:271-315 | marks and announces a live row, goes the repeated way for a marked one; a failure leaves the row marked at most |
| `Service.ResourceService.Update` | pkg/services/resource.go:103-161 | does so under the resource lock and gives back every lock on every path |
| `Service.ResourceService.UpdateStatus` | pkg/services/resource.go:163-252 | does so under the status lock, touches no event and gives back every lock on every path |
| `Service.ResourceService.MarkAsDeleting` | pkg/services/resource.go:261-315 | does so under the resource lock and gives back every lock on every path |
| `Service.ResourceService.HandleStatusUpdate` | cmd/maestro/server/event_server.go:161-273 | a status event is recorded exactly when the row is removed or its status written; a consumer that does not own the resource changes nothing; no other row changes; what each failure can leave is named, and when no call fails it succeeds exactly for an unknown resource or a report that is not refused |
| `Answers.CreateAnswers` | pkg/services/resource.go:76-101 | in columns: invalid exactly for a bad name or payload, refused exactly for a taken identifier, accepted otherwise with the row as given at the clock of the call and one create event, everything else untouched |
| `Answers.UpdateAnswers` | pkg/services/resource.go:103-161 | in columns, one if-and-only-if per answer: accepted exactly when the row is stored, unmarked, of the expected version, with another payload, and that one valid; then version plus one, the payload and one update event are written and nothing else |
| `Answers.ReportAnswers` | pkg/services/resource.go:163-252 | in columns, one if-and-only-if per answer: written exactly over the same version when it differs and its number is the first or is of the same node and greater; refused, older, same and stale each under its own condition; only the status column of that row changes |
| `Answers.DeleteAnswers` | pkg/services/resource.go:261-358 | in columns: a live row gets the clock of the call as its mark and one delete event; a marked one is announced again only when all its delete events are old enough; disabled exactly for an interval that is not positive |
| `Solo.CreateAlone` | pkg/services/resource.go:76-101 | an uninterrupted create process of the step system ends with the verdict and the tables that the service call promises |
| `Solo.UpdateAlone` | pkg/services/resource.go:103-161 | the same for an update, from the lock to the event |
| `Solo.ReportAlone` | pkg/services/resource.go:163-252 | the same for a status update |
| `Solo.DeleteAlone` | pkg/services/resource.go:261-358 | the same for a delete request, first or repeated, throttled, disabled or with a failing lookup |
| `Solo.StatusUpdateAlone` | cmd/maestro/server/event_server.go:161-273 | the same for a status message: unknown, of another consumer, the removal of the row, or a report |
| `Workers.EventAlone` | pkg/controllers/framework.go:130-206 | an uninterrupted message queue worker of the step system leaves the tables of `Process` and publishes the same requests in the same order |
| `Workers.BrokerAlone` | cmd/maestro/server/grpc_broker.go:325-354 | the same for the gRPC broker; an event whose row is absent is done with at once |
| `Workers.StalePassAlone` | pkg/controllers/stale_delete_detector.go:57-87 | an uninterrupted stale delete pass leaves what `StaleDeleteDetector.Run` promises |
| `Workers.PassAlone` | pkg/controllers/undelivered_detector.go:74-96 | an undelivered pass can add any create and update events its loop comes to |
| `Controllers.KindControllerManager.OnEvent` | pkg/client/cloudevents/source_client.go:66-173 | on success exactly one request is published when the row is live under a create or update event, or marked under a delete event, or live under a delete event of the gRPC broker; none for a missing row or a marked one under a create or update event; the message queue fails on the delete event of a live row, and nothing else fails when no call does |
| `Controllers.KindControllerManager.Process` | pkg/controllers/framework.go:149-206 | the event is saved as reconciled only after every handler succeeded; by then as many requests as handlers were published where the row suits the kind, and none otherwise; no other event changes; without failing calls it is done with exactly when the message queue does not refuse |
| `Controllers.KindControllerManager.HandleEvent` | pkg/controllers/framework.go:130-206 | nothing is done without the event's lock, with it all that `Process` does; the lock is always given back, a finished event no longer waits, no other event changes |
| `Controllers.KindControllerManager.ProcessNext` | pkg/controllers/framework.go:216-242 | every waiting event stays queued, and an event leaves the queue only when it is done with |
| `Controllers.KindControllerManager.SyncEvents` | pkg/controllers/framework.go:244-270 | removes exactly the reconciled events, keeps all others as they are and queues every one of them |
| `Controllers.StaleDeleteDetector.Run` | pkg/controllers/stale_delete_detector.go:57-87 | under the detector lock only unreconciled delete events created before the clock minus the threshold of stored rows soft deleted before it become reconciled, at most 10000, and all of them when fewer; without the lock nothing; the lock is given back |
| `Controllers.UndeliveredDetector.Republish` | pkg/controllers/undelivered_detector.go:74-96 | adds one create or update event, by version, for each found resource and nothing else |
| `Controllers.UndeliveredDetector.Run` | pkg/controllers/undelivered_detector.go:48-97 | after a complete pass every live row without a status, created before the clock minus the threshold, of a known consumer, has an unreconciled event; an event is added only for such a row that had none, one for each; without failing calls a pass is complete exactly when it gets the lock |
| `Batching.CountOneMore` | pkg/client/cloudevents/source_client.go:232-238 | a list that ends in the batch after k full ones has k + 1 batches in all |
| `Batching.Batches` | pkg/controllers/status_controller.go:195-205 | the batches concatenate to the list, all are full but perhaps the last, none is empty, and there are n / size rounded up |
| `Batching.Resync` | pkg/client/cloudevents/source_client.go:204-244 | the sent batches hold at most 1000 hashes, are numbered from one with the announced total n / 1000 rounded up, concatenate to a prefix of the hashes up to the first that cannot be sent, and to all of them otherwise; an empty list sends one empty batch |
| `Batching.SendBatches` | pkg/client/cloudevents/source_client.go:226-243 | the same for any batch size |
| `StatusPurge.AssociatedMeansAll` | pkg/dao/event_instance.go:59-81 | the counting query selects an event exactly when the instance list is not empty, names none twice and all of them recorded the event |
| `StatusPurge.StatusStore.Sync` | pkg/controllers/status_controller.go:164-193 | deletes only events that every given instance recorded; when nothing fails exactly those leave; the records of the events that stay are kept |
| `StatusPurge.StepKeepsGood` | cmd/maestro/server/event_server.go:275-347 | records follow broadcasts, events waiting to be deleted were broadcast by the whole ready set read, and the table holds exactly the issued events that no pass deleted |
| `StatusPurge.PurgeIsSafe` | pkg/controllers/status_controller.go:164-205 | in every run a step after which an event is no longer stored is one of a deleting pass whose next batch, of at most 500, holds it, and every instance of the ready list that pass had read, which is not empty, has broadcast it |
| `StatusPurge.StoredUntilDeleted` | pkg/controllers/status_controller.go:183-189 | in every run an event is stored exactly when it was issued and no pass has deleted it |
| `StatusPurge.RecordsIff` | cmd/maestro/server/event_server.go:275-347 | a record appears exactly when the instance that broadcast the event writes it, and goes exactly with its event or its instance; a broadcast is made exactly by the process that took the event |
| `Dispatcher.HashDispatcher.UpdateConsumerSet` | pkg/dispatcher/hash_dispatcher.go:101-134 | with a non-empty ring each listed consumer is in the set exactly when the ring locates it here, others keep their place, and exactly the gained ones are queued |
| `Dispatcher.HashDispatcher.Check` | pkg/dispatcher/hash_dispatcher.go:152-204 | the ring becomes exactly the instances listed as ready; then each listed consumer is in the set exactly when the ring locates it here; a failed query leaves what depends on it as it was |
| `Dispatcher.HashDispatcher.ProcessNextResync` | pkg/dispatcher/hash_dispatcher.go:208-242 | a consumer leaves the queue only when its resync was sent |
| `Dispatcher.UniqueOwner` | pkg/dispatcher/hash_dispatcher.go:96-98 | replicas that checked the same instances and consumers own each consumer exactly once |
| `Ownership.GainedAreResynced` | pkg/dispatcher/hash_dispatcher.go:101-242 | over every interleaving of update and workers each consumer of the set was resynchronised since it was gained, or a resync is queued, delayed or in progress since then |
| `Ownership.OneConsumer` | pkg/dispatcher/hash_dispatcher.go:101-242 | what one step does to one consumer: when it joins and leaves the set, becomes due, is taken, retried and finished, and that nothing else changes |
| `Ownership.OneWorkerPerConsumer` | pkg/dispatcher/hash_dispatcher.go:208-242 | over every run no consumer is sent by one worker while another one is finishing it |
| `Ownership.CoveredIff` | pkg/dispatcher/hash_dispatcher.go:112-129 | a step keeps every consumer resynchronised by a request that began after it joined, or such a request pending, if and only if it adds none whose resync has begun |
| `Ownership.JoinedAreResynced` | pkg/dispatcher/hash_dispatcher.go:112-129 | so over runs of such steps |
| `Ownership.AlwaysCoveredIff` | pkg/dispatcher/hash_dispatcher.go:112-129 | so all along a run if and only if all its steps are such |
| `Ownership.ResyncCanComeTooEarly` | pkg/dispatcher/hash_dispatcher.go:118-128 | a run in which a consumer joins after its only resync |
| `Search.GetFieldIff` | pkg/db/sql_helpers.go:37-66 | a name is accepted exactly when it is a property access, a column or table.column that is not disallowed, and is only trimmed |
| `Search.TrimIsCore` | pkg/db/sql_helpers.go:38-40 | a trimmed name is what lies between its surrounding blanks, and neither begins nor ends with one |
| `Search.PropertyIsRead` | pkg/db/sql_helpers.go:83-92 | for every x an operator on `properties.x` becomes one on `properties ->> 'x'` |
| `Search.OthersAreNot` | pkg/db/sql_helpers.go:20-34 | no other name is converted |
| `Search.Failures` | pkg/db/sql_helpers.go:104-190 | which wrong operands are an error and which panic |
| `Search.FieldNameWalk` | pkg/db/sql_helpers.go:104-190 | the walk with its operand loop is the recursive rewrite, first failing operand first |
| `Search.SucceedsIff` | pkg/db/sql_helpers.go:104-190 | the rewrite succeeds exactly on trees of supported operand types all of whose names, after property conversion, are allowed, and panics only on trees that have other types |
| `Search.MeaningPreservedIff` | pkg/db/sql_helpers.go:74-190 | the result, read as SQL, is the user's expression with `properties.x` as a left operand read as the property access, if and only if no operator lacks its first operand |
| `Search.ShapePreserved` | pkg/db/sql_helpers.go:104-190 | operators, operand counts and literal kinds stay in place, and a leaf has no right operand |
| `Pager.TokenRoundTrip` | pkg/client/cloudevents/grpcsource/pager.go:76-100 | a page number written into a token is read back |
| `Pager.PageNumberIff` | pkg/client/cloudevents/grpcsource/pager.go:86-100 | the page of a token is one without a token and its number otherwise; what is no number or negative is an error |
| `Pager.FirstListing` | pkg/client/cloudevents/grpcsource/pager.go:22-113 | the first listing is the whole list without a limit, and its first items with a limit of at most a page, with a token exactly when there are more |
| `Pager.ListingIsStretch` | pkg/client/cloudevents/grpcsource/pager.go:41-81 | the requests from an offset on give the rest of the list, or up to the limit where whole pages meet it |
| `Pager.Collect` | pkg/client/cloudevents/grpcsource/pager.go:41-81 | the loop ends and collects what the requests from its page on give |
| `Pager.PageList` | pkg/client/cloudevents/grpcsource/pager.go:22-84 | fails exactly on a bad token or a negative limit; otherwise returns exactly the stretch of its page with the next token exactly when items are left beyond a met limit; without a token and a limit the whole list; the token 0 repeats the first page |
| `Pager.FollowIsComplete` | pkg/client/cloudevents/grpcsource/pager.go:22-84 | following the tokens gives every item from the first page on, once and in order, for every limit |
| `Pager.WithinLimitIff` | pkg/client/cloudevents/grpcsource/pager.go:103-113 | a listing keeps to its limit if and only if the limit is at most a page, a whole number of pages, or no more is left |

## Left out

- Throttle.BacklogBounded: counts the events that announce the stored incarnation, because others are not retired before the row is marked before the cutoff; Throttle.WholeBacklogBounded counts all from then on.
- Lifecycle.CalmRunsEvolve: is stated for runs in which no write to the identifier crosses; Lifecycle.AlwaysEvolvesIff and Lifecycle.AlwaysBoundedIff have the exact steps that spoil it.
- Serial.AlwaysMatchesIff: is about the order that is built; that no other order exists either is shown only for a row whose status is ahead (Serial.SerialIsBounded).
- Service.ResourceService.Create: the generated identifier and whether the name is valid are parameters.
- Service.ResourceService.Update: a lock that is held is an error here where the code waits; the step system waits. The clock stands still within a call; the step system lets it run between any two data access calls.
- Service.ResourceService.UpdateStatus: the same.
- Service.ResourceService.MarkAsDeleting: the same.
- Locks.LockFactory.NewAdvisoryLock: waiting for the key is modelled as failing when it is held; in the step system a process waits. A failing acquisition leaves its transaction open and not stored, as the code does.
- Controllers.UndeliveredDetector.Run: the consumer names are a parameter. In the step system its inserts are widened to any create or update events, so the theorems about runs hold for whatever it selects.
- Pager.PageList: does not model the conversion of limits and pages of 2^31 and more to 32 bits, and assumes that the list does not change between requests and comes in a fixed order.
- SequenceIds.Fields: takes the widths of the snowflake fields and the decimal form as given.
- Batching.Resync: a message that is too large or cannot be sent is one failing send; the listing and hashing of the resources before the loop are not modelled.
- Ownership.GainedAreResynced: leaves out the resync of all consumers on reconnection, which only adds resyncs.
- The REST transaction middleware: data access calls open sessions of their own (pkg/db/db_session/default.go:208-217) and take no part in its transaction, so each is atomic and visible at once, as here.
- The consistent hash ring's placement: some function from the members and a key to a member.
- Work queue rate limits and order: pending sets, with delayed entries added again at any time.
- Manifest validation, hashing, JSON and CloudEvents: payloads and statuses are opaque values with a version, a sequence identifier and a deleted flag.
- 32-bit overflow of resource versions.
- Order-by arguments, label search and related table joins of the search query: easy or resting on parts of gorm that the repository does not show.
- Transports, authentication, REST handlers, metrics, migrations and the command line: plumbing.
