# machine_factory batch ingestion, in Dafny

A model of the ingestion core of the machine_factory service. Machines
report telemetry events in batches, and `MachineEventService.saveBatch` handles each batch in stages:

- it validates every event (duration range, future limit);
- it rewrites the `defectCount == -1` sentinel to null;
- it keeps the first event of each `eventId`;
- it looks up the rows already stored;
- it classifies each stored id as deduped, stale or updated;
- it stamps the survivors with the batch's `now` and writes them with `saveAll`;
- it reports four counters.

The `machine_events` table sits behind `MachineEventRepository`, which provides:

- the per-machine count and sum over a half-open time window;
- the per-line defect ranking;
- the lookup by id;
- the conditional upsert, whose `received_time` never moves backwards.

Two response objects derive fields when they are built:

- `MachineStatsResponse` derives its health status from the average defect rate.
- `LineStatsResponse` derives its defect percentage.

Files (one module each):

| file | module | contents |
|---|---|---|
| `wrappers.dfy` | `Wrappers` | `Option` for a nullable reference; `Outcome` for a call that returns or throws a NullPointerException |
| `entity.dfy` | `Entity` | the eight columns of an event (`EventData`); the entity class `MachineEvent` with its constructor and setters; `Equals`, a model of `MachineEvent.equals` |
| `responses.dfy` | `Responses` | a Java `double` (finite, infinite or NaN); the classes `MachineStatsResponse` and `LineStatsResponse` |
| `repository.dfy` | `Repository` | the table as a map from `eventId` to row; the two aggregate queries as functions over it; the upsert as a function on maps; the class `EventStore`, holding the rows and offering `findByEventId`, `findAllById`, `saveAll` and `upsertEvent` |
| `service.dfy` | `Service` | what a batch does, stated as functions on values (`Screen`, `FirstById`, `Classify`, `ResolvedBatch`, `Reconcile`, `Persist`, `Ingest`) with lemmas about them; the class `MachineEventService`, whose `SaveBatch` and `PersistValidEvents` run the source's loops over the store and are proved to do what those functions say |

Conventions:

- Java `null` is `None`.
- A NullPointerException is the outcome `ThrowsNullPointer`. In that case the table is left as it was, because every place that can throw comes before the only write. Those places are `isAfter` at MachineEventService.java:38, `equals` at line 69 and `isBefore` at line 73; the write is `saveAll` at line 82.
- An `Instant` is an integer number of nanoseconds.
- `durationMs` and `defectCount` are 32-bit `int`s.
- The clock reading `Instant.now()` is the parameter `now`.

## Model

| member | source | states |
|---|---|---|
| Entity.Equals | src/main/java/com/example/machine_factory/entity/MachineEvent.java:108-118 | `equals` is false for null and for another class. It is true exactly when the receiver's `eventTime` and `machineId` are present and all seven columns other than `receivedTime` agree. It throws exactly when the ids agree and the receiver's `eventTime` is null, or the event times agree and the receiver's `machineId` is null |
| Entity.EqualsIgnoresReceivedTime | src/main/java/com/example/machine_factory/entity/MachineEvent.java:113-117 | changing `receivedTime` on either side never changes the result of `equals` |
| Entity.EqualsReflexive | src/main/java/com/example/machine_factory/entity/MachineEvent.java:113-117 | an event with `eventTime` and `machineId` equals itself |
| Entity.EqualsSymmetric | src/main/java/com/example/machine_factory/entity/MachineEvent.java:113-117 | between two events with `eventTime` and `machineId`, `equals` returns on both sides and gives the same answer |
| Entity.MachineEvent.constructor | src/main/java/com/example/machine_factory/entity/MachineEvent.java:25-35 | the eight fields hold exactly the eight arguments |
| Entity.MachineEvent.SetEventId | src/main/java/com/example/machine_factory/entity/MachineEvent.java:41-43 | only `eventId` changes |
| Entity.MachineEvent.SetEventTime | src/main/java/com/example/machine_factory/entity/MachineEvent.java:49-51 | only `eventTime` changes |
| Entity.MachineEvent.SetReceivedTime | src/main/java/com/example/machine_factory/entity/MachineEvent.java:57-59 | only `receivedTime` changes |
| Entity.MachineEvent.SetMachineId | src/main/java/com/example/machine_factory/entity/MachineEvent.java:65-67 | only `machineId` changes |
| Entity.MachineEvent.SetDurationMs | src/main/java/com/example/machine_factory/entity/MachineEvent.java:73-75 | only `durationMs` changes |
| Entity.MachineEvent.SetDefectCount | src/main/java/com/example/machine_factory/entity/MachineEvent.java:81-83 | only `defectCount` changes |
| Entity.MachineEvent.SetLineId | src/main/java/com/example/machine_factory/entity/MachineEvent.java:89-91 | only `lineId` changes |
| Entity.MachineEvent.SetFactoryId | src/main/java/com/example/machine_factory/entity/MachineEvent.java:97-99 | only `factoryId` changes |
| Responses.StatusFor | src/main/java/com/example/machine_factory/dto/MachineStatsResponse.java:18 | the status is null exactly when the rate is null. It is `Healthy` exactly when the rate compares below 2.0, and `Warning` otherwise, including for NaN |
| Responses.StatusThresholds | src/main/java/com/example/machine_factory/dto/MachineStatsResponse.java:18 | a finite rate is `Healthy` below 2.0 and `Warning` from 2.0 up; NaN and +Infinity are `Warning` |
| Responses.MachineStatsResponse.constructor | src/main/java/com/example/machine_factory/dto/MachineStatsResponse.java:12-19 | the counts, machine id, window and rate are stored unchanged, and the status agrees with the rate |
| Responses.MachineStatsResponse.SetAvgDefectRate | src/main/java/com/example/machine_factory/dto/MachineStatsResponse.java:49-52 | the rate is replaced, the status is re-derived so it still agrees with the rate, and the other fields are unchanged |
| Responses.MachineStatsResponse.SetMachineId | src/main/java/com/example/machine_factory/dto/MachineStatsResponse.java:25-27 | sets `machineId`; the rate and status are unchanged, so they still agree |
| Responses.MachineStatsResponse.SetStart | src/main/java/com/example/machine_factory/dto/MachineStatsResponse.java:33-35 | sets `start`; the rate and status are unchanged |
| Responses.MachineStatsResponse.SetEnd | src/main/java/com/example/machine_factory/dto/MachineStatsResponse.java:41-43 | sets `end`; the rate and status are unchanged |
| Responses.MachineStatsResponse.SetEventsCount | src/main/java/com/example/machine_factory/dto/MachineStatsResponse.java:5 | the inherited setter sets `eventsCount`; the rate and status are unchanged |
| Responses.MachineStatsResponse.SetDefectsCount | src/main/java/com/example/machine_factory/dto/MachineStatsResponse.java:5 | the inherited setter sets `defectsCount`; the rate and status are unchanged |
| Responses.RoundedPercent | src/main/java/com/example/machine_factory/dto/LineStatsResponse.java:13 | the percentage rounded to two decimals lies within half a hundredth of the exact `totalDefects * 100 / eventCount` |
| Responses.DefectsPercent | src/main/java/com/example/machine_factory/dto/LineStatsResponse.java:13 | the percentage is present exactly when `eventCount != 0` and `totalDefects` is non-null; when present it is the rounded percentage |
| Responses.PercentNotClamped | src/main/java/com/example/machine_factory/dto/LineStatsResponse.java:13 | 30 defects over 10 events is 300.0 percent: nothing caps the value at 100 |
| Responses.LineStatsResponse.constructor | src/main/java/com/example/machine_factory/dto/LineStatsResponse.java:9-14 | `lineId`, `totalDefects` and `eventCount` are stored unchanged, and `defectsPercent` is derived from them |
| Responses.LineStatsResponse.SetLineId | src/main/java/com/example/machine_factory/dto/LineStatsResponse.java:20-22 | sets `lineId`; `defectsPercent` is not re-derived |
| Responses.LineStatsResponse.SetTotalDefects | src/main/java/com/example/machine_factory/dto/LineStatsResponse.java:28-30 | sets `totalDefects`; `defectsPercent` is not re-derived |
| Responses.LineStatsResponse.SetEventCount | src/main/java/com/example/machine_factory/dto/LineStatsResponse.java:36-38 | sets `eventCount`; `defectsPercent` is not re-derived |
| Responses.LineStatsResponse.SetDefectsPercent | src/main/java/com/example/machine_factory/dto/LineStatsResponse.java:44-46 | sets `defectsPercent` to the given value |
| Repository.SumDefects | src/main/java/com/example/machine_factory/repository/MachineEventRepository.java:23 | SQL `SUM` over the rows is null exactly when every `defect_count` summed is null |
| Repository.GetMachineStats | src/main/java/com/example/machine_factory/repository/MachineEventRepository.java:23-24 | `defectsCount` is null exactly when no row of the machine inside `[start, end)` has a defect count |
| Repository.StatsIgnoreRowOutsideWindow | src/main/java/com/example/machine_factory/repository/MachineEventRepository.java:23 | a new row of another machine, or one outside `[start, end)`, leaves the count and the sum unchanged |
| Repository.StatsCountRowInsideWindow | src/main/java/com/example/machine_factory/repository/MachineEventRepository.java:23 | a new row of the machine inside the window adds one to the count and adds its defect count, if present, to the sum. A null defect count is still counted |
| Repository.StatsWindowIsHalfOpen | src/main/java/com/example/machine_factory/repository/MachineEventRepository.java:23 | a row at exactly `start` is counted; one at exactly `end` changes nothing |
| Repository.RankingCons | src/main/java/com/example/machine_factory/repository/MachineEventRepository.java:26 | a group that may rank first, followed by a ranking of the other groups, is a ranking |
| Repository.RankLines | src/main/java/com/example/machine_factory/repository/MachineEventRepository.java:26-27 | picks the first `k` groups (or all of them): aggregates of distinct groups, ordered by non-null sum, with no larger sum left out |
| Repository.GroupOfListedLineIsNonEmpty | src/main/java/com/example/machine_factory/repository/MachineEventRepository.java:26 | every `GROUP BY` group has at least one row |
| Repository.FindTopDefectLines | src/main/java/com/example/machine_factory/repository/MachineEventRepository.java:26-27 | returns `min(limit, number of line ids)` rows, one per line id, over the factory's rows inside `[from, to)`. Each row's count is its group's size (at least 1) and its total is the group's SQL sum. Non-null totals never increase down the list, and no line left off the page has a larger non-null total than a listed one |
| Repository.TopLinesPercentPresence | src/main/java/com/example/machine_factory/dto/LineStatsResponse.java:13 | built from a ranking row, a `LineStatsResponse` has a percentage exactly when the row's total is non-null |
| Repository.IsNewer | src/main/java/com/example/machine_factory/repository/MachineEventRepository.java:42 | `EXCLUDED.received_time > machine_events.received_time`: a null on either side is never newer, and a time is never newer than itself |
| Repository.Upsert | src/main/java/com/example/machine_factory/repository/MachineEventRepository.java:30-44 | an absent id is inserted. A present id is replaced only when the incoming `received_time` is strictly greater, and a null on either side is never greater. Other rows are never touched |
| Repository.UpsertNeverRegresses | src/main/java/com/example/machine_factory/repository/MachineEventRepository.java:42 | a stored `received_time` never decreases, and a row whose `received_time` is null is never replaced |
| Repository.UpsertIdempotent | src/main/java/com/example/machine_factory/repository/MachineEventRepository.java:34-42 | applying the same upsert twice is the same as applying it once |
| Repository.UpsertAll | src/main/java/com/example/machine_factory/repository/MachineEventRepository.java:30-44 | a sequence of upserts ends with every written id present |
| Repository.UpsertAllKeepsNewest | src/main/java/com/example/machine_factory/repository/MachineEventRepository.java:42 | after any sequence of upserts to one id with explicit times, the row is the original or one of the writes, and it carries the greatest `received_time` of them all |
| Repository.UpsertOrderIndependent | src/main/java/com/example/machine_factory/repository/MachineEventRepository.java:42 | with distinct `received_time`s, the same upserts in any order leave the same row |
| Repository.SavedAll | src/main/java/com/example/machine_factory/service/MachineEventService.java:82 | `saveAll` removes no row, and the last event written is stored exactly as given, whatever row its id held before |
| Repository.SavedAllKeys | src/main/java/com/example/machine_factory/service/MachineEventService.java:82 | `saveAll` adds the ids of the events it writes and removes none |
| Repository.SavedAllStores | src/main/java/com/example/machine_factory/service/MachineEventService.java:82 | with distinct ids, `saveAll` leaves each event under its own id |
| Repository.SavedAllKeepsOthers | src/main/java/com/example/machine_factory/service/MachineEventService.java:82 | `saveAll` leaves every row with an id it does not write as it was |
| Repository.EventStore.FindByEventId | src/main/java/com/example/machine_factory/repository/MachineEventRepository.java:20-21 | returns the row with that id exactly when one is stored, and empty otherwise |
| Repository.EventStore.FindAllById | src/main/java/com/example/machine_factory/service/MachineEventService.java:64 | returns the stored rows among the requested ids, each once and as stored, in an unspecified order |
| Repository.EventStore.SaveAll | src/main/java/com/example/machine_factory/service/MachineEventService.java:82 | overwrites each event under its id, unconditionally, in list order |
| Repository.EventStore.UpsertEvent | src/main/java/com/example/machine_factory/repository/MachineEventRepository.java:29-44 | the table after the call is `Upsert` of the table before it |
| Service.Normalize | src/main/java/com/example/machine_factory/service/MachineEventService.java:43-45 | a `defectCount` of -1 becomes null; every other event is unchanged |
| Service.Validate | src/main/java/com/example/machine_factory/service/MachineEventService.java:34-46 | a duration outside `[0, 21600000]` is `INVALID_DURATION` whatever the event time. Otherwise a null event time throws. Otherwise the event is `FUTURE_EVENT_TIME` exactly when its time is after `now` + 15 minutes, and accepted, normalised, exactly when it is not |
| Service.DurationBoundaries | src/main/java/com/example/machine_factory/service/MachineEventService.java:34-37 | durations 0 and 21600000 are accepted; -1, -100, 21600001 and 30000000 are rejected as `INVALID_DURATION` |
| Service.FutureBoundary | src/main/java/com/example/machine_factory/service/MachineEventService.java:38-41 | an event time of exactly `now` + 900 s is accepted; one nanosecond later is `FUTURE_EVENT_TIME` |
| Service.DurationCheckedFirst | src/main/java/com/example/machine_factory/service/MachineEventService.java:34-41 | a bad duration is reported as `INVALID_DURATION`, even for a future or null event time |
| Service.Screen | src/main/java/com/example/machine_factory/service/MachineEventService.java:33-48 | when the loop completes, the valid and rejected lists together are as long as the input. Every valid event has an in-range duration, no -1 sentinel, and a non-null time no later than `now` + 15 minutes |
| Service.ScreenThrows | src/main/java/com/example/machine_factory/service/MachineEventService.java:38 | the loop throws exactly when some event has a valid duration and a null event time |
| Service.Positions | src/main/java/com/example/machine_factory/service/MachineEventService.java:33-48 | the positions of accepted (or of rejected) inputs are strictly increasing and in range |
| Service.PositionsMembers | src/main/java/com/example/machine_factory/service/MachineEventService.java:33-48 | a position is listed exactly when validation returns the wanted verdict there |
| Service.ScreenKeepsValidOrder | src/main/java/com/example/machine_factory/service/MachineEventService.java:42-46 | the k-th valid event is the normalised k-th accepted input |
| Service.ScreenKeepsRejectionOrder | src/main/java/com/example/machine_factory/service/MachineEventService.java:34-41 | the k-th rejection carries the id and the reason of the k-th rejected input, in input order |
| Service.ScreenPartitions | src/main/java/com/example/machine_factory/service/MachineEventService.java:33-48 | every input position is accepted or rejected, never both |
| Service.ScreenStable | src/main/java/com/example/machine_factory/service/MachineEventService.java:38 | validating at a later `now` gives the same result, unless an event time crosses the future limit in between |
| Service.FirstById | src/main/java/com/example/machine_factory/service/MachineEventService.java:58-61 | the deduplicated batch has exactly the ids of the valid events, and each id holds a valid event of that id |
| Service.IdsOfSize | src/main/java/com/example/machine_factory/service/MachineEventService.java:58-61 | a list has no more distinct ids than elements |
| Service.FirstByIdKeepsFirst | src/main/java/com/example/machine_factory/service/MachineEventService.java:60 | `putIfAbsent` keeps the first occurrence of each id; later ones are dropped |
| Service.Classify | src/main/java/com/example/machine_factory/service/MachineEventService.java:68-77 | the verdict for one stored row. It is a duplicate exactly when `stored.equals(incoming)`. It is stale only when both times are present and the incoming one is strictly earlier. It throws only when `equals` throws or an explicit incoming time meets a null stored one. `ClassifyCases` gives every case in both directions |
| Service.ClassifyCases | src/main/java/com/example/machine_factory/service/MachineEventService.java:67-78 | a stored id is a duplicate exactly when `stored.equals(incoming)`. It is stale exactly when it is not equal and the incoming time is explicit and strictly earlier than the stored one. It is an update when it is not equal and the incoming time is null or not earlier. It throws when `equals` throws, or when an explicit incoming time meets a null stored time |
| Service.NullMachineIdBreaksResubmission | src/main/java/com/example/machine_factory/entity/MachineEvent.java:113-114 | a stored row with a null `machineId` throws when compared with the same event again |
| Service.SurvivorsIn | src/main/java/com/example/machine_factory/service/MachineEventService.java:71-74 | the survivors are entries of the batch, unchanged |
| Service.Stamp | src/main/java/com/example/machine_factory/service/MachineEventService.java:81 | every survivor is stamped with `receivedTime = now`, whatever time it carried; the other columns are unchanged |
| Service.ResolvedBatch | src/main/java/com/example/machine_factory/service/MachineEventService.java:64-78 | classifying the whole batch throws exactly when comparing some stored id of the batch throws. Otherwise the survivors are unchanged entries of the batch, and every id new to the table survives |
| Service.Reconcile | src/main/java/com/example/machine_factory/service/MachineEventService.java:64-92 | resolving, stamping, writing and counting a deduplicated batch. Afterwards the table holds exactly the old ids plus the batch's ids, and `rejected` is the length of the rejection list |
| Service.Persist | src/main/java/com/example/machine_factory/service/MachineEventService.java:53-93 | what `persistValidEvents` yields. When it returns, the response carries the rejections it was given, and the table holds exactly the old ids plus the ids of the valid events |
| Service.PersistResolved | src/main/java/com/example/machine_factory/service/MachineEventService.java:53-93 | `persistValidEvents` throws exactly when classifying the deduplicated batch throws. Otherwise it reports `accepted = survivors - updated` and the rejections, and leaves the table overlaid with the stamped survivors |
| Service.Ingest | src/main/java/com/example/machine_factory/service/MachineEventService.java:27-51 | `saveBatch` throws exactly when validation throws or persisting the valid events throws |
| Service.ClassificationKeys | src/main/java/com/example/machine_factory/service/MachineEventService.java:64-67 | the ids classified are exactly the batch's ids that have a stored row |
| Service.ResolutionPartitions | src/main/java/com/example/machine_factory/service/MachineEventService.java:67-78 | when nothing throws, each classified id is exactly one of duplicate, stale or update |
| Service.SurvivorKeys | src/main/java/com/example/machine_factory/service/MachineEventService.java:67-82 | the survivors are exactly the ids new to the table plus the updated ids |
| Service.SurvivorsCount | src/main/java/com/example/machine_factory/service/MachineEventService.java:84 | there are as many survivors as new ids and updated ids together |
| Service.BatchSplits | src/main/java/com/example/machine_factory/service/MachineEventService.java:63-64 | every id of the batch is either new to the table or already stored |
| Service.ReconcileCounters | src/main/java/com/example/machine_factory/service/MachineEventService.java:84-92 | `accepted` is the number of ids new to the table. `deduped + updated + stale` is the number of stored ids in the batch. `accepted >= 0`, and `accepted + deduped + updated` is at most the batch size |
| Service.PersistCounters | src/main/java/com/example/machine_factory/service/MachineEventService.java:58-92 | the three counters add up to at most the number of distinct valid ids, and so to at most the number of valid events |
| Service.IngestCounters | src/main/java/com/example/machine_factory/service/MachineEventService.java:27-92 | `accepted >= 0`, `rejected` is the length of the rejection list, and `accepted + deduped + updated + rejected` is at most the number of input events |
| Service.SurvivorsAreNewOrUpdated | src/main/java/com/example/machine_factory/service/MachineEventService.java:67-78 | an id of the batch survives exactly when it is new to the table or classified as an update |
| Service.ReconcileWrites | src/main/java/com/example/machine_factory/service/MachineEventService.java:81-82 | afterwards the table holds the old ids plus the batch's ids. Every new or updated id holds its event stamped with `now`. Every other stored row is unchanged |
| Service.BatchCanMoveReceivedTimeBack | src/main/java/com/example/machine_factory/service/MachineEventService.java:81-82 | an update stamped with a `now` earlier than the stored `receivedTime` is written anyway, although the upsert would have kept the stored row |
| Service.ValidEventsResubmittable | src/main/java/com/example/machine_factory/service/MachineEventService.java:42-46 | when no input carries a `receivedTime` and each has a machine id, every deduplicated valid event has no `receivedTime`, an event time and a machine id |
| Service.StampedCopyMatches | src/main/java/com/example/machine_factory/service/MachineEventService.java:69 | such an event is a duplicate of its own stamped copy |
| Service.WrittenEventMatches | src/main/java/com/example/machine_factory/service/MachineEventService.java:67-82 | after a batch is written, each of its resubmittable events is a duplicate of its stored row |
| Service.WrittenBatchMatchesItself | src/main/java/com/example/machine_factory/service/MachineEventService.java:67-82 | after a batch of resubmittable events is written, every event of it is a duplicate of its stored row |
| Service.AllDuplicatesResolve | src/main/java/com/example/machine_factory/service/MachineEventService.java:67-78 | when every event duplicates its stored row, nothing survives, all are deduped and none is updated |
| Service.AllDuplicatesWriteNothing | src/main/java/com/example/machine_factory/service/MachineEventService.java:67-92 | such a batch leaves the table as it was and reports 0 accepted, every id deduped, and 0 updated |
| Service.ResubmissionIsDeduplicated | src/test/java/com/example/machine_factory/service/MachineEventServiceTest.java:46-76 | sending the same batch again leaves the table unchanged, with 0 accepted and 0 updated, one dedup per distinct valid id, and the same rejections. This holds for events with no `receivedTime` and a machine id, none crossing the future limit in between |
| Service.MachineEventService.constructor | src/main/java/com/example/machine_factory/service/MachineEventService.java:23-25 | the service holds the repository it is given |
| Service.MachineEventService.SaveBatch | src/main/java/com/example/machine_factory/service/MachineEventService.java:27-51 | the validation loop, then `PersistValidEvents`. The response and the new table are those `Ingest` describes; on an exception the table is unchanged |
| Service.MachineEventService.SaveStamped | src/main/java/com/example/machine_factory/service/MachineEventService.java:81-82 | the table afterwards is the old table overlaid with the survivors stamped with `now` |
| Service.MachineEventService.PersistValidEvents | src/main/java/com/example/machine_factory/service/MachineEventService.java:53-93 | deduplicates, looks up, classifies, stamps, writes and counts. The response and the new table are those `Persist` describes; on an exception the table is unchanged |
| Service.KeepFirstById | src/main/java/com/example/machine_factory/service/MachineEventService.java:58-61 | the `putIfAbsent` loop builds `FirstById` of the valid events |
| Service.ResolveStored | src/main/java/com/example/machine_factory/service/MachineEventService.java:66-78 | the loop over the stored rows, in whatever order they come, throws or yields the same survivors and counters as the classification of the whole batch |
| Service.ResolveOne | src/main/java/com/example/machine_factory/service/MachineEventService.java:68-77 | one turn of the loop throws exactly when the id's classification does. Otherwise it extends the accumulated survivors and counters to one more id |
| Service.StampAll | src/main/java/com/example/machine_factory/service/MachineEventService.java:81 | lists every survivor once, stamped with `now` |
| Service.SavedStampedSurvivors | src/main/java/com/example/machine_factory/service/MachineEventService.java:81-82 | saving the stamped survivors, in any order, overlays them on the table |

## Left out

- `MachineEvent`'s no-argument constructor (line 22) and its getters and `toString`: they hold no logic.
- A null `eventId`: the key column is a non-null string in this model. Rows whose other columns are null are modelled.
- Null elements in the input list, and a null list: the input is a sequence of event values.
- Service.MachineEventService.SaveBatch: works on event values. The in-place mutation of the caller's objects (the `-1` sentinel at line 44 and the stamp at line 81) and any aliasing between them are not captured. The store's contents and the response are.
- Service.MachineEventService.PersistValidEvents: the order in which `HashMap` hands the survivors to `saveAll` is left unspecified. The result does not depend on it because the ids are distinct.
- The `@Transactional` proxy is not modelled. A self-invocation from `saveBatch` bypasses it anyway. The model needs no rollback, because no write comes before a place that can throw (see Conventions).
- Concurrency: batches racing on the same ids, and the database's per-row atomicity of `ON CONFLICT`. The order-independence of the upsert is stated instead.
- The store failing or timing out: the repository is a map that always answers.
- The wall clock: `Instant.now()` is the parameter `now`.
- `Instant` overflow in `now.plusSeconds(900)` and microsecond truncation by the database: instants are unbounded integers.
- `int` overflow of the counters: they are unbounded integers, and a batch of more than 2^31 events is out of reach.
- Responses.RoundedPercent: computed exactly on rationals. It does not model double rounding error in `Math.round(x * 100.0 / n * 100.0) / 100.0`, only the bound of half a hundredth, because floating point is not modelled.
- Responses.StatusFor: the rate is an abstract double (finite, ±Infinity or NaN), and its value is not computed here.
- `MachineStatsService` (the rate `defectsCount / hours`), the HTTP controllers and Spring wiring are not part of this model.
- `MachineEventsBatchResponse`, `MachineEventRejected` and `MachineStatsQueryResult` are plain data holders. They are the datatypes `BatchResponse`, `Rejection` and `StatsQueryResult`.
- Service.ResubmissionIsDeduplicated: the table here stores instants exactly, but the database keeps only microseconds. The program deduplicates a resubmission only when its event times are already at microsecond precision. With a finer event time, the stored row no longer equals the resubmitted event (MachineEvent.java:113), so the event counts as updated (MachineEventService.java:72-76), not deduped.
- Repository.FindTopDefectLines: does not fix where a null sum is placed under `ORDER BY ... DESC`, nor the order of ties, because both are defined by the database. `Pageable` is a plain `limit`.
- `findAllById` and `saveAll` as Spring Data implements them (batching, the persistence context): `EventStore.FindAllById` and `EventStore.SaveAll` give their effect on the table.

## Behaviour of the code as written

- The repository declares a conditional write, `upsertEvent` (MachineEventRepository.java:29-44). It refuses an incoming `received_time` that is not newer than the stored one (line 42). The batch path never calls it: it writes the survivors with an unconditional `saveAll` (MachineEventService.java:82). The model follows the code. `Service.BatchCanMoveReceivedTimeBack` shows an update whose `receivedTime` moves backwards, which the upsert (`Repository.UpsertNeverRegresses`) would have refused.
- An explicit `receivedTime` on an incoming event is used only to classify it as stale (line 73). Every survivor is then stamped with `now` whatever time it carried (line 81), and the model does the same (`Service.Stamp`).
- `equals` dereferences the stored row's `eventTime` and `machineId` without a null check. A stored row with a null `machineId` therefore makes resubmitting the same event throw a NullPointerException (`Service.NullMachineIdBreaksResubmission`). Likewise, an explicit incoming `receivedTime` compared with a null stored one throws (`Service.ClassifyCases`). The model keeps both exceptions.
