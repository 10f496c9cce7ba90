# NF Compose: what its moving parts guarantee

NF Compose keeps data series, tells consumers about changes, and lets a client library carry whole definitions from
one installation to another. This project models the parts of it that hold state or whose guarantees span several
functions, and proves what each promises, over all inputs and all runs.

- **Synchronizing definitions** (`ListDiff`, `Definitions`, `Api`, `PushSpec`, `Pushing`, `Convergence`). The client
  diffs two sets of definitions and replays the difference against a server in fixed phases. The server is a class that
  answers every request and refuses illegal ones; the pusher is the client's own loops. The main result,
  `Convergence.Synchronize`, says when all requests of a push are accepted and what the server then holds.
- **Data points** (`DataPoints`, `Batches`). The diff of two lists of points, and the batches they are pushed in.
- **Event delivery** (`Events`, `Consumers`, `EventRuns`, `EventLedger`, `EventPromise`, `EventOrder`, `EventBackoff`,
  `EventDrain`, `EventOverlaps`). The sending loop, its retries and backoff, the heartbeat around it and the clean-up
  are methods of `Consumers.EventConsumer`, and each of them is proved to be a step of the runs the theorems are
  about. `EventRuns` shows that a whole call only ever attempts the first of the events it found that are still
  pending, so that an invariant needs to be checked for one event at a time. A run may contain calls that are cut off:
  their transaction is rolled back, the requests they made are not. `EventOverlaps` lets events arrive and rows be
  cleaned up while a call is under way, and shows that this leads to no other worlds.
- **Pages** (`Pagination`, `Reading`). The server's window and links, and a client that follows them while rows come
  and go between its requests.
- **Semaphore** (`Semaphores`). The Redis counter, for one user and for all users interleaved command by command; what
  one user does is proved to be a sequence of these commands.
- **Jobs** (`Jobs`, `JobRuns`). The queue and its single worker, and many workers and clients that may crash anywhere;
  what the single worker does is proved to be a sequence of their steps.
- **Permissions** (`Permissions`). The query for the objects a user may access, and the set it should compute.

Some promises hold only under a condition. Each of these is stated as an equivalence, with a case that shows the
failure:

- A push is accepted exactly if none of these holds, and then everything converges:
  - an index stays on a dimension whose reference changes: the dimension has to be deleted and created again, and the
    server refuses to delete an element an index points at;
  - something changes about a data series that is locked or on a deprecated backend, its grants included;
  - a data series is to be created on, or moved to, a deprecated backend;
  - a data series changes its backend, more is to be written to it, and its data are still being moved when the next
    request for it arrives.
- Every event is delivered at least once, or still pending, in every run exactly if retries are not limited;
  README.md:60 of the repository promises it without the condition, and the model follows the code. No event is
  delivered twice exactly if no call is cut off: the heartbeat sends up to a hundred events in one outer transaction
  (skipper/skipper/dataseries/tasks/event.py:38-46), and what rolls it back makes delivered events pending again.
- What a 429 asks for is kept exactly if no call is cut off, for the same reason.
- The previous link of the paginator's own reverse query is right for the second page only.
- The semaphore keeps its limit only if `nx` is set, release is not interrupted, and the key outlives its holders.
- The permission query needs at least one codename. With globally accepted permissions it takes one group permission for
  all that are left if two or more are.
- Heartbeat jobs are unique because of the unique column; the check before the insertion alone would not do.

How the code is read:

- The two copies of the bucket, delete and create loops in the pusher (structure elements and simple children) are one
  method here. Groups are named instead of numbered. The first refused request ends a push, as the client raises on it.
- The rules the server applies are those of its views and serializers under `skipper/skipper/dataseries`. Ids of
  structure elements are compared with those of every kind but file facts, as the server does; a well-formed target
  uses an id for one element only. Names, ids and extra configurations are taken to pass the checks on their form, the
  user to have the permissions the requests need, and the server not to be in maintenance mode.
- A data series is locked while its data move to another backend, and a task unlocks it when it is done. `slow` names
  those for which that takes until the next request for them; every other one is open again by then. One that is locked
  at the start of a push stays so.
- Nobody else writes to the server during a push. The pusher puts urls into the operations it is given
  (client/compose_client/library/service/pusher.py:142, 153), so that a list of diffs can be pushed once; here payloads
  are values and the list stays as it is.
- A call works off the list of events it took when it began. An event that another transaction inserts meanwhile counts
  as arriving after that call: whether an event had arrived when another one was attempted is asked for the start of
  the call.
- Clocks, endpoint answers and whether a job raises are arbitrary. The clock never goes back. An answer below status 400
  is a delivery; a 429 may carry a Retry-After in seconds (section 10.2.3 of RFC 9110), which may be any integer.
- Event ids are assigned in increasing order, so the sub clock, which follows the id in the ordering, never decides. The
  logs of attempts and arrivals are ghost state that records what happened.
- Ids of rows are integers in the order of the table, and links carry ids the server encoded.
- A worker whose job raises and a worker that crashes leave the same table behind, so they are one step. A client's
  check for a heartbeat job and its insertion are two.
- The user permission table has one row per user, object and permission, as its unique constraint demands.

`dafny verify dfyconfig.toml` checks the whole project.

## Model

| member | source | states |
|---|---|---|
| `ListDiff.ListDiffDataSeriesChild` | client/compose_client/library/service/diff.py:45-110 | the emitted operations are exactly those each id needs: a deletion, a creation, an update, or a deletion before a creation where the check asks for it |
| `ListDiff.PlannedOps` | client/compose_client/library/service/diff.py:67-110 | for each id, whether it is deleted, created or updated and with what payload, by what the two sides have for it |
| `ListDiff.LastEntryWins` | client/compose_client/library/service/diff.py:53-54 | of several entries with one id the last one counts |
| `ListDiff.OnlyListedIds` | client/compose_client/library/service/diff.py:53-54 | no other ids are looked at |
| `ListDiff.ListDiffRoundTrip` | client/compose_client/library/service/diff.py:45-110 | performed on base, any such list is accepted request by request and gives target (or base overridden by target when missing entries stay); it is empty exactly if nothing changes |
| `ListDiff.PushOrderPreservesMeaning` | client/compose_client/library/service/pusher.py:83-99 | working a list off as deletions, creations, updates gives the same state as list order and is accepted by the server exactly when list order is |
| `ListDiff.AcceptedInOrder` | client/compose_client/library/service/pusher.py:138-158 | a list with the diff's shape is accepted step by step exactly if every creation is for an absent or previously deleted id and every other request for a present one |
| `ListDiff.PerformAllSettles` | client/compose_client/library/service/pusher.py:78-99 | the final value of an id depends only on the operations that name it |
| `ListDiff.DeletionsFirst` | client/compose_client/library/service/pusher.py:269-313 | the deletions may run as a batch of their own before everything else without changing the result |
| `Definitions.GroupPermissionsDiff` | client/compose_client/library/service/diff.py:149-205 | groups get an operation exactly if their permission lists differ, a reordered list included; without revoking the payload is the union with base |
| `Definitions.DiffDataSeries` | client/compose_client/library/service/diff.py:208-348 | for every combination of present and absent sides and options, each of the nine kinds, the indexes, consumers and groups gets exactly the operations due |
| `Definitions.ChildOps` | client/compose_client/library/service/diff.py:113-133 | a child that stays is deleted and created again exactly if it is a dimension with another reference or an index with other targets; every other changed child, consumers included, is updated with what target has; what only base has is deleted as the options say |
| `Definitions.SeriesOps` | client/compose_client/library/service/diff.py:238-348 | the series is deleted, created or updated exactly by which sides have it and whether its own fields differ |
| `Definitions.GroupOps` | client/compose_client/library/service/diff.py:149-205 | which operation each group gets and whom its payload names, by its permission lists on the two sides |
| `Definitions.DiffAllDataSeries` | client/compose_client/library/service/diff.py:351-387 | one diff per id of either side, each the diff of that id |
| `Api.Server.DeleteSeries` | skipper/skipper/dataseries/views/metamodel/data_series.py:133-173 | a DataSeries goes exactly if it is open to changes and no dimension of another one refers to it; its children go with it |
| `Api.Server.PostSeries` | skipper/skipper/dataseries/serializers/metamodel/data_series.py:331-335 | a DataSeries is created exactly if its id is new and its backend is not deprecated |
| `Api.Server.PatchSeries` | skipper/skipper/dataseries/serializers/metamodel/data_series.py:337-350 | a DataSeries is changed exactly if it is open and the new backend is not deprecated; a change of backend locks it |
| `Api.Server.PutPermissions` | skipper/skipper/dataseries/views/contract.py:158-170 | the grants of a group are replaced exactly if the series is neither locked nor on a deprecated backend and the group is known |
| `Api.Server.DeleteItem` | skipper/skipper/dataseries/views/metamodel/structure.py:91-100 | a child goes exactly if its series is open to changes and, for a structure element, no index points at it |
| `Api.Server.PostItem` | skipper/skipper/dataseries/serializers/metamodel/base_data_series_child.py:47-70 | refused exactly if the series is closed, the id is taken by the same kind or by any element other than a file fact, or a reference or index target is missing |
| `Api.Server.PatchItem` | skipper/skipper/dataseries/serializers/metamodel/dimension.py:53-62 | refused exactly if the series is closed, or the patch would change a dimension's reference or an index's targets |
| `Api.Rules` | skipper/skipper/dataseries/views/metamodel/structure.py:91-100 | what closes a series, what keeps a series or an element from being deleted, and what a creation or a patch needs, in terms of the stored children |
| `Pushing.DiffPusher.Bucket` | client/compose_client/library/service/pusher.py:83-92 | the three buckets hold the operations of each kind in order |
| `PushSpec.PickedSnoc` | client/compose_client/library/service/pusher.py:83-92 | a bucket has the operations of its kind in the order of the list |
| `Pushing.DiffPusher.SendDeletes` | client/compose_client/library/service/pusher.py:94-99 | succeeds exactly if every deletion is legal, and then removes just those children |
| `Pushing.DiffPusher.DeleteChildren` | client/compose_client/library/service/pusher.py:220-238 | the same for the operations of one child type |
| `Pushing.DiffPusher.ToPayload` | client/compose_client/library/service/pusher.py:138-153 | a dimension's reference is replaced by the url of the series it names, and fails only if that series does not exist |
| `Pushing.DiffPusher.SendCreates` | client/compose_client/library/service/pusher.py:138-147 | succeeds exactly if every creation fits what is stored and the creations before it, and then writes just their payloads |
| `Pushing.DiffPusher.SendUpdates` | client/compose_client/library/service/pusher.py:149-158 | succeeds exactly if every update fits what is stored, and then writes just their payloads |
| `Pushing.DiffPusher.CreateUpdateChildren` | client/compose_client/library/service/pusher.py:121-158 | creations before updates of one group of children, with the exact condition for success |
| `Pushing.DiffPusher.DeleteForDiff` | client/compose_client/library/service/pusher.py:269-284 | indexes, then elements, then consumers of one series are deleted; succeeds exactly if the series is open to changes and no index that stays points at a deleted element |
| `Pushing.DiffPusher.DeletePhase` | client/compose_client/library/service/pusher.py:269-284 | all deletions of all series, skipping created ones, with the exact condition |
| `Pushing.DiffPusher.MigrateBareDataSeries` | client/compose_client/library/service/pusher.py:180-218 | series are deleted, created, updated; succeeds exactly if each id is absent or present as needed, nothing refers to a deleted series, no deleted or updated one is locked or on a deprecated backend, and none is put on one; series that change their backend are locked afterwards |
| `Pushing.DiffPusher.WriteForDiff` | client/compose_client/library/service/pusher.py:300-313 | elements and consumers, then indexes, of one series, with the exact condition |
| `Pushing.DiffPusher.WritePhase` | client/compose_client/library/service/pusher.py:297-313 | all creations and updates of all series, skipping deleted ones; succeeds exactly if those of each series fit |
| `Pushing.DiffPusher.PermissionPhase` | client/compose_client/library/service/pusher.py:315-341 | planned permissions replace the group's, permission deletions are ignored; succeeds exactly if every group is known and every series open |
| `Pushing.DiffPusher.Push` | client/compose_client/library/service/pusher.py:267-341 | for any well-formed diffs: all requests are accepted exactly if every phase fits what the phases before it leave, and then the server ends in the described state; whether or not it succeeds, while it removes there are only children that were there before, and while it writes only ones that are kept or written |
| `Convergence.Synchronize` | client/compose_client/library/service/pusher.py:267-341 | diffing what the server holds against a well-formed target and pushing succeeds exactly if no index is kept on a dimension whose reference changes and no series is blocked; then every series, child and grant ends as target and options say; and after every single request, also of a push that fails, ids are unique across all nine kinds if they were at the start |
| `Convergence.UniqueThroughout` | client/compose_client/library/service/pusher.py:267-313 | what the phases of a push hold on their way never gives two elements of a series, of whichever of the nine kinds, one id |
| `Convergence.KeptAndWrittenApart` | client/compose_client/library/service/diff.py:113-133 | the elements that stay and the ones that are written share no id, also when an id moves from one kind to another, file facts included |
| `Convergence.Expected` | client/compose_client/library/service/diff.py:351-387 | the requests of a full diff all fit, for every phase, exactly outside the refused cases; whatever state they lead to is the expected one |
| `Convergence.Mirrors` | client/compose_client/library/service/diff.py:351-387 | with the deleting options the server ends with exactly the target; without them what target does not name stays as it was; grants are replaced or extended as the options say |
| `Convergence.RediffIsEmpty` | client/compose_client/library/service/diff.py:351-387 | after a full push a second diff has no operation on any series, element, index or consumer |
| `Convergence.MovedDimensionRefused` | client/compose_client/library/service/diff.py:113-133 | the refused case exists between two well-formed definitions |
| `Convergence.DeprecatedRefused` | skipper/skipper/dataseries/serializers/metamodel/data_series.py:331-350 | between any two different backends of which one is deprecated, two well-formed definitions cannot be synchronized |
| `Convergence.StillMovingRefused` | skipper/skipper/dataseries/serializers/metamodel/data_series.py:270-279 | two well-formed definitions that differ in backend and a fact are synchronized or not, depending on whether the data have moved in time |
| `Convergence.BlockedRefused` | skipper/skipper/dataseries/views/contract.py:158-170 | a blocked DataSeries makes a request of the push fail, in whichever phase it is |
| `Convergence.NothingRefers` | skipper/skipper/dataseries/views/metamodel/data_series.py:133-173 | once the first phase is over nothing refers to a DataSeries that is to be deleted |
| `Convergence.IndexDropped` | client/compose_client/library/service/diff.py:113-133 | if no index is kept on a moved dimension, every index on a deleted element is deleted as well, so elements are free when they go |
| `Convergence.ReferenceSurvives` | client/compose_client/library/service/diff.py:131-133 | a dimension that is not deleted refers to a series that is not deleted |
| `Convergence.CreateReady` | client/compose_client/library/service/pusher.py:138-147 | when a child is created its id is free across all nine kinds, also for ids that move from one kind to another, and its reference exists, cyclic references included |
| `Convergence.IndexReady` | client/compose_client/library/service/pusher.py:309-313 | when an index is created all its targets exist |
| `DataPoints.DiffDatapointList` | client/compose_client/library/service/diff.py:794-846 | duplicates in base, then in target, are always refused; file-like facts are refused exactly if some id is common; otherwise the list is a point diff |
| `DataPoints.PointDiffIsExact` | client/compose_client/library/service/diff.py:829-846 | a point diff is accepted by base, gives target, and is empty exactly if the two are equal |
| `DataPoints.PointDiffIsMinimal` | client/compose_client/library/service/diff.py:829-846 | no other list of operations from base to target is shorter |
| `DataPoints.IdsCount` | client/compose_client/library/service/diff.py:814-827 | comparing the sizes of list and id set finds duplicates |
| `Batches.Push` | client/compose_client/library/service/pusher.py:576-610 | the posted batches concatenate to the input, all of the batch size but the last; a size below one fails before anything is posted, unless there is no data |
| `Batches.DrainChunk` | client/compose_client/library/service/pusher.py:525-528 | one chunk takes the next elements of the shared iterator, as many as fit |
| `Batches.BatchCount` | client/compose_client/library/service/pusher.py:521-530 | there are as many batches as the quotient rounded up |
| `Batches.BatchAt` | client/compose_client/library/service/pusher.py:525-528 | the k-th item is in the batch, and at the place in it, that its index says |
| `Consumers.EventConsumer.DataPointEvent` | skipper/skipper/dataseries/models/event.py:124-145 | an event enters NEW with a fresh id |
| `Consumers.EventConsumer.HandleEvent` | skipper/skipper/dataseries/models/event.py:234-325 | one event is left alone if not due, delivered, or failed with retries, cycle, handle_at and state as specified |
| `Consumers.HandledFields` | skipper/skipper/dataseries/models/event.py:236-325 | what that means for each field: handle_at after a 429 is the end of the request plus the seconds it names or the configured delay, after another failure the end plus the delay if the cycle is full and unchanged if not; counters, cycles, state and log follow |
| `Consumers.EventConsumer.TrySendEvents` | skipper/skipper/dataseries/models/event.py:205-331 | a call delivers a head of its queue and changes at most one more event, in either ordering mode and for any limit; its health is the outcome of the last attempt |
| `Consumers.HealthFromLog` | skipper/skipper/dataseries/models/event.py:284-331 | the health after a call is HEALTHY, RATE_LIMIT or UNHEALTHY by the last answer, and unchanged if nothing was sent |
| `Consumers.EventConsumer.DeleteOldEvents` | skipper/skipper/dataseries/models/event.py:343-349 | removes exactly the settled rows that are 2592000 seconds or more old |
| `Consumers.EventConsumer.ConsumerHeartbeat` | skipper/skipper/dataseries/tasks/event.py:36-62 | if nothing arrives between its batches the loop ends; it is full batches of a hundred followed by one call that reports no more, counts what was sent, and re-queues after every batch above the limit without leaving |
| `Consumers.CallCounts` | skipper/skipper/dataseries/models/event.py:223-234 | the count is deliveries plus one if the call stopped on an event; more is reported exactly if the room was used up on the first events, all of which succeeded |
| `Consumers.FullBatch` | skipper/skipper/dataseries/tasks/event.py:38-45 | a call that reports more handled exactly a hundred events and shrank the pending set |
| `Consumers.HeartbeatEnd` | skipper/skipper/dataseries/tasks/event.py:45-46 | at the end nothing is pending, or the first pending event is not due, or the last attempt failed |
| `Consumers.RequeuesCount` | skipper/skipper/dataseries/tasks/event.py:48-62 | how often a heartbeat re-queues itself |
| `Events.SortedInOrder` | skipper/skipper/dataseries/models/event.py:211-220 | the queue lists every pending event once, in the order of the mode |
| `Events.QueueOrder` | skipper/skipper/dataseries/models/event.py:211-220 | a call handles exactly the NEW and RETRY events, by point in time and then id, in the non-blocking mode after the number of retries |
| `EventRuns.NextIsHead` | skipper/skipper/dataseries/models/event.py:229-239 | each event a call reaches is the first of those it found when it began and that are still pending, unchanged since then |
| `EventRuns.FailedAttempt` | skipper/skipper/dataseries/models/event.py:291-325 | after a failed attempt the event is due again exactly from the time the answer or the settings give |
| `EventRuns.CallLog` | skipper/skipper/dataseries/models/event.py:229-289 | a call delivers the events of its queue in order, each logged with what had arrived when it began |
| `EventRuns.PathKeeps` | skipper/skipper/dataseries/models/event.py:183-349 | what every single delivery, failure, arrival, tick, clean-up and undone call keeps holds after any run of calls, completed or cut off |
| `EventLedger.RunSound` | skipper/skipper/dataseries/models/event.py:236-325 | after any run each event's row agrees with its attempts, or accounts for some of them if calls were cut off; what has left the table was delivered, once if none was, or given up after at least retry_max + 1 failures |
| `EventLedger.AttemptLedger` | skipper/skipper/dataseries/models/event.py:291-325 | if no call was cut off, the attempts made for a stored event are its retries, and one more once it succeeded |
| `EventLedger.RetryBounds` | skipper/skipper/dataseries/models/event.py:291-322 | in every run RETRY means between one and retry_max retries, FAILED exactly retry_max + 1, and without a limit nothing is FAILED |
| `EventLedger.BackoffArithmetic` | skipper/skipper/dataseries/models/event.py:237-245 | in every run retries are full cycles plus retries in the cycle; a full cycle always has handle_at set, also on the 429 path |
| `EventLedger.AttemptKeepsRowOk` | skipper/skipper/dataseries/models/event.py:291-322 | no outcome of an attempt breaks the arithmetic between the fields of a row |
| `EventLedger.SettledForGood` | skipper/skipper/dataseries/models/event.py:211-220 | a settled row never changes, is never attempted again and never comes back |
| `EventLedger.OnlyOldRowsGo` | skipper/skipper/dataseries/models/event.py:343-349 | nothing but clean-up removes rows, and only settled old ones |
| `EventPromise.GuaranteedExactlyWhen` | README.md:60 | in every run, cut off calls included, every event was delivered at least once or is still pending, exactly if retry_max is not positive |
| `EventPromise.OnceExactlyWhen` | skipper/skipper/dataseries/tasks/event.py:38-46 | no run delivers an event twice, exactly if no call is cut off |
| `EventPromise.DeliveredTwice` | skipper/skipper/dataseries/tasks/event.py:38-46 | a call cut off after its request was answered leads to a second delivery |
| `EventPromise.OncePerUndoneCall` | skipper/skipper/dataseries/tasks/event.py:38-46 | in every run an event is delivered at most once more than calls that had delivered it were cut off, and a stored one exactly as often, and once more if it is SUCCESS |
| `EventOrder.InOrderRuns` | skipper/skipper/dataseries/models/event.py:211-215 | over whole runs in order mode without cut off calls, an attempt for an earlier event follows one for a later event only if it arrived after the call of that one began |
| `EventOrder.DeliveriesAscend` | skipper/skipper/dataseries/models/event.py:211-215 | with arrivals in key order and no call cut off, attempts ascend by key and deliveries strictly |
| `EventOrder.DeliveredByTime` | skipper/skipper/dataseries/models/event.py:211-215 | the same in terms of points in time and ids |
| `EventOrder.AttemptedByTime` | skipper/skipper/dataseries/models/event.py:211-215 | whatever order events arrive in, an event that is earlier by point in time and id is attempted later only if it had not arrived when the other call began, and none again after its delivery |
| `EventOrder.DeliveredPrefix` | skipper/skipper/dataseries/models/event.py:312-322 | with unlimited retries and no call cut off the delivered events are a prefix of those that arrived |
| `EventOrder.EarlierComeFirst` | skipper/skipper/dataseries/models/event.py:211-215 | in every run, cut off calls included, an in-order event is attempted only after every event that had arrived by the start of its call and comes before it was delivered or failed more than retry_max times |
| `EventOrder.EarlierAreDone` | skipper/skipper/dataseries/models/event.py:211-239 | whenever an in-order call attempts an event, each event that had arrived by its start and comes before is, for that call, a row that is SUCCESS or FAILED or no row any more |
| `EventOrder.DonePrefix` | skipper/skipper/dataseries/models/event.py:312-322 | with unlimited retries and arrivals in key order the events an in-order consumer is done with are a prefix of those that arrived, and all of them were delivered, in every run |
| `EventOverlaps.OverlapsChangeNothing` | skipper/skipper/dataseries/models/event.py:211-229 | events inserted and rows cleaned up by other transactions while a call works off the list it took lead to exactly the worlds that insertions and clean-ups between calls lead to, for completed and cut off calls |
| `EventOverlaps.StaysApart` | skipper/skipper/dataseries/models/event.py:211-229 | however the transactions interleave, the table is what the call did and, apart from it, what the others did |
| `EventOverlaps.InOrderOverlapped` | skipper/skipper/dataseries/models/event.py:211-215 | so the order of attempts is kept in runs where events arrive during calls too |
| `EventOverlaps.FoundStay` | skipper/skipper/dataseries/models/event.py:213-220 | no other transaction removes an event the call found |
| `EventBackoff.BackoffTiming` | skipper/skipper/dataseries/models/event.py:303-310 | an attempt made c cycles after a failed one begins at least c delays after its end, if no endpoint asked for less |
| `EventBackoff.FirstFailure` | skipper/skipper/dataseries/models/event.py:237-245 | the first failed attempt for an event is made in cycle 0, in every run |
| `EventBackoff.AfterFirstFailure` | skipper/skipper/dataseries/models/event.py:303-310 | so an attempt made in cycle c begins at least c delays after the end of the first failed one |
| `EventBackoff.AskedWaits` | skipper/skipper/dataseries/models/event.py:306-308 | if no call is cut off, an attempt that follows a 429 for the same event begins no earlier than the seconds it named, or the configured delay, after it ended |
| `EventBackoff.AsksKeptExactlyWhen` | skipper/skipper/dataseries/tasks/event.py:38-46 | that is kept in every run exactly if no call is cut off |
| `EventDrain.ProductiveCallCosts` | skipper/skipper/dataseries/models/event.py:291-325 | the sum of remaining attempts over the pending events falls in every call with room whose first event is due |
| `EventDrain.Drains` | skipper/skipper/dataseries/models/event.py:291-325 | N pending events are gone after at most N * (retry_max + 1) such calls, whatever is cut off in between |
| `EventDrain.StepCosts` | skipper/skipper/dataseries/models/event.py:291-325 | without arrivals no step makes that sum rise |
| `EventDrain.WelcomeDrains` | skipper/skipper/dataseries/models/event.py:205-331 | however many retries are allowed, N pending events are gone after at most N such calls in which no attempt fails |
| `EventDrain.CallOrder` | skipper/skipper/dataseries/models/event.py:216-220 | when an event is attempted every event that came before it at the start of the call has been delivered |
| `EventDrain.RoundRobin` | skipper/skipper/dataseries/models/event.py:216-220 | without arrivals the retries of two pending events never differ by more than one |
| `Pagination.PageSize` | skipper/skipper/pagination.py:31-40 | missing, unreadable or non-positive sizes fall back to the default; any other is taken as it is, up to the maximum if there is one |
| `Pagination.IdBasedPagination.PaginateQueryset` | skipper/skipper/pagination.py:78-186 | the page is the first rows strictly after the id, the next link exists exactly if more follow, for both query sources and whether or not the named row still exists |
| `Pagination.IdBasedPagination.CutWindow` | skipper/skipper/pagination.py:153-186 | the index arithmetic on the fetched rows |
| `Pagination.IdBasedPagination.Fetched` | skipper/skipper/pagination.py:115-151 | what the slice of the queryset contains |
| `Pagination.AtLeastSplit` | skipper/skipper/pagination.py:121 | the query from an id on is the named row, if present, and the rows after it |
| `Reading.ReadPaginatedAll` | client/compose_client/library/connection/read.py:31-42 | the client reads exactly what following the links yields, whatever table each request finds |
| `Reading.ExactlyOnce` | client/compose_client/library/connection/read.py:31-53 | the ids read ascend strictly, and a finished traversal contains every row that was there for all of its requests |
| `Reading.ReadsEverything` | client/compose_client/library/connection/read.py:31-53 | rows are read by the time their id is passed |
| `Reading.ReadsEnd` | client/compose_client/library/connection/read.py:36-42 | the traversal ends while the table changes, if finitely many rows ever exist |
| `Reading.EarlierPagesAreFull` | client/compose_client/library/connection/read.py:36-42 | every request but the last yields a full page |
| `Reading.UnchangingTable` | client/compose_client/library/connection/read.py:31-42 | an unchanging table is read as it is in the number of requests its pages need, and one if it is empty |
| `Reading.PagesRoundUp` | client/compose_client/library/connection/read.py:36-42 | that number is the quotient rounded up |
| `Reading.NextThenPrevious` | skipper/skipper/pagination.py:123-129 | following a next link and then the previous link leads back to the same page, if the view answers the reverse query |
| `Reading.PlainPrevious` | skipper/skipper/pagination.py:126 | with the paginator's own reverse query that holds for the second page and for no other |
| `Semaphores.Redis.AcquireSemaphore` | skipper/skipper/core/celery.py:77-96 | succeeds exactly below the limit and counts one more exactly then |
| `Semaphores.Redis.ReleaseSemaphore` | skipper/skipper/core/celery.py:98-111 | takes one off and removes the key at zero |
| `Semaphores.AcquireIsCommands` | skipper/skipper/core/celery.py:77-96 | what acquire does is a sequence of the commands that are interleaved |
| `Semaphores.ReleaseIsCommands` | skipper/skipper/core/celery.py:98-111 | what release does is one too, whether or not it is a single step |
| `Semaphores.SemaphoreSafe` | skipper/skipper/core/celery.py:77-111 | in every interleaving of commands the counter is holders plus overshooters and the holders never exceed the limit |
| `Semaphores.DeletesExactZero` | skipper/skipper/core/celery.py:108-111 | deleting at zero or below only ever deletes an exact zero |
| `Semaphores.SafeExactlyWhen` | skipper/skipper/core/celery.py:88-111 | the limit is kept in every interleaving exactly if the key is set only if absent, release is one step, and the key does not expire while used |
| `Semaphores.UnsafeWithoutNx` | skipper/skipper/core/celery.py:87-88 | without the flag a late initialiser lets one more in |
| `Semaphores.UnsafeWithExpiry` | skipper/skipper/core/celery.py:88 | an expiry while permits are held lets one more in |
| `Semaphores.UnsafeWithSlowRelease` | skipper/skipper/core/celery.py:106-111 | acquirers between the read and the deletion of a release are forgotten |
| `Jobs.JobTable.DequeueTenant` | skipper/skipper/core/models/postgres_jobs.py:44-96 | claims and removes a due job of the queue, tenant and tasks asked for, of the highest priority and among those the oldest, or finds none due |
| `Jobs.JobTable.Create` | skipper/skipper/core/models/postgres_jobs.py:24 | the unique identifier refuses a second row |
| `Jobs.TenantQueue.Enqueue` | skipper/skipper/core/models/postgres_jobs.py:189-235 | queues one job, or none exactly if a heartbeat job with its identifier is stored |
| `Jobs.IdentifiersDiffer` | skipper/skipper/core/models/postgres_jobs.py:214 | two tasks of a queue have different identifiers |
| `Jobs.TenantQueue.RunOnce` | skipper/skipper/core/models/postgres_jobs.py:138-167 | runs the claimed job; one that raises is lost at most once and put back at least once |
| `Jobs.TenantQueue.TryRunAll` | skipper/skipper/dataseries/tasks/pgq.py:50-66 | ends after running due jobs in order up to the first that raises or until none is due; no failed id is ever excluded from a claim |
| `Jobs.ScheduleOrder` | skipper/skipper/core/models/postgres_jobs.py:81 | a worker's jobs are due, distinct, in order of priority and age, and come before every due job it did not run |
| `Jobs.ScheduleByPriority` | skipper/skipper/core/models/postgres_jobs.py:81 | in the order of a worker priorities never rise, and among equal ones the times of creation never fall |
| `JobRuns.RunSafe` | skipper/skipper/core/models/postgres_jobs.py:138-251 | with any number of workers, clients and crashes each job is in exactly one place, no at-most-once job starts twice, and at most one stored job has each identifier |
| `JobRuns.RunOnceIsSteps` | skipper/skipper/core/models/postgres_jobs.py:138-167 | what a worker does by itself is a sequence of the steps that are interleaved, with the same rows, runs and losses |
| `JobRuns.NextPlaced` | skipper/skipper/core/models/postgres_jobs.py:138-167 | every step keeps each job in exactly one place; only at-most-once jobs are lost |
| `JobRuns.ClaimOrder` | skipper/skipper/core/models/postgres_jobs.py:68-86 | among many workers too, none claims a job while a free due one has a higher priority, or the same and is older |
| `JobRuns.NextRunsAtMostOnce` | skipper/skipper/core/models/postgres_jobs.py:238-243 | every step keeps started at-most-once jobs from starting again |
| `JobRuns.LeavesAfterReturn` | skipper/skipper/core/models/postgres_jobs.py:246-251 | an at-least-once job leaves the table only by committing a run that returned |
| `JobRuns.UniqueExactlyWhen` | skipper/skipper/core/models/postgres_jobs.py:213-228 | identifiers stay unique in every run exactly if the table enforces it; checking first is not enough |
| `Permissions.CodenameOfQualified` | skipper/skipper/core/models/guardian.py:34-39 | the codename is what follows the first dot |
| `Permissions.CodenameOfPlain` | skipper/skipper/core/models/guardian.py:34-39 | and everything if there is no dot |
| `Permissions.GetObjectsForUserCustom` | skipper/skipper/core/models/guardian.py:19-148 | privileged users get everything; for all others, where globally held permissions do not count, an object is found exactly if rows of the user, or of a group the user is in, hold all required codenames, or one, or any if none is required |
| `Permissions.SelectedByRows` | skipper/skipper/core/models/guardian.py:88-148 | the same for a single object and a set of codenames |
| `Permissions.MixedByRows` | skipper/skipper/core/models/guardian.py:62-86 | in the mixed case a row of a group for one remaining codename is as good as rows of the user for all of them |
| `Permissions.AllowedByRows` | skipper/skipper/core/models/guardian.py:62-148 | the set specification in terms of rows and globally held permissions |
| `Permissions.SelectedHasRow` | skipper/skipper/core/models/guardian.py:90-112 | each object found has a row of the user, or of a group the user is in |
| `Permissions.OtherRowsDoNotMatter` | skipper/skipper/core/models/guardian.py:90-112 | rows of other users and of other groups change nothing, whatever the options |
| `Permissions.SplitGlobal` | skipper/skipper/core/models/guardian.py:62-70 | required codenames held globally are taken out where the options let them count |
| `Permissions.ObjectBased` | skipper/skipper/core/models/guardian.py:88-148 | the sort-and-group path, the counting path and the union path each select the specified set |
| `Permissions.GroupByPk` | skipper/skipper/core/models/guardian.py:118-128 | grouping the sorted rows lists exactly the objects whose rows hold all codenames |
| `Permissions.CountDecides` | skipper/skipper/core/models/guardian.py:132-136 | counting rows decides whether all codenames are held |
| `Permissions.AgreesExactlyWhen` | skipper/skipper/core/models/guardian.py:62-148 | the query meets the set specification for every content of the tables exactly if a codename is required and global permissions, groups and two or more remaining codenames do not meet |

## Left out

- HTTP, Redis, Postgres, Celery, Django and DRF internals, base64, urls and JSON: replaced by the state they keep.
- A server without an index endpoint (client/compose_client/library/service/pusher.py:118-119, 178): the endpoint is there.
- Definitions, engines, endpoints and groups other than data series: same shape as the data series diff, fewer references.
- Pushing.DiffPusher.Push: says of a failed push only that it failed, because where it stops depends on the order of the diffs; the server stays consistent.
- Convergence.Synchronize: takes the lock a change of backend sets as over or not over for the whole rest of the push, because when the moving task ends is not part of the push.
- Convergence.RediffIsEmpty: leaves out group permissions, because the pusher ignores their deletions and base-only groups keep what they had.
- EventBackoff.BackoffTiming: assumes that no endpoint asks for a shorter wait than the configured delay, because the code takes such a wait at its word; and that the configured delay is not negative where calls may be cut off, because an undone call would otherwise put its delay back.
- EventDrain.Drains: counts calls without arrivals only, because arrivals add to the sum.
- EventDrain.WelcomeDrains: the same, because arrivals add to the pending events.
- Consumers.EventConsumer.DataPointEvent: takes ids handed in from outside in increasing order, and one consumer, because ids come from one sequence for all consumers and the rows of two consumers never meet.
- Consumers.EventConsumer.TrySendEvents: takes nothing to be inserted or cleaned up while it runs, because that is proved to make no difference (EventOverlaps.OverlapsChangeNothing).
- Consumers.EventConsumer.ConsumerHeartbeat: takes nothing to arrive between or during its batches and no batch to be rolled back, because both are steps of their own in the runs.
- Jobs.TenantQueue.TryRunAll: takes jobs that leave the table alone and a fixed time, because tasks are not part of the queue.
- Reading.PlainPrevious: takes a table that does not change between the two requests.
- Changing a consumer's settings during a run, truncation and hard deletion of events, and a second heartbeat on the same consumer at the same time: the row locks of the sending query keep calls apart.
- Response and header sanitising, the proxy, the user agent and the fields that only store the response.
- Total counts of pages, and whether the response includes the previous link.
- Multipart or JSON form of a batch, and caching of definitions: both drain the chunk before the next one.
- Field-by-field contents of definitions, payloads and permissions: opaque text that is compared and copied.
- `CreateView`, `NOTIFY` and the generic variants of guardian's permission tables: no effect on the results.
