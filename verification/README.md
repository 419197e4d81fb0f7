# Verified model of the CloudZero agent's data path

The agent carries metrics from Prometheus to CloudZero through a chain of small
state machines. Each keeps data, gives it up on proof of delivery, and answers from
state that has been pruned, batched or compiled. This project models those machines
in Dafny and proves what they keep over whole runs, with every database, disk and
network call allowed to fail, and concurrent parties interleaved step by step.

| File | Models |
|---|---|
| `Pusher.dfy` | the metrics pusher's size-bounded batching and its flush |
| `ResourceStore.dfy`, `RecordDelivery.dfy` | the table of resource records, and webhook writes, flushes and purges interleaved on it |
| `DiskStore.dfy` | the collector's store: buffering, rotation, recovery from failed flushes, file names |
| `Requests.dfy` | the shipper's chunks, upload and replay requests, abandoned ids, and the search for replayed files |
| `FileLifecycle.dfy` | a finalized file between collector, upload workers and purges |
| `Purge.dfy` | disk pressure and the purging of uploaded files |
| `ErrorRate.dfy` | the sliding error-rate window and its sticky latch |
| `TlsReconciler.dfy` | the bounded root list, and certificate reloads interleaved with readers |
| `Decode.dfy`, `Metric.dfy`, `Filter.dfy`, `Converter.dfy` | remote-write decoding, the metric record with its JSON and Parquet forms, filters, and Prometheus time series |
| `Pipeline.dfy` | what decoding, filtering and both forms together keep of a metric |
| `FanOut.dfy` | the distribution of a channel to all outputs, and the batching remote writer |
| `Text.dfy` | strings: searching, base names, decimal numbers |

Operations that change state are methods, some in classes, proved against functions
or relations on values; runs are sequences of steps of a transition system, and the
main results are lemmas about every run.

## What the code does not keep

Some properties that the code's comments promise or that a reader would expect are
false of it. The model keeps the code's behaviour; for each, one lemma gives a run or an
input on which the property fails, and another says exactly when it holds.

- **A write during a flush is lost.** The pusher marks records by writing back all
  it read, so a webhook write that lands between the query and the mark is
  overwritten and shown as sent (`RecordDelivery.WriteDuringFlushIsLost`). Likewise a
  write between the housekeeper's query and its delete is deleted unsent
  (`RecordDelivery.WriteDuringPurgeRun`). `RecordDelivery.StepIsFaithfulIff` says under
  which conditions on the table a step forgets no accepted write.
- **Acknowledged rows can be lost.** A failed flush drops the whole buffer. The
  comment in the code relies on Prometheus to retry, but earlier calls whose rows are
  in that buffer had reported success (`DiskStore.AcknowledgedRowCanBeLost`). They
  survive a run exactly when no call finds rows buffered, has to close the buffer, and
  cannot (`DiskStore.AcknowledgedSurviveIff`).
- **Two files can get one name** (`DiskStore.TwoFilesOneName`), exactly when both are
  opened and closed within one and the same millisecond (`DiskStore.NamesCollideIff`);
  the later replaces the earlier.
- **A replay can upload the wrong file**, since files are searched for by substring of an
  id that is taken as it is received. An item without an id asks for every file
  (`FileLifecycle.EmptyRootShipsEverything`), and one store's file can be found for
  another (`FileLifecycle.ShortStopTimeIsFound`), exactly when both were opened in the
  same millisecond and the stop time of the one sought properly begins, in digits, that
  of the one found (`FileLifecycle.ReplayFindsAnotherFileIff`). For any file names and
  any replayed ids, all runs deliver every file under its own id exactly when the search
  for one of the ids finds, of the files with these names, only its own
  (`FileLifecycle.RunsDeliverUnderOwnIdIff`). That is so for a store's files and their
  ids with stop times of one number of digits, as millisecond clocks have for centuries
  (`FileLifecycle.StoreRunsDeliverUnderOwnId`).
- **Certificate reloads can block everyone for good.** A failed provider call leaves the
  reloading flag up (`TlsReconciler.FirstFailureFreezes`). So can a run in which every
  call succeeds: a second caller that passed the check early raises the flag after the
  reload has lowered it, and joins a flight that is already ending
  (`TlsReconciler.SuccessfulReloadFreezes`). The flag can come down exactly while some
  caller is between finding it down and lowering it (`TlsReconciler.FlagCanComeDownIff`).
- **A caller can miss the broadcast** of a successful reload and sleep with the flag down
  (`TlsReconciler.LateSleeperMissesBroadcast`). A sleeper can be woken exactly when the
  flag is not up for good or a broadcast is still to come
  (`TlsReconciler.SleeperCanWakeIff`).
- **A pool can lack roots that came with the certificate it is returned with**
  (`TlsReconciler.OwnRootsCanBeMissing`): the list keeps the newest up to a limit, two by
  default. It has all of a reload's roots and the later ones, newest first, exactly when
  those fit the limit (`TlsReconciler.RootsFromAreInPoolIff`).
- **A success can turn a healthy verdict into an unhealthy one**
  (`ErrorRate.FirstSuccessHarms`), but only as the first response in the window with no
  failures required and a threshold below zero (`ErrorRate.SuccessHarmsIff`).
- **A metric with a node comes back from its Parquet record's series with one label too
  many**: the record's node field is sent as `node_name` besides the label `node`, and
  read back as an ordinary label (`Converter.RecordNodeComesBackTwice`,
  `Converter.RecordRoundTripIff`).
- **A converted record need not be a proper series**: one without a name has an empty
  label, and one whose labels repeat a field, such as a label `cluster_name`, has a name
  twice (`Converter.ClusterLabelIsSentTwice`; `Converter.ProperSeriesIff` gives both
  conditions).
- **The root id does not undo the remote id of a path made of slashes only**, and does so
  for every other path (`Requests.RootOfSlash`, `Requests.RootInvertsRemoteIff`).

Besides, an answer that allocates and replays nothing ends the whole request: the chunks
behind it are not asked for. The contract of `Requests.HandleRequest` says when all are.

## Model

| member | source | states |
|---|---|---|
| Pusher.BatchesAreOptimal | app/domain/pusher/pusher.go:264-301 | The batches concatenate to the found records in order, each is non-empty and a single record or within the byte limit; with non-negative sizes no other order-preserving division obeying that rule has fewer batches |
| Pusher.GreedyStaysAhead | app/domain/pusher/pusher.go:267-292 | The exchange argument: against any division still inside its first part, a batch holding no more needs no more batches for the rest |
| Pusher.FullerCostsAtMostOne | app/domain/pusher/pusher.go:277-291 | A fuller open batch costs at most one batch more for the remaining records, and never fewer |
| Pusher.PushBatches | app/domain/pusher/pusher.go:264-301 | Requests go out as a prefix of the optimal batches up to the first failure; all records are completed exactly when every batch got through |
| Pusher.Flush | app/domain/pusher/pusher.go:252-322 | After the requests the store is as before, or every record found is marked; the latter exactly when every call succeeded |
| Pusher.PushedRecordsAreAPrefix | app/domain/pusher/pusher.go:277-301 | What an interrupted flush pushed is a prefix of the found records, all of them exactly when every batch got through |
| ResourceStore.Store.Create | app/storage/repo/resource_store_impl.go:152-178 | Inserts an unsent row, doing nothing when the key is taken; a failed insert changes nothing |
| ResourceStore.Store.Update | app/storage/repo/resource_store_impl.go:197-261 | Refuses an empty id; otherwise writes content, sent_at and update time to the row the id names, if there is one |
| ResourceStore.Store.MarkSent | app/domain/pusher/pusher.go:303-320 | All completed records are updated, or the table is as before |
| ResourceStore.Store.DeleteAll | app/domain/housekeeper/housekeeper.go:101-114 | All listed ids are deleted, or the table is as before |
| ResourceStore.MarkedRow | app/domain/pusher/pusher.go:307-313 | Marking leaves a row untouched or gives it sent_at together with the content the record had when it was found |
| ResourceStore.MarkingAllLeavesNoneUnsent | app/domain/pusher/pusher.go:256-313 | Marking what a query for unsent records found, at once, leaves no record unsent and touches no record that was sent |
| RecordDelivery.SentRecordsWerePushed | app/domain/pusher/pusher.go:252-322 | In every interleaving of writes, requests, marks and purges, a record with a sent_at holds content that a successful request carried |
| RecordDelivery.StepKeepsInv | app/domain/pusher/pusher.go:252-322 | Each step keeps that, the uniqueness of ids, and what a flush under way knows |
| RecordDelivery.FailedFlushMarksNothing | app/domain/pusher/pusher.go:279-318 | After a failed request or a rolled-back transaction, whatever runs until the next query, every record with a sent_at had it before, unchanged |
| RecordDelivery.StepIsFaithfulIff | app/domain/webhook/handler/generic.go:17-80 | A step forgets an accepted write exactly when the table changed between a query and the write, mark or delete relying on it |
| RecordDelivery.MarkIsFaithfulIff | app/domain/pusher/pusher.go:303-320 | Marking forgets nothing exactly when the rows it hits still hold the content found |
| RecordDelivery.PurgeIsFaithfulIff | app/domain/housekeeper/housekeeper.go:101-114 | A purge forgets nothing exactly when every row it deletes is still sent or its content was pushed |
| RecordDelivery.RaceFreeRunStaysFaithful | app/domain/webhook/handler/generic.go:17-80 | Runs whose steps meet those conditions forget no accepted write |
| RecordDelivery.RunIsFaithfulIff | app/domain/webhook/handler/generic.go:17-80 | A run forgets none at any time exactly when each of its steps meets the condition on the table before it |
| RecordDelivery.AcceptedWritesAreKeptOrPushed | app/domain/pusher/pusher.go:252-322 | In such runs the last accepted content of every key was pushed or is stored unsent |
| RecordDelivery.AtomicPurgeDeletesOnlyPushed | app/domain/housekeeper/housekeeper.go:76-114 | A purge right after its own query deletes only expired records whose content was pushed |
| RecordDelivery.AtomicPurgeDeletesIff | app/domain/housekeeper/housekeeper.go:76-114 | It deletes exactly the records that were sent, created and last updated before the cutoff, and changes no other |
| RecordDelivery.AtomicPurgesKeepTheYoung | app/domain/housekeeper/housekeeper.go:76-114 | In every run whose purges follow their own queries, no record is deleted that is unsent or was sent, created or last updated at or after the cutoff |
| RecordDelivery.WriteDuringFlushIsLost | app/domain/pusher/pusher.go:257-320 | A concrete run in which a write made during a flush is overwritten, shown as sent, and never pushed |
| RecordDelivery.WriteDuringPurgeIsLost | app/domain/housekeeper/housekeeper.go:83-114 | From every state that keeps the invariant, a write between the query and the delete of a purge is deleted without having been pushed |
| RecordDelivery.WriteDuringPurgeRun | app/domain/housekeeper/housekeeper.go:83-114 | A concrete run in which that happens |
| DiskStore.Store.constructor | app/storage/disk/disk.go:97-143 | A new store has an empty open file and the configured or default row limit |
| DiskStore.Store.Put | app/storage/disk/disk.go:174-204 | Refused without a recoverable writer; otherwise buffers the rows and closes a full buffer, as a file or dropped as a whole; the row count stays below the limit |
| DiskStore.Store.Flush | app/storage/disk/disk.go:206-224 | Closes a non-empty buffer and leaves an empty one alone |
| DiskStore.Store.FlushUnlocked | app/storage/disk/disk.go:226-310 | The buffer becomes a file named by identifier and times when all of flush, close and rename work, and is dropped otherwise |
| DiskStore.Store.NewFileWriter | app/storage/disk/disk.go:149-172 | A created file starts an empty buffer with a fresh start time; a failure changes nothing |
| DiskStore.RunAccounts | app/storage/disk/disk.go:174-310 | In every run the accepted rows are, in order, those of the closed buffers and the active one; so are the acknowledged; files are exactly the kept buffers, none empty, and the active buffer is below the limit |
| DiskStore.StartIsCreation | app/storage/disk/disk.go:149-172 | In every run an open file's start time is the reading at which it was created: at first, by the call that closed the buffer before, or by the Put that recovered |
| DiskStore.FinalizedFile | app/storage/disk/disk.go:273-294 | A finalized file starts when its writer was created, stops when the call closed it, and holds what was buffered and the call's own rows |
| DiskStore.StartPrecedesRows | app/storage/disk/disk.go:164-204 | With a clock that does not go back, no file starts after a call whose rows it holds |
| DiskStore.ClosesIff | app/storage/disk/disk.go:192-224 | A Put closes the buffer exactly when the rows reach the limit, a Flush exactly when there are any, and a file results exactly when all I/O works |
| DiskStore.AcknowledgedSurviveIff | app/storage/disk/disk.go:174-253 | Over every run all acknowledged rows survive exactly when no call, in the state before it, has rows buffered, must close the buffer, and has I/O that fails to |
| DiskStore.AcknowledgedRowCanBeLost | app/storage/disk/disk.go:233-253 | A run that loses a row whose own call reported success |
| DiskStore.FileNameInjective | app/storage/disk/disk.go:276-291 | A file name determines the start and the stop time it was made from |
| DiskStore.NamesCollideIff | app/storage/disk/disk.go:273-294 | With a clock that does not go back, two finalized files share a name exactly when both were opened and closed in one millisecond |
| DiskStore.TwoFilesOneName | app/storage/disk/disk.go:286-294 | A concrete run in which the second of two files replaces the first |
| DiskStore.NothingIsOverwritten | app/storage/disk/disk.go:286-294 | If no two files do, every finalized file is on disk under its name with its rows, and nothing else is |
| Requests.RootInvertsRemoteIff | app/domain/shipper/utils.go:29-41 | The root of a file's remote id is its unique id, for every path but one of slashes only |
| Requests.Find | app/storage/disk/disk.go:448-486 | The files whose base name contains the text and has the extension, in the order of the walk and as often as it lists them |
| Requests.FoundIff | app/storage/disk/disk.go:467-475 | These are just the listed files that match |
| Requests.SearchFindsIff | app/storage/disk/disk.go:467-475 | Searching by a finalized file's id finds another file's name exactly when their identifiers end alike, they opened in the same millisecond, and the sought stop time's digits begin the other's |
| Requests.SearchIsExact | app/storage/disk/disk.go:467-475 | With stop times of the same number of digits the search finds exactly the file it is for |
| Requests.FreshRequests | app/domain/shipper/shipper.go:403-411 | One request for each file of the chunk that was allocated a URL, with that URL, in order |
| Requests.ReplayRequests | app/domain/shipper/shipper.go:413-425 | One request for each file found for a replayed id that can be opened, and none when the search fails |
| Requests.PlanChunk | app/domain/shipper/shipper.go:397-439 | The requests are the fresh ones followed by those of each replayed id once, in some order; the abandoned ids are exactly the replayed ids that no request covers, each once |
| Requests.RequestsIff | app/domain/shipper/shipper.go:397-425 | So a request is made exactly if it is for an allocated file of the chunk or for a file found and opened for a replayed id |
| Requests.AbandonedIffNotLocal | app/domain/shipper/shipper.go:427-439 | With searches and openings succeeding, an id is abandoned exactly when it is to be replayed and no local metric file has that remote id, despite the search by substring |
| Requests.LocalFileMatches | app/domain/shipper/shipper.go:414-425 | The search for a local metric file's own remote id finds it |
| Requests.RequestsMatchTheirIds | app/domain/shipper/shipper.go:403-425 | Every upload goes to the URL of its file's own allocated id, or of a replayed id whose root the file's name contains |
| Requests.Chunk | app/domain/shipper/utils.go:14-27 | Chunks concatenate to the list, all of n elements but a last, non-empty one; one chunk when n is not positive |
| Requests.HandleRequest | app/domain/shipper/shipper.go:365-439 | The files are cut into full chunks and planned in order until an allocation fails, an error, or answers with nothing, which is none; all are planned exactly when every answer allocates or replays something |
| FileLifecycle.Worker.NewMetricFile | app/storage/disk/metric_file.go:26-50 | Opens a file's content, or creates an empty file where it has gone; when the call fails nothing is opened and nothing changes |
| FileLifecycle.Worker.MarkFileUploaded | app/domain/shipper/upload.go:83-113 | Moves the file to the uploaded directory, unless its path already names it, and fails exactly when a needed move does |
| FileLifecycle.Worker.Ship | app/domain/shipper/shipper.go:444-468 | After a failed upload nothing changes; after a successful one cost files are moved and others removed, and the counter counts the successes |
| FileLifecycle.NothingLeavesUndelivered | app/domain/shipper/shipper.go:441-473 | In every run of collector, workers and purges with any failures, a finalized file not in the base directory was uploaded, and so was every file in the uploaded directory |
| FileLifecycle.StepKeepsInv | app/domain/shipper/shipper.go:444-468 | Each step keeps that, and that an opened file's content is the file's unless it was delivered before |
| FileLifecycle.PurgeTakesOnlyDelivered | app/domain/shipper/disk.go:201-332 | A purge only removes files that were uploaded and leaves the base directory alone |
| FileLifecycle.CostFilesStayOnDisk | app/domain/shipper/upload.go:83-113 | In every run a finalized cost file is in the base or the uploaded directory unless it was purged |
| FileLifecycle.ReleaseMoves | app/domain/shipper/shipper.go:452-464 | With all I/O succeeding, releasing a cost file moves just that file with its content, and releasing another removes just that one |
| FileLifecycle.DirectoriesHoldContent | app/storage/disk/metric_file.go:26-50 | In every run both directories hold finalized content only, but for empty files in the place of delivered ones |
| FileLifecycle.EachOpeningIsUploadedOnce | app/domain/shipper/shipper.go:444-468 | In every run each opening is followed by at most one upload, and the releases are just those of the successful ones |
| FileLifecycle.BaseNamingUploadedMovesNothing | app/domain/shipper/upload.go:96-101 | A base path that names "uploaded" keeps every cost file where it is |
| FileLifecycle.DirectedRunsDeliverUnderOwnId | app/domain/shipper/shipper.go:441-473 | Where every URL is used for its own file, a file that left was uploaded under its own id |
| FileLifecycle.RunsDeliverUnderOwnIdIff | app/domain/shipper/shipper.go:413-473 | For any sets of file names and replayed ids: in all runs on them every file that leaves was uploaded under its own id, exactly when the search for one of the ids finds, of files with these names, only its own |
| FileLifecycle.UnambiguousRunsDeliverUnderOwnId | app/domain/shipper/shipper.go:413-473 | One half of it, also for a base path that names "uploaded" |
| FileLifecycle.EmptyRootShipsEverything | app/domain/shipper/allocate_url.go:138-151 | A replayed id with an empty root ships any file for that id, its own never delivered |
| FileLifecycle.EmptyRoots | app/domain/shipper/utils.go:34-41 | No id at all and the bare extension are such ids |
| FileLifecycle.StoreRunsDeliverUnderOwnId | app/domain/shipper/shipper.go:413-473 | In every run on files named by stores, with stop times of one number of digits and replays of such files or of none, a file that left was uploaded under its own id |
| FileLifecycle.AgentStoresAreIdentified | app/storage/disk/disk.go:44-48 | The agent's two stores have identifiers for which that holds |
| FileLifecycle.ReplayFindsAnotherFileIff | app/storage/disk/disk.go:467-475 | A store's file is found, wrongly, for the id of another one exactly when both opened in the same millisecond and the other's stop time properly begins its own in digits |
| FileLifecycle.ShortStopTimeIsFound | app/storage/disk/disk.go:467-475 | A concrete pair of names on which the search for one file's id finds another with a different id |
| FileLifecycle.RemoteIdOfPath | app/storage/disk/metric_file.go:52-62 | In whatever directory a file lies, its remote id is that of its name |
| FileLifecycle.RemoteIdOfStoreFile | app/storage/disk/metric_file.go:52-62 | The remote id of a finalized file is its name with the extension replaced, and its root is the name without |
| Purge.LimitedUsageAddsUp | app/storage/disk/disk.go:428-443 | Under a limit in force used and available add up to it, and the percentage is at most 100, reached exactly when use reaches the limit |
| Purge.LimitedUsageIsMonotone | app/storage/disk/disk.go:428-443 | Freeing bytes does not raise the percentage reported under a limit |
| Purge.PressureIsMonotone | app/domain/shipper/disk.go:160-198 | Pressure grows with usage; memory-backed storage is never under less pressure nor cleaned up less than disk-backed |
| Purge.NumToRemoveIsShare | app/domain/shipper/disk.go:305-309 | The number to remove is the rounded-down share, 1 in place of 0 for a positive percentage, and never more than there are |
| Purge.DiskManager.PurgeFilesBefore | app/domain/shipper/disk.go:201-250 | Removes exactly the removable files older than the cutoff and counts them |
| Purge.DiskManager.PurgeOldestPercentage | app/domain/shipper/disk.go:253-332 | Refuses percentages outside 0..100; otherwise no removed file is newer than a removable one that stayed, no more go than the share, and just as many when all can be removed, for any order of ties |
| Purge.RemovedAreOldest | app/domain/shipper/disk.go:300-321 | The removable among the first k in time order are no newer than those that stay, and k of them when all are removable |
| Purge.DiskManager.ExecuteCleanupStrategy | app/domain/shipper/disk.go:118-157 | Fails exactly when a needed walk or reading does, having done the steps before it; otherwise leaves what the time-based step and, under high pressure, the share that goes with it leave, and reports the files removed and both pressures |
| Purge.CleanupNeverRaisesPressure | app/domain/shipper/disk.go:118-157 | If removals never raise usage, the pressure after is at most the pressure before |
| Purge.FirstStepByUsage | app/domain/shipper/disk.go:118-130 | From 70 per cent used, 40 in memory, the removable files before the cutoff go; below nothing does |
| Purge.CleanupByUsage | app/domain/shipper/disk.go:132-150 | On disk half of the files go from 95 per cent still used on, a quarter from 85, none below |
| Purge.MemoryCleanupByUsage | app/domain/shipper/disk.go:132-150 | In memory 70 per cent of them go from 80 per cent on, half from 60, none below |
| Purge.CleanupFailsByUsage | app/domain/shipper/disk.go:118-150 | Which failing walk or reading makes a cleanup fail, by used percentage and storage |
| Purge.ReportedPressureIsTheLast | app/domain/shipper/disk.go:132-155 | The pressure reported is that of the last usage measured, of the final one exactly when a share was purged |
| ErrorRate.Tracker.Record | app/http/middleware/errorrate.go:62-73 | Adds the response to the history, the pruned events staying a window of it |
| ErrorRate.Tracker.Prune | app/http/middleware/errorrate.go:142-153 | Leaves exactly the events of the whole history newer than the window's start |
| ErrorRate.PrunedIsRecent | app/http/middleware/errorrate.go:142-153 | Dropping old events from the front of an ordered history keeps exactly the recent ones |
| ErrorRate.RecentIff | app/http/middleware/errorrate.go:142-153 | Each event newer than the window's start counts as often as it was recorded, no other at all |
| ErrorRate.UnhealthyIff | app/http/middleware/errorrate.go:116-140 | Unhealthy are just windows with enough failures, counted one by one, and more of them than the threshold's share |
| ErrorRate.Tracker.EvaluateLocked | app/http/middleware/errorrate.go:113-140 | The verdict over all recent events of the unpruned history; an unhealthy one is latched |
| ErrorRate.Tracker.Healthy | app/http/middleware/errorrate.go:84-88 | Equals the verdict over every event ever recorded that is newer than the window's start |
| ErrorRate.Tracker.HealthyWithinCooldown | app/http/middleware/errorrate.go:90-111 | True exactly when the verdict is healthy and every unhealthy evaluation ever made, with whatever parameters, is more than the cooldown ago |
| ErrorRate.Tracker.ServeHTTP | app/http/middleware/errorrate.go:177-191 | Records each response, a panic as a 500 |
| ErrorRate.CooledDown | app/http/middleware/errorrate.go:107-110 | Comparing with the latched evaluation compares with all of them |
| ErrorRate.FailureNeverHeals | app/http/middleware/errorrate.go:116-140 | One more failure never turns an unhealthy verdict healthy |
| ErrorRate.SuccessHarmsIff | app/http/middleware/errorrate.go:116-140 | One more success turns a healthy verdict unhealthy exactly when it is the first in the window, no failures are required and the threshold is negative |
| ErrorRate.FirstSuccessHarms | app/http/middleware/errorrate.go:116-140 | Parameters with which a first success does |
| TlsReconciler.Reconciler.Reload | app/domain/monitor/tls_monitor.go:471-516 | The list becomes the newest roots ever supplied and the pool is built from it; a failed provider call changes neither and leaves the flag up |
| TlsReconciler.NewestAt | app/domain/monitor/tls_monitor.go:482-490 | Position k of the list is the k-th last root ever supplied, up to the limit |
| TlsReconciler.NewestAppend | app/domain/monitor/tls_monitor.go:482-490 | Pushing to the front and dropping the back at the limit yields the newest of one more root |
| TlsReconciler.PoolNeverLagsCertificate | app/domain/monitor/tls_monitor.go:458-530 | In every interleaving of any number of callers, the returned pool is, for some number of reloads not below the returned certificate's, the newest roots of just those reloads up to the limit |
| TlsReconciler.ReturnsWhatIsStored | app/domain/monitor/tls_monitor.go:519-529 | In every continuation a caller that has not read yet is given a certificate and a pool not older than those stored now nor newer than those stored by then |
| TlsReconciler.ReloaderIsGivenItsReload | app/domain/monitor/tls_monitor.go:471-529 | A caller that reloads, or waits for that reload, is given no older certificate than the one reloaded |
| TlsReconciler.StepKeepsRoots | app/domain/monitor/tls_monitor.go:478-501 | Each step keeps the list and every stored or returned pool what some first reloads make of them |
| TlsReconciler.RootsFromAreInPoolIff | app/domain/monitor/tls_monitor.go:482-497 | A pool begins with all roots from some reload on exactly when those fit the limit |
| TlsReconciler.RootIsInPoolIff | app/domain/monitor/tls_monitor.go:482-497 | A root supplied once is in the pool exactly when it and all supplied behind it fit the limit |
| TlsReconciler.OwnRootsCanBeMissing | app/domain/monitor/tls_monitor.go:482-497 | A caller that reloads alone, with more roots than the limit, is not given all that came with its certificate |
| TlsReconciler.PushedIsNewest | app/domain/monitor/tls_monitor.go:482-490 | Pushing roots to the front one by one, dropping the last beyond the limit, yields the newest of all ever supplied |
| TlsReconciler.StepKeepsInv | app/domain/monitor/tls_monitor.go:458-530 | Each step keeps the single flight, what it has stored so far, and what each reader holds |
| TlsReconciler.FlagCanComeDownIff | app/domain/monitor/tls_monitor.go:464-512 | The raised flag can come down again exactly when some caller is between finding it down and lowering it |
| TlsReconciler.FrozenForever | app/domain/monitor/tls_monitor.go:459-476 | Once no such caller is left the flag stays up in every continuation, and callers before the check stay there |
| TlsReconciler.FlagFollowsReloads | app/domain/monitor/tls_monitor.go:464-512 | In every run the flag goes up only by a caller that finds a reload needed and comes down only after a reload that succeeded |
| TlsReconciler.FailedReloadBlocksEveryone | app/domain/monitor/tls_monitor.go:473-476 | A failed provider call with nobody else past the check blocks every other and later caller for good |
| TlsReconciler.FirstFailureFreezes | app/domain/monitor/tls_monitor.go:464-476 | A run of one caller whose first reload fails ends with the flag up for good |
| TlsReconciler.SuccessfulReloadFreezes | app/domain/monitor/tls_monitor.go:459-516 | So does a run of two callers in which the one provider call succeeds |
| TlsReconciler.LateSleeperMissesBroadcast | app/domain/monitor/tls_monitor.go:459-462 | A run in which a caller starts to wait after the broadcast and sleeps with the flag down |
| TlsReconciler.SleeperCanWakeIff | app/domain/monitor/tls_monitor.go:459-514 | From every state that keeps the invariant, a waiting caller can ever be woken exactly when the flag is not up for good or a broadcast is still to come |
| FanOut.OutputsReceivePrefixes | app/functions/regurgitator/main.go:420-446 | In every interleaving outputs hold prefixes of what was consumed, at most one item behind and never ahead of an earlier output; each is closed at most once, only at the end, and by the return |
| FanOut.UncancelledDeliversAll | app/functions/regurgitator/main.go:420-446 | Without cancellation every output has received the whole input when the fan-out returns |
| FanOut.RunAccounts | app/functions/regurgitator/main.go:429-445 | Consumed and pending items are, in order, what was produced, in every run |
| FanOut.RemoteWriter.Flush | app/functions/regurgitator/main.go:96-135 | Sends the whole batch when some of the ten attempts gets through before a cancellation, and keeps the whole batch otherwise |
| FanOut.DeliversIff | app/functions/regurgitator/main.go:103-132 | A flush gets through exactly when one of ten attempts is written after others that failed and were not followed by a cancellation |
| FanOut.RemoteWriter.WriteOne | app/functions/regurgitator/main.go:86-94 | Buffers below the batch size; from it on sends everything buffered, or reports an error with everything still buffered |
| FanOut.RemoteWriter.Close | app/functions/regurgitator/main.go:137-139 | Success means every item ever given was written, once and in order |
| Decode.DecodeV1 | app/domain/metric_collector.go:345-372 | Every sample of every series in order, but those without a name, whatever its ids and creation times |
| Decode.LabelMapIsLast | app/domain/metric_collector.go:348-352 | A label map holds the last value given for each name |
| Decode.ResolveIff | app/domain/metric_collector.go:391-401 | References resolve exactly when they come in pairs and are in bounds |
| Decode.ResolvedSpells | app/domain/metric_collector.go:391-401 | Label k is spelled by references 2k and 2k+1 |
| Decode.DecodeV2 | app/domain/metric_collector.go:383-427 | The metrics of the desymbolized series with their statistics, or the error or panic of the first series that does not resolve |
| Decode.DecodedV1TellOfAll | app/domain/metric_collector.go:345-372 | Metric by metric: the metrics are one a sample, in order, of the series with a non-empty last name; each has the collector's cluster and account, the sample's time and value, the last name and node of its series, and exactly its other labels with their last values |
| Decode.DecodedV2TellOfAll | app/domain/metric_collector.go:387-416 | The same of all series, with their references spelled out |
| Decode.DesymbolizedAt | app/domain/metric_collector.go:391-401 | A spelled-out series has the request's samples and the labels its references resolve to |
| Decode.SumsAdd | app/domain/metric_collector.go:418-421 | The histogram and exemplar statistics grow by each series' own numbers |
| Decode.DecodesIff | app/domain/metric_collector.go:391-401 | Decoding succeeds exactly when all references are paired and in bounds; paired ones give an error exactly when one is out of bounds, and never a panic |
| Decode.VersionsAgree | app/domain/metric_collector.go:337-428 | Version 1 on the desymbolized series yields the same metrics but for nameless ones, ids and creation times; the sample statistic counts the metrics |
| Decode.DecodedAreClean | app/domain/metric_collector.go:347-416 | A decoded metric carries neither name nor node among its labels |
| Metrics.Receiver.ImportLabels | app/types/metric.go:289-315 | In any order of the map, the name and node labels set their fields if present and all others are merged over the labels |
| Metrics.Receiver.UnmarshalJSON | app/types/metric.go:242-276 | Succeeds exactly when the id and both times parse, and then replaces all fields, labels being imported; a failure leaves what had been set before it |
| Metrics.ImportingMerges | app/types/metric.go:296-315 | Importing sets name and node if there, merges the other labels over those present, and changes nothing else |
| Metrics.UnmarshallingReads | app/types/metric.go:242-276 | Every field is read from its own entry, but name and node from their labels where there are such |
| Metrics.FullLabelsImportIff | app/types/metric.go:296-331 | Importing a metric's full labels restores it exactly when no label has a hoisted name |
| Metrics.JsonRoundTripIff | app/types/metric.go:218-276 | Unmarshalling a marshalled metric restores it to the millisecond exactly when no label has a hoisted name |
| Metrics.ParquetRoundTripIff | app/types/metric.go:138-181 | So does the Parquet form, but for the id |
| Metrics.JsonTellsApart | app/types/metric.go:218-230 | Metrics have the same JSON form exactly when they agree in all fields to the millisecond; each field is under its own name |
| Metrics.ParquetColumns | app/types/metric.go:161-181 | Each field is in its own column, times rounded down to milliseconds, and name and node are put over the labels where set |
| Metrics.MillisAreStable | app/types/metric.go:138-181 | A second round trip changes no time, and the first loses less than a millisecond |
| Pipeline.DecodedV2Survive | app/domain/metric_collector.go:376-428 | Whatever version 2 decoding returns and any filter selects is restored by both the JSON and the Parquet form, but for a fraction of a millisecond of its creation time and, in Parquet, its id |
| Pipeline.DecodedV1Survive | app/domain/metric_collector.go:338-373 | And so is what version 1 decoding returns |
| Filter.NewFilterChecker | app/domain/filter/filter_checker.go:201-233 | No checker for no entries, an error exactly when an entry does not compile, otherwise the entries sorted by kind |
| Filter.Test | app/domain/filter/filter_checker.go:268-302 | True exactly when there is no checker or some pattern of some kind matches |
| Filter.DecidesIsAccepts | app/domain/filter/filter_checker.go:268-302 | The compiled checker decides as "some entry matches" does |
| Filter.EntryMatchesIff | app/domain/filter/filter_checker.go:268-302 | An entry matches the pattern itself, or the pattern with something behind, before or around it |
| Filter.OrderAndRepetitionDoNotMatter | app/domain/filter/filter_checker.go:201-302 | Checkers compiled from the same entries in any order and number decide alike |
| Filter.NewMetricFilter | app/domain/metric_filter.go:24-66 | Fails exactly when an entry of some list does not compile; is absent exactly when there are no entries; otherwise passes just the names its configuration accepts |
| Filter.Filter | app/domain/metric_filter.go:74-120 | The cost and observability selections and the dropped metrics; no label map that existed is written to; under a label filter an output's maps are all new, without one they are the inputs', and with any label filter the outputs share none |
| Filter.SelectedIff | app/domain/metric_filter.go:83-113 | Selected are exactly the metrics whose name passes, with exactly the labels that pass |
| Filter.SelectedByConfiguration | app/domain/metric_filter.go:83-113 | By configuration, selected are exactly the metrics whose name the names accept, with exactly the labels the label names accept |
| Filter.SelectedConcat | app/domain/metric_filter.go:79-117 | Selection works metric by metric and keeps their order |
| Filter.DroppedByConfiguration | app/domain/metric_filter.go:115-117 | Dropped are exactly the metrics neither list of the configuration accepts |
| Filter.SelectingTwice | app/domain/metric_filter.go:74-120 | Filtering a selection again leaves it unchanged |
| Filter.SelectedAreClean | app/domain/metric_filter.go:74-120 | Filtering keeps metrics free of hoisted labels |
| Converter.MetricToTimeSeries | app/domain/metricio/converter.go:128-166 | Every non-empty label once, in strict order of names, and one sample at the metric's millisecond |
| Converter.SeriesIsUnique | app/domain/metricio/converter.go:144-153 | That leaves one series, whatever the order of the map and of the unstable sort |
| Converter.SeriesNamesItsFields | app/domain/metricio/converter.go:130-142 | Fields that are set are labels of their own names, over labels of the same names |
| Converter.TimeSeriesToMetrics | app/domain/metricio/converter.go:88-126 | A metric a sample, its hoisted fields and labels from the last value of each name |
| Converter.ReadMetricTellsOf | app/domain/metricio/converter.go:90-126 | Each field read is the last value of its label or empty, all other labels are kept with their last values, and time and value are the sample's |
| Converter.SeriesRoundTripIff | app/domain/metricio/converter.go:88-166 | A metric comes back from its series, but for id, creation time and fractions of a millisecond, exactly when its labels have no hoisted names and no empty values and its value is written as the number would be |
| Converter.ConvertSingle | app/domain/metricio/converter.go:29-79 | In order of names: the record's name, its other fields that are set, and its parsed non-empty labels but the name |
| Converter.ProperSeriesIff | app/domain/metricio/converter.go:29-79 | The order is strict exactly when no parsed label repeats a field that is set, and no value is empty exactly when the record has a name |
| Converter.ClusterLabelIsSentTwice | app/domain/metricio/converter.go:35-62 | The record of a metric with a cluster and a cluster label makes no proper series |
| Converter.RecordRoundTripIff | app/domain/metricio/converter.go:29-126 | A metric written as a record and then as a proper series comes back under the same conditions exactly when it has no node |
| Converter.RecordNodeComesBackTwice | app/domain/metricio/converter.go:29-126 | A metric with a node comes back with everything and the node once more, as a label |
| Requests.RootOfSlash | app/domain/shipper/utils.go:34-41 | The root id of a slash with an extension is empty |

## Left out

- HTTP handlers, routing, Kubernetes clients, certificate generation, cloud detection and configuration loading: plumbing around libraries.
- Brotli, snappy, protobuf, JSON and Parquet syntax, regular expressions, float and UUID text: abstract functions, with an inverse law where a round trip needs one. Marshalling a metric is taken to succeed.
- Floating-point rounding: rates and percentages are real numbers.
- Locks, the worker pool and the shutdown handshake: methods under a mutex are atomic, workers interleave step by step, and the final flush at exit is not modelled.
- Retries and backoff inside one push, and reading a file and sending it inside one upload: one outcome each.
- RecordDelivery.SentRecordsWerePushed: one flush and one purge at a time; a namespace that is null counts as part of a key like any other.
- FileLifecycle.NothingLeavesUndelivered: assumes the collector finalizes under distinct names, whose exact condition is `DiskStore.NamesCollideIff`; a base path naming "uploaded" is covered, but whether such a path's files are then listed as new is not.
- Requests.AbandonedIffNotLocal: assumes the listed chunk consists of metric files that a walk of the directory also visits.
- FileLifecycle.ReplayFindsAnotherFileIff: only for ids of store files; any other id is covered by `FileLifecycle.RunsDeliverUnderOwnIdIff`.
- FileLifecycle.RunsDeliverUnderOwnIdIff: for a base path that does not name "uploaded".
- ErrorRate.Tracker.Healthy: assumes clock readings that do not go back; a zero reading is not taken for "never".
- The files and the walks of GetFiles and ListFiles, the request that abandons ids, and the collector's observability flushing: they add no harder property.
- Converter.TimeSeriesToMetrics: the metrics of one series share a label map; here label maps are values outside the filter.
- Purge.LimitedUsageIsMonotone: without a limit the percentage is the file system's own reading, which is taken not to rise.
- Metrics.ParquetRoundTripIff: the partition fields year, month, day and hour, which reading ignores, are not modelled.
- Channel capacities and back pressure in the fan-out, and its writers other than the remote one.
- Prometheus counters, logging, tracing and status codes.
