# Dockpal state machines, verified

A Dafny model of the parts of Dockpal that keep state or order: the auto-update worker and its
record store, compose start order and deploy with compensation, the deploy event fan-out, the edge
connection manager, the sliding-window rate limiter, the exec stream demultiplexer, the log
rotator, the metrics range scan, the compose editors for labels and digests, and the token-version
rule behind login sessions. `dafny verify dfyconfig.toml` checks everything.

Each file models one component. Objects that the program updates in place are classes, and each
method is proved to be a step of a specification on values; what the component promises is proved
about that specification, over whole runs where several goroutines or calls are involved.

| file | component |
|---|---|
| `AutoUpdater.dfy`, `UpdateSchedule.dfy` | one run of the update pipeline; how runs of several apps interleave |
| `AppUpdates.dfy`, `AppUpdateStore.dfy`, `Bytes.dfy` | keys, records and purging; the two-bucket store; bytewise order |
| `ImageRefs.dfy`, `ImagePinning.dfy`, `ComposeTree.dfy`, `ServiceLabels.dfy` | image references, digest pins, YAML trees, labels |
| `StartOrder.dfy`, `DeployCompose.dfy`, `DeployFanout.dfy` | start order, deploying with cleanup, event fan-out |
| `EdgeConnections.dfy`, `EdgeManager.dfy` | the edge connection machine; the manager object |
| `RateLimit.dfy`, `ExecDemux.dfy`, `LogRotation.dfy`, `MetricsHistory.dfy` | the byte- and time-level loops |
| `TokenVersion.dfy` | users, token versions, accepted tokens |
| `Collections.dfy`, `UpdateStages.dfy` | notions that several components share |

Outside answers (Docker, registries, the health probe, file renames that find nothing, map
iteration order, goroutine interleaving) are parameters or free choices, so every theorem holds
for all of them. The clock never goes back. Times are integers: microseconds in the update store,
seconds in the metrics store.

Where the code and its comments disagree, the model follows the code:

- `internal/metrics/history.go:74` announces the range [from, to); the code includes `to`.
- `internal/metrics/history.go:159` promises at most maxPoints results; there can be one more.
- `internal/docker/execcommand.go:95-97` discards what is beyond the cap; later, smaller pieces
  are still kept, so truncated output need not be a prefix.
- `internal/db/app_updates.go:116-118` clamps times before 1970 to MaxInt64; the code clamps to 0.
- `internal/docker/compose.go:476` ignores a "not found" answer when removing; the code returns it.

## Model

| member | source | states |
|---|---|---|
| AutoUpdater.Worker.TriggerApp | internal/docker/auto_updater.go:656-915 | A trigger ends in exactly one outcome, and each outcome names the answer that led to it. Only an attempt changes the store or deploys; a skip leaves exactly its one feed event, and any other outcome leaves none. An attempt is done as the six InFull rows below spell out for stages, codes, services, feed, store and deploys, names the worker's instance and who triggered it, notes a completion time iff it completed, and is never begun while the cooldown forbids it, unless that was bypassed or listing the records failed |
| AutoUpdater.Worker.TriggerHeld | internal/docker/auto_updater.go:670-915 | The same while the app is held: the guards, then the rest |
| AutoUpdater.Worker.Guards | internal/docker/auto_updater.go:672-727 | A trigger is skipped by the cooldown iff it is not bypassed, the listing works and some stored attempt is too recent; by the window iff the first guard passes, it is not bypassed and the window forbids; a skip publishes exactly its one feed event |
| AutoUpdater.Worker.Proceed | internal/docker/auto_updater.go:729-773 | Past the guards: each missing answer ends the trigger with nothing changed; with all of them the attempt is run |
| AutoUpdater.Worker.StartAttempt | internal/docker/auto_updater.go:807-915 | The new record is filed under its own start time and id, names image, previous and new digest of every service, and ends up stored with the whole stage word |
| AutoUpdater.Worker.BuildServices | internal/docker/auto_updater.go:807-824 | In any map order: one entry per declared service, with the digest that a rollback would pin |
| AutoUpdater.Worker.RunAttempt | internal/docker/auto_updater.go:837-915 | Stages, final error code, feed events, deploys and the stored record of one attempt, from the first save to the terminal one |
| AutoUpdater.Worker.RunForward | internal/docker/auto_updater.go:839-914 | Pull, recreate, verify up to completion or the first failure; a failure after the pull is handed on with its error code |
| AutoUpdater.Worker.PullStage | internal/docker/auto_updater.go:837-864 | A failed pull ends the attempt, recorded and published with auth_missing or pull_error as the failing service answered |
| AutoUpdater.Worker.Complete | internal/docker/auto_updater.go:909-914 | Completion is noted before its event, with no error code |
| AutoUpdater.Worker.Undo | internal/docker/auto_updater.go:873-884 | A failed attempt ends rolled back with the original code when the redeploy works, and failed with rollback_failed when it does not |
| AutoUpdater.Worker.AppendEvent | internal/docker/auto_updater.go:963-994 | Stage and update time of the record become those of the new last event, error code and message only change when given, and the stored record is the caller's |
| AutoUpdater.Worker.CoolingDown | internal/docker/auto_updater.go:675-699 | Looking at the newest record alone decides whether any stored attempt of the app is too recent |
| AutoUpdater.Worker.CaptureDigests | internal/docker/auto_updater.go:780-805 | The loop keeps, per declared service, the digest of the first container that carries its label |
| AutoUpdater.Worker.PullServices | internal/docker/auto_updater.go:845-863 | In any map order: fails iff some updated service cannot be pulled; otherwise pulls all updated services and no other |
| AutoUpdater.Worker.Rollback | internal/docker/auto_updater.go:1028-1071 | Fails iff no digest was captured, some service with a digest cannot be pinned (no such service, not a mapping, no scalar image, or no repository in it) or the redeploy fails; otherwise deploys the pinned compose once, without pulling |
| AutoUpdater.OneTerminalStage | internal/docker/auto_updater.go:837-914 | Every attempt runs through two to four distinct stages and exactly the last is terminal |
| AutoUpdater.TerminalMeansDeploys | internal/docker/auto_updater.go:845-914 | completed iff the one deploy was forced, of the original file, and healthy; rolled_back means a second, unforced, successful deploy of the pinned file; a failed pull iff no deploy at all |
| AutoUpdater.RollbackRestoresImages | internal/docker/auto_updater.go:1028-1055 | In the file a rollback deployed the image of every service with a captured digest reads repo@digest, the repository being split from the raw text, and no other service was touched |
| AutoUpdater.WordInFull | internal/docker/auto_updater.go:837-915 | The stage word that RunAttempt follows, and RunForward up to its failure, written out for every combination of answers from outside |
| AutoUpdater.StagesInFull | internal/docker/auto_updater.go:837-915 | The stages of the record of an attempt: pulling, failed if some updated service cannot be pulled; pulling, recreating, X if the deploy fails; pulling, recreating, verifying, X if the probe fails; else pulling, recreating, verifying, completed. X is rolled_back if some digest was captured, every service with one can be pinned and the redeploy works, else failed. Each stage may follow the one before in the sense of UpdateSchedule |
| AutoUpdater.CodesInFull | internal/docker/auto_updater.go:857-914 | The final error code: auth_missing or pull_error as a failing service answered, compose_error or health_probe_failed when rolled back from that failure, rollback_failed when that did not work, none on completion |
| AutoUpdater.ServicesInFull | internal/docker/auto_updater.go:780-824 | The record lists exactly the declared services, each with its declared image, the digest of the first container that carries its label (none if no container does), and the remote digest if one is known |
| AutoUpdater.FeedInFull | internal/docker/auto_updater.go:963-1007 | The feed gains one event per stage, in order, with the id and time of the stage; only the last carries the error code |
| AutoUpdater.StoredInFull | internal/docker/auto_updater.go:983-994 | Both buckets of the store hold the record as it ended, under its id and its key |
| AutoUpdater.DeploysInFull | internal/docker/auto_updater.go:866-914 | No deploy when a pull failed; else the forced one of the compose file, followed by the unforced one of the pinned file when the attempt was undone and everything could be pinned |
| AutoUpdater.CanPinIff | internal/docker/auto_updater.go:1034-1055 | A rollback gets as far as its redeploy iff some digest was captured and every service with one has an image that splits into a repository |
| UpdateSchedule.SingleFlight | internal/docker/auto_updater.go:660-670 | In every interleaving at most one attempt per app is between its first and its terminal stage, seen from the goroutines and from the stored records |
| UpdateSchedule.BoundedFanOut | internal/docker/auto_updater.go:605-616 | Never more scheduled runs at work than the semaphore has slots |
| UpdateSchedule.CooldownRespected | internal/docker/auto_updater.go:672-700 | An attempt begun without bypass starts at least the cooldown after every earlier attempt of its app, across all interleavings and a non-decreasing clock |
| UpdateSchedule.QuietMeansReleased | internal/docker/auto_updater.go:605-670 | When all triggers have ended, no mutex or slot is held and every record is terminal |
| UpdateSchedule.GuardPasses | internal/docker/auto_updater.go:675-687 | What reading the newest record establishes about all earlier starts |
| UpdateSchedule.TimesAfterBegin | internal/docker/auto_updater.go:811-838 | Starting an attempt keeps the guard sound for all other triggers |
| UpdateSchedule.WriterDrives | internal/docker/auto_updater.go:826-914 | Every unfinished record is the one its running trigger is working on |
| UpdateSchedule.TryLockIff | internal/docker/auto_updater.go:660-670 | A trigger gets the app iff no other one is between its lock and its unlock |
| UpdateSchedule.GuardIff | internal/docker/auto_updater.go:672-700 | The guard lets a trigger through iff it bypasses the cooldown or every stored attempt of its app began at least a cooldown ago |
| UpdateSchedule.StagesAreStored | internal/docker/auto_updater.go:826-914 | Beginning stores the attempt as pulling, each later stage overwrites that one record, and no other step touches the store |
| UpdateSchedule.OnlyForward | internal/docker/auto_updater.go:605-915 | Each own step brings a trigger nearer its end, and no other step moves it |
| UpdateSchedule.NeverBlocked | internal/docker/auto_updater.go:605-670 | Until it is done every trigger has an enabled step of its own, whatever the others do; a slot can be had iff one is free |
| UpdateSchedule.AlwaysInv | internal/docker/auto_updater.go:605-915 | All of the above facts hold together in every reachable state |
| AppUpdates.KeyReversesTime | internal/db/app_updates.go:119-131 | Bytewise key order is reversed time order within an app, times before 1970 counting as time zero |
| AppUpdates.KeyInjective | internal/db/app_updates.go:119-131 | Equal keys iff equal app and equal start time, times before 1970 counting as time zero |
| AppUpdates.NegativeTimesCollide | internal/db/app_updates.go:119-122 | So no time before 1970 has a key of its own |
| AppUpdates.PrefixIsolatesApp | internal/db/app_updates.go:119-131 | For a name without a zero byte the scan prefix picks exactly its own keys and those of names that begin with the prefix, which all hold a zero byte |
| AppUpdates.ZeroByteLeaks | internal/db/app_updates.go:189-200 | Such a pair of names |
| AppUpdates.AttemptIdInjective | internal/docker/auto_updater.go:811 | The id names app and start time unambiguously |
| AppUpdates.SaveAgreesIff | internal/db/app_updates.go:141-176 | A save keeps the two buckets holding the same records iff the record is compatible with those stored |
| AppUpdates.WorkerRecordsCompatible | internal/docker/auto_updater.go:811-835 | Records built by the worker are always compatible with each other |
| AppUpdates.SaveRecords | internal/db/app_updates.go:141-176 | A save replaces the record of the same key, or adds one, and changes no other |
| AppUpdates.SavedInFull | internal/db/app_updates.go:141-176 | A record is stored as given in both buckets, except that an update time before its start becomes its start |
| AppUpdates.AppendedInFull | internal/db/app_updates.go:298-339 | An appended event becomes the last one, sets the stage and moves the update time forward only; nothing else of the record changes, and no other record |
| AppUpdates.AppendAgrees | internal/db/app_updates.go:298-339 | Appending an event keeps the buckets in agreement and changes that record alone |
| AppUpdates.RemoveAgrees | internal/db/app_updates.go:436-446 | Deleting records removes them from both buckets and nothing else |
| AppUpdates.RunsAgree | internal/db/app_updates.go:141-446 | After every run of worker saves, appended events and purges both buckets hold the same records |
| AppUpdates.StepAgrees | internal/db/app_updates.go:141-446 | One such operation keeps it |
| AppUpdates.NewestFirstUnique | internal/db/app_updates.go:184-218 | There is one newest-first listing up to the limit when start times differ |
| AppUpdates.PurgeBounds | internal/db/app_updates.go:354-431 | After a purge both limits hold, and no kept record of an app is older than one dropped from it |
| AppUpdates.PurgeKeepsEnough | internal/db/app_updates.go:354-431 | A purge keeps exactly as many records of an app as its limit allows, unless the second pass had to delete; then exactly the total is left |
| AppUpdates.PurgeIdempotent | internal/db/app_updates.go:354-431 | A second purge with the same limits deletes nothing |
| AppUpdates.PurgeBelowLimits | internal/db/app_updates.go:393-423 | Below both limits a purge deletes nothing |
| AppUpdates.HeadIsTrim | internal/db/app_updates.go:389-405 | Cutting a newest-first list at the limit is a trim of its set |
| AppUpdates.SortNewestFirst | internal/db/app_updates.go:389-391 | The sort lists the same records, newest first |
| AppUpdateStore.ScanIsNewestFirst | internal/db/app_updates.go:184-218 | The prefix scan of a bucket lists exactly the newest records of that app, newest first, up to the limit |
| AppUpdateStore.WalkIsScan | internal/db/app_updates.go:198-211 | Seeking and walking until the prefix ends or the limit is reached sees every key of the prefix that counts |
| AppUpdateStore.Store.SaveAppUpdate | internal/db/app_updates.go:141-176 | Refuses a missing id or app without effect; otherwise both buckets are written as specified |
| AppUpdateStore.Store.AppendAppUpdateEvent | internal/db/app_updates.go:298-339 | Refuses a missing or unknown id without effect; otherwise the event lands in both buckets |
| AppUpdateStore.Store.ListAppUpdates | internal/db/app_updates.go:184-218 | The cursor loop returns a scan of the app's prefix |
| AppUpdateStore.Store.GetAppUpdate | internal/db/app_updates.go:263-289 | Refuses an empty id; otherwise finds the record iff the by-id bucket has it |
| AppUpdateStore.Store.DeleteAppUpdate | internal/db/app_updates.go:436-446 | Deletes the record from both buckets |
| AppUpdateStore.Store.GroupByApp | internal/db/app_updates.go:373-383 | Groups hold every stored record once, under its app |
| AppUpdateStore.Store.Trim | internal/db/app_updates.go:389-405 | Keeps a newest-first head within the limit, deletes the rest, and counts it |
| AppUpdateStore.Store.TrimEachApp | internal/db/app_updates.go:385-409 | Pass one in any map order: each app is trimmed and the survivors are what is left |
| AppUpdateStore.Store.PurgeOlderThan | internal/db/app_updates.go:354-431 | Both passes together; the returned count is the difference in size |
| Bytes.PrefixesAreContiguous | internal/db/app_updates.go:198-202 | Once past the keys with a prefix no larger key carries it, so the walk may stop |
| Bytes.BigEndianOrder | internal/db/app_updates.go:127-129 | Big-endian encodings of one width compare as the numbers do |
| Bytes.DecimalOrder | internal/metrics/history.go:64 | Decimals of the same length compare as the numbers do |
| Bytes.DecimalOrderIff | internal/metrics/history.go:64 | Decimals of any lengths compare as the numbers do after padding the shorter with zeros |
| Bytes.DecimalInjective | internal/docker/auto_updater.go:811 | A decimal rendering names one number |
| ImageRefs.RepoOfReference | internal/docker/auto_updater.go:583-598 | The repository comes back whole from all four kinds of reference |
| ImageRefs.PinReplacesSuffix | internal/docker/auto_updater.go:583-598 | Pinning a reference of any of the four kinds gives repository@digest |
| ImageRefs.NoRepoIff | internal/docker/auto_updater.go:583-598 | No repository is left iff nothing precedes the digest or only one leading colon with no slash after it |
| ImageRefs.SplitShape | internal/docker/auto_updater.go:583-598 | The result is a plain repository iff the last segment has at most one colon |
| ImageRefs.CutAtLastColon | internal/docker/auto_updater.go:588-597 | A tag is cut at the last colon iff that follows the last slash |
| ImageRefs.PinTwiceIff | internal/docker/auto_updater.go:583-598 | Pinning twice equals pinning once iff the last segment has at most one colon |
| ImageRefs.PlaceholderPinsDiffer | internal/docker/auto_updater.go:583-598 | A ${A:-b:1} placeholder is an image on which pinning twice differs |
| ImagePinning.RewriteAfterPins | internal/docker/compose.go:894-944 | One more rewrite gives the file with one more pin, and succeeds iff the service can be pinned in the original, so the order of services cannot matter |
| ImagePinning.RewriteOkIff | internal/docker/compose.go:894-944 | A rewrite succeeds iff service and digest are named, the service is there and a mapping, and its image is a scalar that splits into a repository; otherwise the error says what is missing |
| ImagePinning.PinServices | internal/docker/auto_updater.go:1034-1055 | In any map order: succeeds iff every declared service with a captured digest has a scalar image that splits into a repository, with the same result and count |
| ImagePinning.PinnedService | internal/docker/compose.go:912-937 | A wanted service gets repo@digest and keeps its other keys; any other service is unchanged |
| ImagePinning.OtherKeysKept | internal/docker/compose.go:894-944 | Everything outside services is unchanged |
| ImagePinning.PinAgainIff | internal/docker/compose.go:894-944 | A second rollback of the rewritten file changes nothing iff every pinned image has at most one colon in its last segment |
| ImagePinning.PinImageTwice | internal/docker/compose.go:930-937 | The same for one service |
| StartOrder.ResolveStartOrder | internal/docker/compose.go:164-170 | A start order is returned iff the dependencies are acyclic; it lists every service that is declared or named as a key of the mapping form or a string of the list form, once, each after all it names; an error names a service on a real cycle |
| StartOrder.ServiceEdgeIff | internal/docker/compose.go:164-191 | a depends on b iff a is declared and b is a key of its mapping or a string of its list |
| StartOrder.OrderInFull | internal/docker/compose.go:164-224 | What a start order says of the services themselves: no repetition, exactly the declared and named ones, and every named one before the service that names it |
| StartOrder.TopologicalSort | internal/docker/compose.go:193-224 | The same for any dependency map and any order of ranging over it |
| StartOrder.Sorter.Visit | internal/docker/compose.go:198-216 | A visit ends; without error the node is listed, the order only grew and the stack is as before; with an error there is a cycle through the named node |
| StartOrder.ParseDependsOn | internal/docker/compose.go:172-191 | The names are exactly the keys of the mapping form or the strings of the list form; other items are skipped, and an absent field names none |
| StartOrder.StartOrderImpliesAcyclic | internal/docker/compose.go:193-224 | Only an acyclic graph has a start order |
| StartOrder.WalkDescends | internal/docker/compose.go:193-224 | Along any chain of dependencies positions in a start order decrease |
| StartOrder.StackClosesCycle | internal/docker/compose.go:199-202 | Meeting a node on the recursion stack means a real cycle |
| StartOrder.OutcomeIsDetermined | internal/docker/compose.go:217-223 | Two runs in different map orders agree on success and on the services listed |
| StartOrder.FinishNode | internal/docker/compose.go:206-215 | Appending a finished node keeps the order good |
| DeployCompose.DeployComposeStreamed | internal/docker/deploy_stream.go:190-295 | On success every service runs and was started after all its dependencies; a failed create calls one removal per container it made and leaves only those that refused it, and names the service whose settings were bad or whose container the daemon, in the logged conversation, would not create or start; nothing else is touched except stopped holders of the names; a failure before creating touches nothing; an order error iff the dependencies are cyclic, a pull error iff some image cannot be pulled, a write error iff writing then fails |
| DeployCompose.RunningIsSafe | internal/docker/compose.go:464-474 | A container that was running before, and does not stop by itself, is never asked to be removed and is unchanged |
| DeployCompose.FailureRestores | internal/docker/deploy_stream.go:211-225 | When no removal is refused a failed deploy leaves exactly the old containers without the stopped ones in its way |
| DeployCompose.OrderGivesStarts | internal/docker/deploy_stream.go:268-291 | Containers started along a start order start each service after its dependencies, and cover every service |
| DeployCompose.NamesClashIff | internal/docker/compose.go:419 | Two services share a container name iff they are the same, or one project continues the other by an underscore and the services make up the difference |
| DeployCompose.CreateOrUndo | internal/docker/deploy_stream.go:268-291 | The create loop with its cleanup, and the service that made it stop |
| DeployCompose.CreateAll | internal/docker/deploy_stream.go:268-291 | The loop stops at the first failure with the earlier services running in order; it stops only for bad settings or for a create or start that the daemon refused |
| DeployCompose.Cleanup | internal/docker/deploy_stream.go:214-225 | Calls a removal for every listed id, once, whatever the answers; only listed containers go |
| DeployCompose.CreateAndStartService | internal/docker/compose.go:349-449 | Success leaves exactly one new running container; failure leaves at most its own, whose removal was refused. The conversation with the daemon is create, start, and a removal only after a failed start |
| DeployCompose.CreateContainer | internal/docker/compose.go:429-439 | The conversation: one create; after an "already in use" answer one inspection, one removal if the holder is stopped, and if that worked one more create |
| DeployCompose.RemoveStaleContainerByName | internal/docker/compose.go:464-474 | Only a stopped holder of the name is ever removed; true iff one was |
| DeployCompose.StartOrRemove | internal/docker/compose.go:441-448 | A container that does not start is to be removed at once |
| DeployFanout.SubscriberSees | internal/docker/deploy_stream.go:55-106 | In every reachable state what a subscriber received followed by what is buffered starts with the history at its subscription, is a subsequence of history, misses exactly as many events as it has drops, and never misses one of the first 64 live events |
| DeployFanout.DropsAddUp | internal/docker/deploy_stream.go:174-185 | The session counter is the sum of all subscribers' drops |
| DeployFanout.NoDropsNoLoss | internal/docker/deploy_stream.go:55-185 | A subscription without drops received or still buffers everything up to its end |
| DeployFanout.ChannelsCloseOnce | internal/docker/deploy_stream.go:71-106 | Registered channels are exactly the open ones, so no send or close ever meets a closed channel; a closed one never changes again |
| DeployFanout.AfterClose | internal/docker/deploy_stream.go:91-106 | Events after Close reach no channel, only the history a later subscriber gets |
| DeployFanout.EmitInFull | internal/docker/deploy_stream.go:174-185 | An event goes to the end of every registered channel with room; it is missed exactly where replay plus 64 events wait unreceived |
| DeployFanout.SubscribeInFull | internal/docker/deploy_stream.go:55-68 | A new subscriber finds exactly the whole history waiting, and is registered iff the session is open |
| DeployFanout.EndKeepsBuffer | internal/docker/deploy_stream.go:71-106 | Unsubscribing or closing takes nothing out of a channel, and ends exactly the channels it should |
| DeployFanout.OfferedBalanced | internal/docker/deploy_stream.go:178-184 | A drop means at least 64 live events were kept |
| DeployFanout.EmitKeeps | internal/docker/deploy_stream.go:174-185 | An emit keeps all of the above |
| DeployFanout.DeploySession.Subscribe | internal/docker/deploy_stream.go:55-68 | Buffer sized for the replay plus 64, filled with the history; closed at once on a closed session |
| DeployFanout.DeploySession.Unsubscribe | internal/docker/deploy_stream.go:71-78 | Closes and removes the channel if it is registered, else nothing |
| DeployFanout.DeploySession.EmitEvent | internal/docker/deploy_stream.go:174-185 | The loop over subscribers, in any order, offers the event to each once |
| DeployFanout.DeploySession.Broadcast | internal/docker/deploy_stream.go:177-184 | The range over the subscribers, in any order |
| DeployFanout.DeploySession.Close | internal/docker/deploy_stream.go:91-106 | Closes every registered channel once; a second call changes nothing |
| DeployFanout.DeploySession.Receive | internal/docker/deploy_stream.go:60-68 | Takes the next buffered event |
| DeployFanout.DeploySession.DroppedEvents | internal/docker/deploy_stream.go:82-86 | Reports the counter that DropsAddUp speaks of |
| EdgeConnections.ClosedExactlyOnce | internal/agent/manager.go:97-121 | In every interleaving a registered connection's done is open and any other was closed exactly once, so no select is what saves a second close |
| EdgeConnections.SupersededCleanup | internal/agent/manager.go:166-171 | The cleanup of a superseded connection changes neither map nor status nor any other connection |
| EdgeConnections.LiveUntilDisplaced | internal/agent/manager.go:97-184 | A live connection ends iff its instance reconnects or is deleted, its own read loop exits, or the manager closes |
| EdgeConnections.DeadStaysDead | internal/agent/manager.go:97-121 | A displaced connection is never registered again |
| EdgeConnections.RegisterInFull | internal/agent/manager.go:97-121 | A new connection is live, open and being read; the one it displaces is shut with its table kept; all other connections, rows and requests are as before |
| EdgeConnections.CleanupInFull | internal/agent/manager.go:157-184 | The clean-up of a live connection takes it out of the map, shuts it and writes offline if there is a row, and does nothing else |
| EdgeConnections.AnswerIsOwn | internal/agent/manager.go:188-257 | A request is answered only with its own id, by its own connection, of its own instance |
| EdgeConnections.DeliverInFull | internal/agent/manager.go:246-254 | Reading a response changes the inbox of a request iff the id is its own, it is enlisted on that connection and its inbox is empty; the inbox then holds that response, and nothing else changes |
| EdgeConnections.ResponseReaches | internal/agent/manager.go:209-254 | While a request waits and its connection is read, a response with its id can be read, fills its inbox, can be taken, and is what the call returns |
| EdgeConnections.InboxKept | internal/agent/manager.go:203-226 | A response waits in the inbox until a step of its own request |
| EdgeConnections.EndsBy | internal/agent/manager.go:188-226 | How a call ends and by which step: no connection iff none was registered, send failure iff the write failed, and likewise time-out, closed connection and response |
| EdgeConnections.WholeExchange | internal/agent/manager.go:188-257 | On a live connection that is being read the whole exchange is possible, from the look-up to the return of the response; the tables and the manager are as before |
| EdgeConnections.AnswersAreDistinct | internal/agent/manager.go:188-257 | No two requests get the same response |
| EdgeConnections.NoEntryLeft | internal/agent/manager.go:202-207 | A finished request is in no pending table |
| EdgeConnections.NeverStuck | internal/agent/manager.go:218-225 | On a connection that was torn down every request has an enabled step of its own; a waiting one sees the closed channel |
| EdgeConnections.OnlyForward | internal/agent/manager.go:188-226 | Every own step brings a request nearer its return, and no other step moves it |
| EdgeConnections.OfflineOnlyBy | internal/agent/manager.go:166-184 | An instance that has a row turns offline iff its live connection is torn down, the write of a delete that found no connection lands, or an install over SSH fails |
| EdgeConnections.RowInFull | internal/agent/manager.go:166-184 | The row of an instance after any step: which steps create or delete it, and which write enrolling, online or offline |
| EdgeConnections.DueInFull | internal/server/agent_ws.go:118-122 | Which steps make a later status write or delete due, and which one uses it up |
| EdgeConnections.StaleOnlineIff | internal/server/agent_ws.go:118-122 | "Online means registered" breaks exactly when an online write, after a registration or a ping, lands with nothing registered, or when the manager closes over an online instance |
| EdgeConnections.HiddenLiveIff | internal/agent/manager.go:135-151 | "Registered means not offline" breaks exactly when the write of a delete or of a failed install lands on a live connection, or an instance registers while still offline |
| EdgeConnections.OrphanIff | internal/server/instance_routes.go:476-482 | A connection is registered without a row exactly when the row is deleted under it or it registers after the row went |
| EdgeConnections.LateOfflineHidesLive | internal/agent/manager.go:146-150 | A reachable state in which the write of such a delete is still to come, the instance has reconnected and is online, and the write then hides the live connection |
| EdgeConnections.OnlineWithoutConnection | internal/server/agent_ws.go:118-122 | A reachable state in which the read loop has torn the only connection down, the online write of its handler is still to come, and that write leaves the instance online with nothing registered |
| EdgeConnections.AlwaysInv | internal/agent/manager.go:97-289 | The invariant behind these holds after every run |
| EdgeConnections.InvKept | internal/agent/manager.go:97-289 | and is kept by each step |
| EdgeManager.Manager.RegisterEdgeConnection | internal/agent/manager.go:97-121 | Shuts the old connection of the instance, if any, and registers a fresh one |
| EdgeManager.Manager.TeardownEdgeConnectionLocked | internal/agent/manager.go:166-184 | Acts only on the registered connection: shut, removed, offline |
| EdgeManager.Manager.UpdateInstanceStatus | internal/db/db.go:762-769 | Writes the status if the instance has a row, else nothing |
| EdgeManager.Manager.UnregisterEdgeConnection | internal/agent/manager.go:135-151 | Tears down the registered connection, or reports that the status write is still to come |
| EdgeManager.Manager.Close | internal/agent/manager.go:276-289 | The loop shuts every registered connection and empties the map |
| RateLimit.SameDecisions | internal/server/ratelimit.go:107-145 | In every run the limiter with its lazy cleanup decides, and answers retryAfter, exactly as a log of all accepted requests would |
| RateLimit.VerdictInFull | internal/server/ratelimit.go:107-145 | A request is allowed iff the max-th last acceptance of its key, if there is one, is at least a window ago; else retryAfter is the time until it is |
| RateLimit.PolicyInFull | internal/server/ratelimit.go:69-83 | Positive limits are taken as given, any other becomes a minute or five requests |
| RateLimit.RunRefines | internal/server/ratelimit.go:86-145 | After every run the table holds what the log says, as far as it can matter |
| RateLimit.AllowRefines | internal/server/ratelimit.go:107-145 | One request keeps that |
| RateLimit.CleanupRefines | internal/server/ratelimit.go:86-105 | So does a cleanup |
| RateLimit.CleanupInFull | internal/server/ratelimit.go:86-105 | A cleanup waits a minute since the last; then a key keeps exactly its times inside the window and goes when it has none |
| RateLimit.WindowBound | internal/server/ratelimit.go:107-145 | Every stretch as long as the window, open at its start and closed at its end, has at most max logged acceptances per key |
| RateLimit.AllowedBound | internal/server/ratelimit.go:107-145 | The same bound on the requests that the limiter itself let through |
| RateLimit.AcceptedIsLogged | internal/server/ratelimit.go:107-145 | The requests it let through are exactly those of the log |
| RateLimit.LogIsSpread | internal/server/ratelimit.go:107-145 | Acceptances max places apart are at least a window apart |
| RateLimit.RetryExact | internal/server/ratelimit.go:134-140 | After a denial a request is allowed iff the promised time has come, whatever others do |
| RateLimit.DeniedMeanwhile | internal/server/ratelimit.go:134-140 | Until then no request of the key is accepted |
| RateLimit.CompactInPlace | internal/server/ratelimit.go:93-98 | The in-place filter keeps exactly the times after the cutoff, in order |
| RateLimit.Prune | internal/server/ratelimit.go:119-127 | The same on the slice of one key |
| RateLimit.RateLimiter.CleanupExpired | internal/server/ratelimit.go:86-105 | Every key is filtered and empty keys go, in any map order |
| RateLimit.RateLimiter.Allow | internal/server/ratelimit.go:107-145 | The method is the specified step |
| ExecDemux.DemuxCorrect | internal/docker/execcommand.go:98-128 | For every byte stream the output fits the cap, is marked truncated iff the uncapped output does not fit, and otherwise equals it, including a cut-off last frame |
| ExecDemux.FrameInFull | internal/docker/execcommand.go:101-126 | The uncapped output frame by frame: first byte 2 is standard error and any other standard output, the size is big-endian in the last four bytes, a cut-off frame counts as far as it goes |
| ExecDemux.RoundTrip | internal/docker/execcommand.go:98-128 | Frames within the cap come back as the concatenated payloads |
| ExecDemux.ReadJoins | internal/docker/execcommand.go:110-126 | Reading frames in pieces of at most 64 KiB loses nothing |
| ExecDemux.CaptureBounded | internal/docker/execcommand.go:117-121 | The cap holds after any pieces, and truncation is reported exactly |
| ExecDemux.CaptureIsKept | internal/docker/execcommand.go:117-121 | The output is the concatenation of the pieces that fitted |
| ExecDemux.KeptIsHeadIff | internal/docker/execcommand.go:117-121 | The kept pieces are a head of the stream iff after the first dropped piece every later one is dropped too |
| ExecDemux.CutOncePrefix | internal/docker/execcommand.go:98-128 | In that case both outputs are prefixes of the uncapped ones |
| ExecDemux.SideKeptIsHeadIff | internal/docker/execcommand.go:117-121 | The kept pieces of one side are a head of the pieces of that side iff after the first one dropped there no later one of that side is kept |
| ExecDemux.PrefixWhateverTheBytesIff | internal/docker/execcommand.go:98-128 | The exact condition for one side: its output is a prefix of the uncapped one for all contents with these frames and lengths iff the side cuts once |
| ExecDemux.SideOutputIsPrefix | internal/docker/execcommand.go:98-128 | A side that cuts once yields a prefix, whatever the other side does |
| ExecDemux.TruncatedNotPrefix | internal/docker/execcommand.go:98-128 | A stream on which truncated output is not a prefix |
| ExecDemux.DemuxExecStream | internal/docker/execcommand.go:98-128 | The nested reading loops compute the specified output and end |
| ExecDemux.DemuxFrame | internal/docker/execcommand.go:110-126 | The inner loop reads one frame, or stops at the end of the stream |
| ExecDemux.Reader.ReadFull | internal/docker/execcommand.go:101-116 | Fails iff fewer bytes are left, and then hands over all of them |
| LogRotation.FilesAreSuffix | internal/logging/rotator.go:87-132 | After any writes the files, oldest to newest, spell a suffix of what was there followed by everything written |
| LogRotation.WriteSpells | internal/logging/rotator.go:87-132 | A write loses nothing, or exactly the oldest file when it rotates |
| LogRotation.ActiveBounded | internal/logging/rotator.go:91-99 | The active file ends with the last write and exceeds the limit only when it is that write alone |
| LogRotation.LossNeedsVolume | internal/logging/rotator.go:87-132 | Bytes are lost only when the files hold at least half the nominal capacity of newer ones |
| LogRotation.NothingLostYet | internal/logging/rotator.go:110-122 | While the last slot is empty nothing was lost |
| LogRotation.WritePacked | internal/logging/rotator.go:87-132 | Neighbouring files always hold more than one limit together |
| LogRotation.LogRotator.Rotate | internal/logging/rotator.go:105-132 | Every slot moves up by exactly one, also across gaps, and the active file is new and empty |
| LogRotation.LogRotator.Write | internal/logging/rotator.go:87-100 | A write that fits is appended to the active file, any other starts a new one after moving every file up; size equals the active file's length before and after |
| LogRotation.LogRotator.constructor | internal/logging/rotator.go:43-83 | Defaults for limits that are not positive; size is that of the file found |
| LogRotation.LimitsInFull | internal/logging/rotator.go:43-49 | Positive limits are taken as given, any other becomes 2 MiB or five files |
| MetricsHistory.QueryIsThinnedRange | internal/metrics/history.go:78-103 | A query returns the samples of the instance with from <= ts <= to, ascending, thinned only above maxPoints and then keeping first and newest with gaps of at most the stride |
| MetricsHistory.ScanIsRange | internal/metrics/history.go:78-93 | The byte-range scan finds exactly these, for ten-digit times and instances without a pipe character |
| MetricsHistory.KeyOrder | internal/metrics/history.go:63-64 | Within an instance keys compare as the times do |
| MetricsHistory.KeyOrderIff | internal/metrics/history.go:63-64 | For times of any number of digits keys compare as the times do after padding the shorter with zeros |
| MetricsHistory.ShortStartHidesIff | internal/metrics/history.go:80-88 | A start of fewer digits hides exactly the ten-digit samples below the padded start |
| MetricsHistory.SeriesIsConvex | internal/metrics/history.go:144-152 | Between two keys of an instance lie only its own |
| MetricsHistory.NineDigitStartHides | internal/metrics/history.go:80-81 | An instance of it: a nine-digit start is above a later ten-digit key |
| MetricsHistory.KeptShape | internal/metrics/history.go:155-171 | Kept positions: first and newest, gaps of at most the stride, at most maxPoints + 1, and that many exactly under the stated condition |
| MetricsHistory.KeptPositions | internal/metrics/history.go:155-171 | Kept position j is j times the stride, or the newest when that is smaller; the stride is the least that spreads the samples over maxPoints |
| MetricsHistory.OneTooMany | internal/metrics/history.go:159-170 | Ten points asked for can yield eleven |
| MetricsHistory.DownsampledIsPick | internal/metrics/history.go:155-171 | On samples in time order the loop's result is the pick of those positions |
| MetricsHistory.AppendWellKeyed | internal/metrics/history.go:63-72 | A stored row is filed under its own instance and time |
| MetricsHistory.Downsample | internal/metrics/history.go:155-171 | The stride loop computes the specified sequence |
| MetricsHistory.HistoryStore.Append | internal/metrics/history.go:63-72 | One row is put under the key of the sample |
| MetricsHistory.HistoryStore.Scan | internal/metrics/history.go:84-93 | The cursor loop visits every key of the range in order and skips malformed rows |
| MetricsHistory.HistoryStore.Query | internal/metrics/history.go:78-103 | Scan, then thin only if there are more than maxPoints |
| ServiceLabels.SetLabelReads | internal/docker/compose.go:740-843 | Set then read gives the new value and all other labels as before iff the field is settable: string keys in a mapping, in a list a key without = that no later entry shadows; refused iff labels is an alias |
| ServiceLabels.RemoveLabelReads | internal/docker/compose.go:740-843 | Remove then read: the label is gone and all others are as before, exactly under the stated condition: string keys in a mapping; in a list no second entry for the key, or, for a key with =, a dropped entry that was redundant |
| ServiceLabels.SetThenRemove | internal/docker/compose.go:740-843 | Setting an absent label and removing it gives back the same service, save for a labels field that held nothing |
| ServiceLabels.OtherServiceKeysKept | internal/docker/compose.go:740-843 | Every other key of the service is unchanged |
| ServiceLabels.SetServiceLabelEdits | internal/docker/compose.go:566-607 | The edit reaches every service that is a mapping and nothing else in the file; the file is refused iff some service has aliased labels |
| ServiceLabels.EveryServiceEdited | internal/docker/compose.go:591-600 | The loop over services edits each in place and stops at the first refusal |
| ServiceLabels.RefusalsInFull | internal/docker/compose.go:566-600 | Each refusal of the editor with its exact condition |
| ServiceLabels.ListEditInFull | internal/docker/compose.go:791-823 | A list edit rewrites, or drops, the first scalar that is the key or begins with it and =, and nothing else |
| ServiceLabels.ListAppendInFull | internal/docker/compose.go:824-829 | Without such an entry the new one comes last, and there is nothing to drop |
| ServiceLabels.ValueIsQuoted | internal/docker/compose.go:740-855 | A value set in a mapping is written as a double-quoted string, so that it is read as text |
| ServiceLabels.ParseLabels | internal/docker/compose.go:227-247 | The loops read mapping and list form as specified |
| ServiceLabels.LastEntryWins | internal/docker/compose.go:233-245 | In list form the last string entry for a key is the one read |
| ServiceLabels.EntryInFull | internal/docker/compose.go:236-242 | A list entry is cut at its first =; without one it is all key, with an empty value |
| ServiceLabels.MappingInFull | internal/docker/compose.go:229-232 | A mapping with string keys reads as exactly its keys with what their values show |
| ServiceLabels.SecondEntryShadows | internal/docker/compose.go:793-823 | A list on which set then read fails |
| ServiceLabels.SeqSetReads | internal/docker/compose.go:793-823 | Set then read on a list, both ways |
| ServiceLabels.SeqDropReads | internal/docker/compose.go:805-813 | Remove then read on a list, both ways and for every key |
| ServiceLabels.DropChangesNothingIff | internal/docker/compose.go:805-813 | Dropping an entry changes no label iff it is not a string, is hidden by a later one, or repeats the value that counted before |
| ServiceLabels.MatchesIsEntry | internal/docker/compose.go:794-804 | For keys without = the editor's test finds exactly the entries the reader credits to the key |
| TokenVersion.AcceptedRoleIsCurrent | internal/auth/jwt.go:53-86 | In every reachable state an accepted token carries the role its user has now |
| TokenVersion.RevokedForGood | internal/auth/jwt.go:53-86 | Nothing issued, or being issued, before a role change, password change, logout or bump of all is accepted at any later time |
| TokenVersion.OldSecretForGood | internal/auth/jwt.go:37-51 | Nothing signed under a replaced secret is accepted again |
| TokenVersion.AcceptedUntilRevoked | internal/auth/jwt.go:70-86 | An accepted token stops being accepted iff its user is changed or the secret replaced |
| TokenVersion.FreshTokenAccepted | internal/auth/handler.go:81-96 | What a login signs is accepted iff its user did not change since it was read |
| TokenVersion.RoleHolds | internal/db/db.go:355-374 | After a role change every login reads the new role, and every accepted token of the user shows it, until its next role change, in every run |
| TokenVersion.HashHolds | internal/db/db.go:271-290 | After a password change the new hash is the stored one until the next, in every run |
| TokenVersion.LoginInFull | internal/auth/handler.go:81-96 | What a login signs: name, version and the stored role or, where none is stored, admin for the user admin and viewer for anyone else; it is accepted at once |
| TokenVersion.StoredInFull | internal/db/db.go:271-374 | Role, hash and version of a user change by exactly the writes meant for them, and a user appears only by being created |
| TokenVersion.AcceptedIff | internal/auth/jwt.go:53-86 | A token is accepted iff its secret is the current one, its user exists and the versions agree; which refusal comes first |
| TokenVersion.SafeWriteIff | internal/auth/jwt.go:56-63 | The documented rule for new writes, both ways: safe iff the version grows, or version and role stay |
| TokenVersion.StaleForever | internal/db/db.go:271-374 | Versions never go back |
| TokenVersion.InvKept | internal/db/db.go:236-403 | Every transaction keeps every claim honest |
| TokenVersion.DB.GetUser | internal/db/db.go:236-258 | The stored user with its role made explicit |
| TokenVersion.DB.UpdatePasswordWithVersion | internal/db/db.go:271-290 | The hash of that user is the given one and its version one more; its role and every other user are unchanged; nothing changes if there is none |
| TokenVersion.DB.IncrementTokenVersion | internal/db/db.go:294-312 | The version of that user grows by one; its other fields and every other user are unchanged; nothing changes if there is none |
| TokenVersion.DB.UpdateUserRole | internal/db/db.go:355-374 | The role of that user is the given one and its version one more; its name and hash and every other user are unchanged; nothing changes if there is none |
| TokenVersion.DB.IncrementAllTokenVersions | internal/db/db.go:337-353 | The loop bumps every user once and changes nothing else |
| TokenVersion.DB.EnsureDefaultAdmin | internal/db/db.go:380-403 | Creates admin with the role admin, version 0 and the given hash iff there is no such user; every other user is unchanged |

## Left out

- AutoUpdater.Worker.TriggerApp: a save that fails (logged and ignored by the program), metrics hooks, webhooks, log lines and message texts are not modelled; the cooldown arithmetic does not overflow
- UpdateSchedule.CooldownRespected: runs without a purge and without store errors; a purge could forget the attempt that the guard looks at
- AppUpdates.RunsAgree: records come from the worker and appended events name a stored record or change nothing; foreign writers are covered by SaveAgreesIff
- DeployCompose.DeployComposeStreamed: which images cannot be pulled, which services have bad settings and whether the file can be written is fixed before the deploy; one client talks to the daemon during a deploy; a container that somebody else starts between the inspection and the removal, and a create that happens although it is answered with an error, are not modelled
- DeployCompose.RunningIsSafe: no container stops by itself during a deploy; one that runs at the start and stops before it is inspected holds its name as a stopped container and can be removed
- DeployCompose.CreateAndStartService: ports, binds, labels, networks and restart policy are one yes-or-no answer before anything is created; the file is taken as parsed
- DeployFanout.DeploySession.EmitEvent: events are opaque; the time stamp and the session id are not modelled
- EdgeConnections.AnswerIsOwn: request ids are fresh; a caller that reuses an id while its request is open would overwrite the table entry
- EdgeConnections.OfflineOnlyBy: a status write is one step, although the program reads the whole row and writes it back; the handlers that save a row for other fields can in this way put an old status back, and are not steps
- EdgeConnections.StaleOnlineIff: instances reached directly are not connected to the manager, and the online write after a ping to one is not a step
- EdgeConnections.NeverStuck: the 60 second timer may fire at any time; how long a write blocks is not modelled
- EdgeManager.Manager.RegisterEdgeConnection: SendEdgeRequest and edgeReadLoop span several critical sections and exist as steps of EdgeConnections only, not as methods of the object
- RateLimit.RateLimiter.Allow: the slices in the table are values, so their shared backing arrays are not modelled; CompactInPlace proves the in-place step on an array
- LogRotation.FilesAreSuffix: no age limit, no I/O errors, and rotated files numbered above maxFiles are not looked at
- MetricsHistory.ScanIsRange: times of ten digits, which is 2001 to 2286
- ServiceLabels.SetServiceLabelEdits: the program edits yaml nodes in place; here an edit is a function on trees, so nodes shared through anchors are not modelled
- ServiceLabels.SetLabelReads: merge keys, anchors and what fmt prints for a value that is not a string are not modelled
- ImagePinning.RewriteAfterPins: parsing and printing YAML are taken to be inverse, and editing in place is a function on trees, so aliases that share a node are not modelled
- TokenVersion.RevokedForGood: expiry after four hours only rejects more and is not modelled; versions do not wrap; any user may log in at any time, which only adds runs; replacing the secret and bumping all versions are separate steps; restoring a database backup, which can set versions back, is not a step
- TokenVersion.InvKept: CreateUser is only called for a name that is absent, as the program does; UpdatePassword without a version, which only tests call, is not a step
- ListAllAppUpdates, metrics purging, age pruning and audit-log purging: easy members, or deletion under a moving cursor of bbolt
- composecli Unlock: it releases the entry before evicting it, so mutual exclusion is not claimed
- Restart policy normalisation and environment substitution: decided by reading one branch, or text processing
- JSON encoding of records, users and samples: taken to be lossless, so stored rows always decode, except that a metrics row may be malformed
- HTTP, WebSocket and SSE plumbing, bcrypt, JWT signing, encryption and random ids: taken as given
- AppUpdateFeed and InstallLogsManager: weaker copies of the deploy fan-out
