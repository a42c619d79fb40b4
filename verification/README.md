# Verification of the Shado Cloud backend

A Dafny model of the parts of this backend whose job is that nothing is lost, duplicated or wrongly
deleted while files, images and deployments move between nodes and drives, with proofs of what they
keep. Code that changes state is modelled as classes and loops and proved against specification
functions; the theorems are about those functions, over all inputs and all runs.

Check everything with `dafny verify dfyconfig.toml`.

| files | what they model |
|---|---|
| ReplicaLink, Registry, Propagation, PropagationLaws, PropagationRecords, PropagationHandlers, AwaitReplicas | the master's side of a deployment order: waiting for replicas, routing by role, early frames, timers, reconnects |
| Runner, Protocol | the replica's runner with its coalesced output, the grammar of its frames, and the master's guarantees composed with it |
| Octets, FileTree, TieredStorage, TieringConditions, TieringMirror, Evacuation, EvacuationLaws, ColdDeletion | a file system with links; demotion, promotion, evacuation of a drive and deletion, one primitive operation at a time |
| Listing, ListingLaws, Sync, SyncLaws, SyncConvergence, SyncOverwrites | the replication listing with its completeness bit and the replica's passes |
| DatabaseDump, DatabaseImport, DumpLaws, DumpPrefixes, DumpText | the SQL dump as statements and as lines, and a server that executes them |
| Decrypt, EndToEnd | encrypted transfer in arbitrary chunks, and theorems that span tiering, listing, transfer and sync |
| StaleReplicas, StaleClaims | the registry of replicas with concurrent requests and stale checks |
| Deployment, DeploymentLaws, DeploymentUpgrades, ReplicaImages | the pipeline with retries, restarts, crashes and resume; building and dispatching images |
| Reconcile, ReconcileLaws, ReconcileOrder | merging default steps into a stored pipeline |
| CanonicalJson, CanonicalJsonLaws, CanonicalJsonText, ServiceAuth | the canonical JSON text and payload signing |

Signatures, hashes, the cipher's keystream, commands, mails, clocks and the network are parameters:
functions or outcomes about which nothing is known unless a theorem says so.

Where the code differs from what its comments or a reader would expect, the model follows the code:

- A reconnect seen before the dispatch has settled is not buffered, although the comment at
  src/admin/replica-propagation.service.ts:274 says a fast restart cannot slip through
  (`OnlyALateReconnectCounts`, `EarlyReconnectIsLost`). The "went quiet" timer is a total timeout that
  frames do not extend (`QuietIsATotalTimeout`), a `restarting` report is taken without looking at `ok`
  (`ARestartReportIsTakenWhateverItSays`), and the reconnect that confirms it may come from a client of
  either role (`AReconnectOfEitherRoleConfirms`).
- Evacuation removes the blob of a link whose promotion failed, or that sits under a hidden name
  (`EvacuationIsSafeIff`, `AHiddenLinkLosesItsBlob`, `AFailedCopyLosesTheBlob`). The garbage collection that
  comments in src/file-system/tiered-storage.service.ts mention does not exist.
- Every file has a place of its own on each drive (`NoMoveLosesAFile`) until a demoted file is renamed, which leaves
  its blob in the place of the old name (`RenamedFileIsOverwritten`).
- A symbolic link to a directory makes every listing incomplete, so deletions stay suppressed as long as
  it is there (`ADirectorySymlinkMakesListingsIncomplete`).
- A master that cannot read on while it sends a file ends its response cleanly, with no length announced
  (src/replication/replication.service.ts:633-638), and the replica takes what came for the file with a
  warning about its size (lines 660-666): the pass goes on, deletions included, and the short file is never
  fetched again (`AnEncryptedPassConvergesIff`, `AnUnreadableFileArrivesEmptyForGood`).
- A replica never gets past a file that became a directory on the master, never replaces a directory by
  a file, and never repairs a file that a download left short (`ALeafInTheWayBlocksForever`,
  `ADirectoryInTheWayStays`, `AShortFileIsNeverRepaired`).
- "Alerted exactly once" (src/replication/replication.service.ts:265-270) fails when the mail fails, and a
  replica that came back after the snapshot is reported too (`EveryClaimIsAlertedIff`,
  `AClaimTakesAFreshEntryIff`, `AReplicaThatCameBackIsReportedStale`).
- Resuming a deployment whose step is no longer in the pipeline runs the last entry, and resuming a manual
  propagation carries on with the rest of the pipeline (`ResumesWithTheStepIff`,
  `ManualRunResumesAloneIff`).
- "Relative order matches the defaults" (src/admin/deployment.service.ts:489-490) needs the first default
  to be there already, or none at all (`DefaultsInOrderIff`).
- A payload that carries its own `__svcAuth` member signs one body and verifies another, and so does an
  array or a scalar (`VerifiesIffNoEnvelopeOfItsOwn`).
- A default step that an upgrade inserts in front of where the deployment resumes is not run by it
  (`AStepInsertedBehindTheRunIsLeftOut`).
- A replica does not look at whether its own walk was complete (src/replication/replication.service.ts:115),
  so a file the walk passed over is fetched over the good copy (`APassChangesAFileIff`,
  `AGoodCopyIsTruncated`).
- A dump whose file the master cannot read on is closed like a whole one
  (src/replication/replication.service.ts:374-382) and imported as far as it came (`WhatAPartLeaves`,
  `APartReplicatesIff`).
- A command killed by a signal has no exit code and counts as a success, on a replica
  (src/replication/replica-deploy.runner.ts:274) and on the master (src/admin/deployment.service.ts:1423);
  here a command simply succeeds or fails.

## Model

| member | source | states |
|---|---|---|
| Propagation.BufferingRefinesDirectDelivery | src/admin/replica-propagation.service.ts:235-335 | For any interleaving of frames, reconnects and timers of all replicas around the dispatch, each replica's record and timer equal the fold of its own frames of this run in arrival order, as if its record had existed from the start and the early frames had come when the dispatch settled: no early frame is lost, repeated or mixed up with another replica's. |
| PropagationLaws.TerminalIsAbsorbing | src/admin/replica-propagation.service.ts:242 | A terminal status never changes again, whatever events follow. |
| PropagationLaws.EveryWaitHasATimer | src/admin/replica-propagation.service.ts:343-388 | In every reachable state of a settled run each dispatched replica is terminal and unwatched, or has the timer that fits what it waits for. |
| PropagationLaws.ReturnsExactlyWhenAllAreTerminal | src/admin/replica-propagation.service.ts:326-391 | propagate has returned exactly when every dispatched replica is in a terminal status. |
| PropagationLaws.TheTimersEndEveryRun | src/admin/replica-propagation.service.ts:343-391 | From any observed run, once the timers of all replicas have fired the run is over: each unfinished replica has timed out, or failed if it was restarting, and every other verdict stands. |
| PropagationLaws.UndecidedStatus | src/admin/replica-propagation.service.ts:251-285 | Before any decisive event the status is exactly running, or restarting if a restart was announced. |
| PropagationLaws.FirstDecisiveEventIsTheVerdict | src/admin/replica-propagation.service.ts:241-285 | The first final report, expiry or awaited reconnect fixes the verdict whatever comes after it. |
| PropagationLaws.SuccessIsProven | src/admin/replica-propagation.service.ts:274-285 | Success implies an ok final report, or an announced restart and then a reconnect. |
| PropagationLaws.SuccessInARunIsProven | src/admin/replica-propagation.service.ts:260-285 | The same in a whole run: a replica's success is proven by its own events of this run id, not by another replica's. |
| PropagationLaws.OnlyALateReconnectCounts | src/admin/replica-propagation.service.ts:276-335 | A replica that had announced its restart when the dispatch settled succeeds if and only if it reconnects after that and before the grace timer; an earlier reconnect does not count. |
| PropagationLaws.EarlyReconnectIsLost | src/admin/replica-propagation.service.ts:274-335 | The run that shows it: with the ack of a second replica outstanding, a genuine reconnect is lost, and when the grace timer fires the run has the replica as failed. |
| PropagationLaws.TheTimerIsDue | src/admin/replica-propagation.service.ts:343-388 | For every undecided sequence of events the due time in the armed timer is the settling of the dispatch plus `timeoutMs`, or the last announcement of a restart plus `graceMs`; no other frame moves it. |
| PropagationLaws.QuietIsATotalTimeout | src/admin/replica-propagation.service.ts:359-380 | In every observed run, an accepted replica whose frames so far do not finish, however recent the last, has a timer due `timeoutMs` after the dispatch settled, and ends in a timeout when it fires. |
| PropagationLaws.ARestartReportIsTakenWhateverItSays | src/admin/replica-propagation.service.ts:524-527 | In every undecided state a finished frame with `restarting` followed by a reconnect is a success, also if the frame has ok false or an error. |
| PropagationLaws.AReconnectOfEitherRoleConfirms | src/admin/replica-propagation.service.ts:276-285 | In every observed run a waiting replica is confirmed when any client of its device and ip comes online, whatever that client's role and socket. |
| PropagationLaws.StepsAreTheFoldOfFrames | src/admin/replica-propagation.service.ts:496-541 | The timeline shown is a function of the replica's own frames alone. |
| PropagationLaws.OutputIsTheTailOfTheLog | src/admin/replica-propagation.service.ts:543-549 | However the log was chunked and trimmed on the way, what is shown is everything said up to 65536 characters, and from then on the marker and the last 65536. |
| PropagationLaws.LogIsWhatTheEventsSay | src/admin/replica-propagation.service.ts:241-285 | For every sequence of events of an accepted replica the log shown is a text told from the events alone (output, a waiting line per undecided announcement, one reconnect or expiry text), whole up to 65536 characters and from then on the marker and its last 65536. |
| PropagationRecords.AnAnswerOpensTheRecord | src/admin/replica-propagation.service.ts:289-327 | A replica that did not answer is opened as unreachable, one that refused as rejected, each with the reason given or the stock one; an accepted order as running with its steps pending, and its timer due `timeoutMs` later. |
| PropagationRecords.OnlyAnAcceptedOrderRuns | src/admin/replica-propagation.service.ts:289-327 | In every observed run a replica is unreachable exactly if it did not answer and rejected exactly if it refused, whatever comes in its name. |
| PropagationRecords.AStartIsShown | src/admin/replica-propagation.service.ts:496-514 | A step_start makes its step running and current, appending it if the ack did not list it, and changes nothing else. |
| PropagationRecords.ACompletionIsShown | src/admin/replica-propagation.service.ts:515-523 | A step_complete gives its step failed or success and its error, and changes nothing else. |
| PropagationRecords.OnlyItsOwnEventsCount | src/admin/replica-propagation.service.ts:260-285 | In every observed run frames of another socket or run, reconnects of another device or ip, and expiries of others leave a record as it is. |
| PropagationRecords.TheVerdictAndItsReason | src/admin/replica-propagation.service.ts:241-250 | The deciding event leaves its status and its reason (the report's error, the quiet or the grace text), whatever follows. |
| PropagationHandlers.PropagationRun.OnProgress | src/admin/replica-propagation.service.ts:260-272 | The progress handler takes the run state to the specified next state, buffering before the dispatch settles and ignoring other runs and strangers. |
| PropagationHandlers.PropagationRun.OnOnline | src/admin/replica-propagation.service.ts:276-285 | The reconnect handler confirms every waiting replica of that device and ip and leaves all others alone. |
| PropagationHandlers.PropagationRun.OnExpired | src/admin/replica-propagation.service.ts:359-380 | The expiry handler settles the replica by what it was waiting for, and does nothing if it was already settled. |
| PropagationHandlers.PropagationRun.OnDispatched | src/admin/replica-propagation.service.ts:287-388 | Building the records, replaying the buffer and arming the watchers is the single specified step, empty active list included. |
| Runner.ReplicaDeployRunner.Accept | src/replication/replica-deploy.runner.ts:150-171 | An order is refused without effect while a run is active or the preflight fails; otherwise the run opens and its id is the only active one. |
| Runner.ReplicaDeployRunner.OnData | src/replication/replica-deploy.runner.ts:256-269 | Text is sent at once with what is buffered from 8192 characters on, else buffered with the timer armed; frames sent plus buffer equal the text pushed so far. |
| Runner.ReplicaDeployRunner.OnFlushTimer | src/replication/replica-deploy.runner.ts:243-260 | A flush timer firing at any moment sends the buffer and nothing else changes. |
| Runner.ReplicaDeployRunner.OnClose | src/replication/replica-deploy.runner.ts:187-228 | When a command ends the trace so far stays a well-formed one: the step's output is complete before its step_complete, and the run goes on, fails, restarts or finishes accordingly. |
| Protocol.TraceAnnouncesAPipelinePrefix | src/replication/replica-deploy.runner.ts:187-218 | A run's step_start ids are a prefix of the pipeline and its output frames concatenate to exactly the text pushed. |
| Protocol.TraceEndsOnce | src/replication/replica-deploy.runner.ts:173-229 | A run has exactly one finished frame, the last; it is ok exactly when no completed step failed, and carries the error of a run that failed. |
| Protocol.InFlightIsAPrefix | src/replication/replica-deploy.runner.ts:173-229 | What a run still in progress has sent is a prefix of a well-formed trace. |
| Protocol.WholeTraceOnTimeline | src/replication/replica-deploy.runner.ts:173-229 | A trace delivered whole puts on the master's timeline exactly what each step of the replica did. |
| Protocol.SuccessMeansEveryStepSucceeded | src/admin/replica-propagation.service.ts:496-530 | With the runner's grammar: if the frames received are any prefix of the run's trace, success on the master means the whole trace arrived, every step of the acknowledged pipeline succeeded, and an announced restart was followed by a reconnect. |
| Protocol.SuccessInARunMeansEveryStepSucceeded | src/admin/replica-propagation.service.ts:235-391 | The same conclusions (whole trace, every step succeeded, an announced restart followed by a reconnect) for one replica of a whole run, with all the other replicas interleaved and frames buffered. |
| Protocol.LogArrivesWhole | src/admin/replica-propagation.service.ts:241-285 | With a trace delivered whole, among any reconnects and before the timer, the log shown is the header and all text pushed and, for a run that ends in a restart, the restart line, the waiting line and the text of the reconnect or expiry, whichever comes first; whole up to 65536 characters, else the marker and the last 65536; no later reconnect or timer adds anything. |
| Registry.OfRoleIsTheRoleExactly | src/replication/replica-link.registry.ts:107-111 | Listing a role gives exactly the connected clients of that role, each once. |
| Registry.OrdersReachExactlyOneRole | src/replication/replica-link.registry.ts:129-140 | An order with images reaches every connected updater, one without every connected app, and nobody else, each once, and brings back what each replied, so run records have distinct sockets. |
| Registry.ReplicaLinkRegistry.Register | src/replication/replica-link.registry.ts:79-83 | Registering replaces an entry of the same socket, keeps all others and announces the client. |
| Registry.ReplicaLinkRegistry.Unregister | src/replication/replica-link.registry.ts:85-90 | Unregistering removes exactly that socket. |
| Registry.ReplicaLinkRegistry.HandleDeployProgress | src/replication/replica-link.registry.ts:114-121 | A frame is forwarded with its sender exactly when the socket is registered. |
| AwaitReplicas.EveryWaitHasItsTimers | src/admin/replica-propagation.service.ts:451-494 | While the wait lasts its hard timer is armed, and the settle timer exactly if a replica of the role was there or came online. |
| AwaitReplicas.ResultIsTheRegistryAtTheEnd | src/admin/replica-propagation.service.ts:456-479 | The wait resolves at the first armed timer that fires and never again, with the clients of the role connected at that moment. |
| AwaitReplicas.Waiter.OnOnline | src/admin/replica-propagation.service.ts:481-485 | A client of another role does not touch the wait; one of the role arms the settle timer. |
| AwaitReplicas.Waiter.OnSettleTimer | src/admin/replica-propagation.service.ts:466-469 | A settle timer resolves the wait once, with the registry of that moment. |
| AwaitReplicas.Waiter.OnHardTimer | src/admin/replica-propagation.service.ts:473-479 | So does the hard timer, even with nobody connected. |
| TieredStorage.TieredStorageService.Demote | src/file-system/tiered-storage.service.ts:135-158 | The file's slot is the drive's directory and its whole path relative to the cloud directory, and the disk goes through exactly the trees of the composed primitives, on every branch and with a slot in any state. If the slot is unreferenced and the temp name fresh, each of those trees reads the same at every cloud path but the temp name and keeps the link invariant; on success the bytes are in the slot behind a link, on failure the original is in place. |
| TieredStorage.TieredStorageService.Promote | src/file-system/tiered-storage.service.ts:214-235 | The disk goes through exactly the trees of the composed primitives, blobs shared or not, and nothing is done exactly for a path that is no link or leads below no configured drive. If no blob is shared and the temp name is fresh: no tree changes a cloud read, on success the file is back, the blob gone and its size returned, and a failure leaves the tree as it was or the file promoted with its blob kept, beside the temp file if that could not be removed. |
| TieringMirror.PlacesAreDistinct | src/file-system/tiered-storage.service.ts:141-142 | Distinct cloud paths have distinct places on a drive, and places on distinct drives differ. |
| TieringMirror.TheOwnPlaceIsFree | src/file-system/tiered-storage.service.ts:135-142 | Where no drive's directory is inside another's and every cloud link leads to its own relative path on some drive, no link refers to the place of a file that is not demoted, on any drive. |
| TieringMirror.NoMoveLosesAFile | src/file-system/tiered-storage.service.ts:135-235 | Over any sequence of demotions to any drives and promotions back, with any failures as long as temp names are free and can be cleaned up, that state is kept and every cloud path but the temp names reads what it did. |
| TieringMirror.TwoFilesKeepTheirBytes | src/file-system/tiered-storage.service.ts:135-158 | Two distinct cloud files demoted one after the other each still read their own bytes. |
| TieringMirror.AFileGoesToItsPlace | src/file-system/tiered-storage.service.ts:135-158 | A demotion that meets no fault leaves a link to the drive's directory and the whole relative path, where the bytes are. |
| TieringMirror.ALeftoverLinkLeadsToTheCopy | src/file-system/tiered-storage.service.ts:149-158 | A temp link that cannot be cleaned up still leads to the copy, which then stays as well. |
| TieredStorage.SwapIsInvisible | src/file-system/tiered-storage.service.ts:151-155 | Renaming the temp entry over a file that reads the same changes no cloud read and keeps links on distinct targets. |
| TieredStorage.ColdWriteIsInvisible | src/file-system/tiered-storage.service.ts:147-149 | Writing a cold slot no link refers to changes no cloud read. |
| TieringConditions.DemotionIsInvisibleIff | src/file-system/tiered-storage.service.ts:135-158 | With blobs shared or not: none of the trees a fault-free demotion goes through changes a cloud read if and only if every link already on its slot reads the bytes being written; otherwise those links read them from the copy on. |
| TieringConditions.DemotionIsSafeWhateverFailsIff | src/file-system/tiered-storage.service.ts:135-158 | No tree of a demotion changes a cloud read, for any combination of failures, if and only if no link refers to the slot. |
| TieringConditions.PromotionIsInvisibleIff | src/file-system/tiered-storage.service.ts:214-235 | For every combination of failures and with blobs shared: no tree of a promotion changes a cloud read if and only if it does not get as far as removing the blob, or no other link shares it. |
| TieringConditions.RenamedFileIsOverwritten | src/files/files.service.ts:361-374 | A demoted file that is renamed reads another file's bytes from the copy on when a new file under the old name is demoted in its turn. |
| Evacuation.Evacuator.EvacuateDrive | src/file-system/tiered-storage.service.ts:243-296 | For every combination of failures the two walks leave exactly the specified tree, with a temp file for each failed promotion that could not be cleaned up, and the specified report: migrated, bytes, errors and orphansRemoved count what was actually moved, failed and removed. |
| EvacuationLaws.ReadAfterEvacuation | src/file-system/tiered-storage.service.ts:243-296 | What a cloud path reads afterwards, for every combination of failures: a temp file left behind is a new path with some bytes, and any other path reads as before, or nothing in exactly one case. |
| EvacuationLaws.WhatTheWalksYield | src/file-system/tiered-storage.service.ts:258-276 | The first walk yields the links, the second the files, below a directory through real directories and names that begin with neither a dot nor an underscore. |
| EvacuationLaws.WhatAVisitCountsAs | src/file-system/tiered-storage.service.ts:258-273 | A visited link counts as migrated exactly if it leads below the drive, to a file, and no call for it fails; if it leads below the drive otherwise, as an error. |
| EvacuationLaws.TheBytesAreTheLengths | src/file-system/tiered-storage.service.ts:264-268 | The bytes reported are the lengths of the migrated files, each once. |
| EvacuationLaws.EvacuationIsSafeIff | src/file-system/tiered-storage.service.ts:258-280 | Evacuation keeps every cloud read if and only if no link whose promotion failed, or which the walk does not reach, has a blob the sweep can remove. |
| EvacuationLaws.AHiddenLinkLosesItsBlob | src/file-system/tiered-storage.service.ts:258-280 | An input that loses a file although nothing fails: a link whose name begins with a dot or an underscore is not visited and the sweep takes its blob. |
| EvacuationLaws.AFailedCopyLosesTheBlob | src/file-system/tiered-storage.service.ts:258-280 | An input that loses a file to one failure: the copy is refused, which counts as one error, and the sweep takes the blob the link still points to. |
| EvacuationLaws.CleanEvacuation | src/file-system/tiered-storage.service.ts:243-296 | If nothing fails, every link to the drive is walkable and its blob is a walkable file of the drive: every cloud path reads the same, no link to the drive and no walkable file on it is left, migrated plus orphansRemoved is the number of walkable blobs at the start, and bytes is the sum of the migrated sizes. |
| ColdDeletion.ColdCleaner.RemoveColdData | src/file-system/tiered-storage.service.ts:463-492 | The recursion removes exactly the blobs that links at or below the path point to on a drive. |
| ColdDeletion.DeletionIsConfinedIff | src/file-system/tiered-storage.service.ts:463-492 | Everything outside the deleted path reads as before if and only if no link outside shares a blob with one inside. |
| ColdDeletion.TieredDeletionIsConfined | src/file-system/tiered-storage.service.ts:463-492 | In the state tiering maintains it never touches anyone else's bytes. |
| ColdDeletion.NothingIsLeftBehind | src/file-system/tiered-storage.service.ts:463-492 | With every directory readable and no blob stuck, no file below a drive that a link at or below the path leads to remains, hidden names included. |
| ColdDeletion.OnlyBlobsOfItsLinksGo | src/file-system/tiered-storage.service.ts:463-492 | What is removed is always a file below some drive that a link at or below the path leads to. |
| Listing.ListRecursively | src/replication/replication.service.ts:763-842 | The walk lists exactly the leaves it could account for, each once with its resolved size, and skips nothing if and only if every entry it came across could be. |
| Listing.ListEntry | src/replication/replication.service.ts:780-825 | One entry is passed over, taken as a folder or listed by its type and by which calls fail, untyped entries and links to nothing or to directories included. |
| ListingLaws.ListCloudDirDetailed | src/replication/replication.service.ts:220-231 | complete is true exactly for a clean walk, and then the listing is every file and link reachable through real directories. |
| ListingLaws.CompleteListingHasEveryLeaf | src/replication/replication.service.ts:735-757 | A complete listing misses no leaf, and each listed path resolves to a file. |
| ListingLaws.OnlyWhatFailsIsMissing | src/replication/replication.service.ts:763-842 | Whatever else fails, a leaf is listed if the directories down to it can be read and told apart, the calls on it work, and it leads to a file. |
| ListingLaws.WithoutFailuresOnlyDeadLinksAreMissing | src/replication/replication.service.ts:763-842 | With no call failing, the walk lists exactly the leaves that lead to a file, and is complete if and only if all do. |
| ListingLaws.ListedSizesAreLengths | src/replication/replication.service.ts:800-815 | Each entry of a listing has the length of the bytes its path reads. |
| ListingLaws.DemotionKeepsTheListing | src/replication/replication.service.ts:763-842 | While both listings are complete, demoting a file leaves the set of (path, size) pairs unchanged. |
| ListingLaws.PromotionKeepsTheListing | src/replication/replication.service.ts:763-842 | So does promoting one, whether or not its blob could be removed. |
| ListingLaws.DemotionKeepsCompleteness | src/replication/replication.service.ts:763-842 | A demotion cannot turn a complete listing into an incomplete one. |
| ListingLaws.PromotionKeepsCompletenessIff | src/replication/replication.service.ts:763-842 | A promotion keeps a complete listing complete if and only if lstat works on the file brought back, when the walk comes by it: links of known type were never lstat-ed. |
| ListingLaws.ADirectorySymlinkMakesListingsIncomplete | src/replication/replication.service.ts:780-825 | As long as a symbolic link to a directory is in reach, no listing is complete. |
| Sync.ReplicationService.Replicate | src/replication/replication.service.ts:96-206 | One pass does nothing while another is under way, and otherwise leaves exactly the specified tree, for every failure of the list request, of mkdir, of a fetch, of a write or of an unlink. |
| Sync.ReplicationService.DownloadOne | src/replication/replication.service.ts:143-164 | One download: an error status leaves the directories made and goes on; a body that ended is written and accepted whatever its length; a lost connection, a refused write or a body broken off by an error abandons the pass. |
| SyncLaws.APassUnlinksOnlySurplus | src/replication/replication.service.ts:173-194 | Whatever a pass unlinks was a listed leaf, absent from the answer, not ignored, and the answer was not marked incomplete. |
| SyncLaws.WhatTheMasterHasIsKept | src/replication/replication.controller.ts:49-50 | With the controller's header, a pass never unlinks a path that is a leaf on the master at listing time, nor an ignored one. |
| SyncLaws.NothingOnTheMasterIsEverLost | src/replication/replication.service.ts:166-194 | The same over any sequence of passes, with drives unmounted, entries unresolvable and downloads failing at will. |
| SyncLaws.WhatAFaultlessPassUnlinks | src/replication/replication.service.ts:173-194 | When downloads and unlinks succeed, the paths removed are exactly the listed, unignored ones the answer lacks, unless it is marked incomplete. |
| SyncLaws.AFailedUnlinkEndsTheDeletions | src/replication/replication.service.ts:184-194 | The first unlink that fails ends the deletions: everything that was to go after it stays. |
| SyncLaws.SafeWithoutTheHeaderIff | src/replication/replication.service.ts:173 | From a master that sends no header, a pass spares everything the master has if and only if every listed, unignored path the master has is also in its listing. |
| SyncConvergence.DownloadsSucceedIff | src/replication/replication.service.ts:143-164 | With every file served, the downloads of a pass all succeed if and only if nothing is in the way of any of them. |
| SyncConvergence.APassConverges | src/replication/replication.service.ts:135-194 | With complete listings, fetches served with the master's bytes and no clash, a pass leaves exactly the master's unignored leaves: new ones hold its bytes, kept ones and ignored ones are untouched. |
| SyncConvergence.APassOfServedFiles | src/replication/replication.service.ts:135-194 | The same whatever the bodies served: the leaves agree, and each new one holds what its fetch brought. |
| SyncConvergence.ABrokenBodyStopsTheDownloads | src/replication/replication.service.ts:147-164 | A body broken off by an error, or a lost connection, abandons the downloads, whatever else is on the list. |
| SyncConvergence.ASecondPassIsIdle | src/replication/replication.service.ts:135-194 | Once in sync, a pass against any master with the same leaves downloads and deletes nothing. |
| SyncConvergence.ALeafInTheWayBlocksForever | src/replication/replication.service.ts:143-145 | A replica's file that became a directory on the master blocks every later pass: it stays, the file below it never arrives, and nothing is deleted any more. |
| SyncConvergence.ADirectoryInTheWayStays | src/replication/replication.service.ts:189-191 | No run of passes removes a directory, so it is never replaced by the master's file of that name. |
| SyncConvergence.AShortFileIsNeverRepaired | src/replication/replication.service.ts:135-137 | Presence is judged by path alone: a file that a download left short keeps those bytes for as long as both sides list it. |
| SyncOverwrites.APassChangesAFileIff | src/replication/replication.service.ts:135-164 | A pass changes the bytes of a file the replica had if and only if the master lists it, the replica's own listing does not, it is not ignored, the downloads before it get through, its write is not refused and other bytes come, to their end or broken off. |
| SyncOverwrites.AFileIsAtRiskIff | src/replication/replication.service.ts:115-164 | Some network and some failures can make a pass do that if and only if the file is among the missing ones and no earlier one of them has a leaf above it. |
| SyncOverwrites.OnlyAFilePassedOverChanges | src/replication/replication.service.ts:115 | It happens only to a file that the replica's own walk could not account for, so never after a clean walk. |
| SyncOverwrites.AGoodCopyIsTruncated | src/replication/replication.service.ts:115-164 | The input: one failing lstat in the replica's own walk and a body that ends early make a good copy empty. |
| EndToEnd.ADemotionCausesNoTransfer | src/replication/replication.service.ts:135-194 | Demoting a file on the master makes a replica that was in step fetch and delete nothing. |
| EndToEnd.APromotionCausesNoTransfer | src/replication/replication.service.ts:135-194 | Nor does promoting one. |
| EndToEnd.ADownloadBringsABeginning | src/replication/replication.service.ts:603-716 | Through the cipher, a stream received to its end is served as the file, one the master ends early (a failed read after the IV) is served as a beginning of it, and one broken off by an error aborts with a beginning. |
| EndToEnd.ServedWholeIff | src/replication/replication.service.ts:603-716 | The file is served with its bytes if and only if the stream is whole or what is missing of it carries no byte of the file. |
| EndToEnd.AnEncryptedPassConvergesIff | src/replication/replication.service.ts:96-194 | With complete listings and no clash, a pass under any IVs gets through its downloads with the master's leaves and bytes if and only if all of every missing file comes across; it gets through at all if and only if no stream breaks off with an error. |
| EndToEnd.AnUnreadableFileArrivesEmptyForGood | src/replication/replication.service.ts:633-638 | The failing input: the master cannot open a listed file, so its response ends after the IV. The pass goes through and is in step with the file empty, the second pass is idle, and the file stays empty over any further passes. |
| EndToEnd.AnEmptyReplicaGetsAnEmptyFile | src/replication/replication.service.ts:633-638 | The smallest such case, with an empty replica and one file of one byte. |
| DatabaseDump.WriteDump | src/replication/replication.service.ts:406-489 | The nested loops write exactly the specified statements: system schemas skipped, excluded tables without rows, checks switched off first and on last. |
| DatabaseDump.WriteRows | src/replication/replication.service.ts:455-482 | The row loop with its growing batch writes the specified batches. |
| DatabaseDump.BatchesHoldTheRows | src/replication/replication.service.ts:455-482 | For every row stream the batches are non-empty, concatenate to the rows in order, hold at most 500 rows, and each VALUES list is shorter than 4194304 characters unless it is a single row. |
| DatabaseDump.BatchesAreGreedy | src/replication/replication.service.ts:473-478 | No batch is cut short: with the first row of the next one its VALUES list would have 4194304 characters or more, or it has 500 rows. |
| DatabaseDump.SizeIsTheLength | src/replication/replication.service.ts:472-480 | What is counted for a batch is the length of its VALUES list and one more: each value's text, NULL as four characters, commas between, two brackets a row. |
| DatabaseImport.Connection.Import | src/replication/replication.service.ts:543-572 | The import executes the statements in order and stops at the first one rejected. |
| DatabaseImport.ARejectedStatementEndsTheImport | src/replication/replication.service.ts:543-572 | A statement the server rejects changes nothing, and what comes after it is not executed. |
| DatabaseImport.DumpExecutes | src/replication/replication.service.ts:406-489 | The whole dump executes without a rejected statement on any server state. |
| DumpLaws.ImportReplicatesTheMaster | src/replication/replication.service.ts:406-489 | On any server, every dumped table ends with the master's schema and rows (no rows if excluded); system schemas, other databases and tables the master lacks are untouched, and foreign-key checks are back on. |
| DumpLaws.ImportTwiceIsOnce | src/replication/replication.service.ts:333-342 | Importing the same dump twice is importing it once. |
| DumpLaws.TheDefaultsSpareTheServer | src/replication/replication.service.ts:385-393 | With the sets the service is built with, the server's own four schemas stay as they are however their names are cased, every other database arrives with all its tables, and of these the metrics table alone comes without rows. |
| DumpPrefixes.WhatAPartLeaves | src/replication/replication.service.ts:374-382 | Of a dump that ends after any statement, or inside an INSERT, each dumped table not yet come to is as it was, each one gone past is the master's, and the one in between is gone or has a proper beginning of its rows. |
| DumpPrefixes.APartReplicatesIff | src/replication/replication.service.ts:374-382 | After importing a part of the dump every dumped table is the master's if and only if each one's statements all came, or none of them did and it was the master's already. |
| DumpPrefixes.APartAlwaysReplicatesIff | src/replication/replication.service.ts:374-382 | A part of the dump does so on every server if and only if it has the statements of every dumped table. |
| DumpText.ReadStatements | src/replication/replication.service.ts:543-553 | Splitting into lines, trimming and skipping blanks, as the import loop reads. |
| DumpText.BlanksAreDropped | src/replication/replication.service.ts:551-553 | Blanks around a statement are dropped, and so are blank lines. |
| DumpText.ReadsBackIff | src/replication/replication.service.ts:399-404 | The file reads back as the statements written if and only if each statement is on a single line. |
| DumpLaws.TheFileIsTheDump | src/replication/replication.service.ts:543-572 | Hence the lines of the file are the statements of the dump, given SQL text without line ends. |
| Decrypt.SendFile | src/replication/replication.service.ts:603-645 | What is sent is the IV and the file under the running keystream, however the file was read in chunks. |
| Decrypt.EveryByteIsMasked | src/replication/replication.service.ts:603-623 | What goes over the wire is the 16 bytes of the IV and then each byte of the file combined with the keystream byte of its position. |
| Decrypt.ResponseDecryptor.OnData | src/replication/replication.service.ts:673-700 | After every chunk, of any size, the output is what the bytes received so far decrypt to. |
| Decrypt.DecryptResponseStream | src/replication/replication.service.ts:648-716 | The output depends on the bytes received only, not on how they were split; fewer than 16 give nothing. |
| Decrypt.EverySplittingDecrypts | src/replication/replication.service.ts:603-716 | For every splitting of IV and ciphertext, empty chunks and a split IV included, the plaintext comes out. |
| Decrypt.ACutOffTransferIsAPrefix | src/replication/replication.service.ts:704-709 | A transfer cut off anywhere has written a prefix of the plaintext. |
| StaleReplicas.EveryRunConserves | src/replication/replication.service.ts:240-317 | For every interleaving of requests and checks: a key's creations are its removals plus one if present, and its claims are its alerts, its lost mails and the mails under way. |
| StaleReplicas.NoSecondAlertWithoutReregistering | src/replication/replication.service.ts:292-300 | Once an entry is gone it is not alerted on again without being registered anew. |
| StaleReplicas.OneTurnOfACheck | src/replication/replication.service.ts:284-305 | In any interleaving, the next entry of a snapshot is dropped silently if it does not parse, stays if it was seen within 86400000 ms, and is claimed if it is older and the key still there. |
| StaleClaims.EveryClaimIsAlertedIff | src/replication/replication.service.ts:265-317 | In every run a key's claims are its alerts plus the mails about it that failed and those under way, so every claim has been alerted if and only if no step of the run was the failure of such a mail and none is under way. |
| StaleClaims.AClaimTakesAFreshEntryIff | src/replication/replication.service.ts:276-317 | In every run from a state without checks, the entry a claim removes was seen within the last 86400000 ms of its check if and only if the key's last write came after that check's snapshot, by a request from within that time. |
| StaleClaims.AReplicaThatCameBackIsReportedStale | src/replication/replication.service.ts:276-317 | The run that shows it: a replica that re-registers between snapshot and claim is removed and reported all the same. |
| StaleReplicas.ReplicaRegistryService.CheckStaleReplicas | src/replication/replication.service.ts:272-317 | Uninterrupted, the check leaves exactly the entries that parse and were seen within 86400000 ms and alerts on each older one once; the first failing mail stops it and loses that one alert. |
| StaleReplicas.ReplicaRegistryService.RecordReplicaRequest | src/replication/replication.service.ts:240-263 | A request creates or renews its entry, keeping when it was first seen; on a value that does not parse it fails and changes nothing. |
| Deployment.DeploymentService.RunSteps | src/admin/deployment.service.ts:872-1015 | Every save of the loop is a step of the crash machine. Uncut it ends in success, at the first entry that fails, or at the first one with triggersRestart and not propagateToReplicas, with completedSteps exactly that prefix: skipped for entries with skip or that only build an image, success for the others. |
| Deployment.StopsByFlags | src/admin/deployment.service.ts:888-1000 | By its flags and what the world does: an entry to skip never stops a run, a propagation does if it fails, a restart always, a command if all three attempts fail. |
| Deployment.DeploymentService.RunCommand | src/admin/deployment.service.ts:955-998 | The retry loop fails exactly if three attempts fail. |
| Deployment.FindIndex | src/admin/deployment.service.ts:864 | The first entry with the id, or -1. |
| DeploymentLaws.ResumesWithTheStepIff | src/admin/deployment.service.ts:863-870 | Resuming starts with the interrupted step if and only if it is still in the pipeline; otherwise the last entry alone is run. |
| DeploymentLaws.ResumesAfterTheStepIff | src/admin/deployment.service.ts:863-870 | After a success everything behind the step is resumed if and only if it is in the pipeline; otherwise the last entry again. |
| DeploymentLaws.ManualRunResumesAloneIff | src/admin/deployment.service.ts:791-856 | A manual one-step propagation resumed after a crash runs just that step if and only if it is the last of the pipeline and unedited. |
| DeploymentLaws.NoStepIsDropped | src/admin/deployment.service.ts:396-419 | With crashes, retries and restarts anywhere: entries are begun in pipeline order with none left out but those with skip or that only build an image, again only right after themselves and at most once per crash; whatever happens next begins at most one entry, one not to skip whose success is not on the saved record; and a deployment that ends in success has begun every entry not to skip and records every entry as a success or as skipped. |
| DeploymentLaws.EntriesAreTreatedByTheirFlags | src/admin/deployment.service.ts:888-1000 | In every run an entry with skip, or with buildImage and not propagateToReplicas, is never begun nor attempted and is on record as skipped once passed; every other one passed was begun and is on record as a success, and what is done for it is a command, a propagation or a restart exactly by propagateToReplicas and triggersRestart. |
| DeploymentLaws.OnlyARestartEndsTheProcess | src/admin/deployment.service.ts:926-946 | In every run, after the success of an entry is saved the process goes away exactly if it has triggersRestart and not propagateToReplicas. |
| DeploymentLaws.ABootResumesTheRest | src/admin/deployment.service.ts:396-419 | In every run, a boot takes up a deployment saved as running with exactly what is left of the pipeline, and leaves one that has ended alone. |
| DeploymentLaws.PlannedRestartsRunEachStepOnce | src/admin/deployment.service.ts:926-946 | Across any number of planned restarts and no crash, with the pipeline as it was, each entry that has no skip and does not just build an image is begun exactly once, in order. |
| DeploymentLaws.AtMostThreeAttempts | src/admin/deployment.service.ts:955-998 | An entry is attempted at most three times for each time it is begun. |
| DeploymentLaws.TheRecordOfARun | src/admin/deployment.service.ts:872-1042 | A run succeeds exactly when each entry is to be skipped, propagates without failing, or is a command one of whose three attempts works; after a failure completedSteps is the executed prefix, skipped or success by flags, with only its last entry failed. |
| DeploymentUpgrades.NoStepIsDroppedByUpgrades | src/admin/deployment.service.ts:396-446 | With crashes, restarts and upgrades anywhere, each upgrade reconciling the stored pipeline before it resumes: entries are begun in the order of the pipeline as it is then, again only right after themselves, at most once per crash and never once their success is saved; the entries the deployment started with all stay, in order, and none is left behind; after a success exactly the entries that an upgrade put in front of where it resumed are not on record, every other one is, as a success that was begun or as an entry to skip. |
| DeploymentUpgrades.PlannedUpgradesRunEachStepOnce | src/admin/deployment.service.ts:396-446 | With restarts and upgrades but no crash, no entry is begun twice and they are begun in pipeline order. |
| DeploymentUpgrades.AStepInsertedBehindTheRunIsLeftOut | src/admin/deployment.service.ts:489-505 | The input that leaves an entry out: the process goes away in the second of two entries, and the new defaults have a third between them. |
| DeploymentUpgrades.ReconcilingKeepsOrder | src/admin/deployment.service.ts:452-513 | Reconciling keeps every entry of a pipeline, in its order, among those it adds. |
| Reconcile.ProjectRow.ReconcileDefaultSteps | src/admin/deployment.service.ts:452-513 | Once per version, and not if the stored JSON does not parse, the row becomes the reconciled list. |
| ReconcileLaws.OperatorsStepsAreKept | src/admin/deployment.service.ts:437-448 | The operator's steps are a subsequence of the result with every field they had, changed only where it held an exact legacy value; the rest are the missing defaults, once each. |
| ReconcileLaws.EveryFieldAfterwards | src/admin/deployment.service.ts:466-487 | Field by field: what a stored step had is there, with exactly the legacy values repaired; where it had nothing it has what the default of its id has; and nothing else is in it. |
| ReconcileLaws.NothingElseIsAdded | src/admin/deployment.service.ts:489-505 | Every step of the result is a stored one so treated, or a default whose id was not stored, as it is. |
| ReconcileLaws.EveryDefaultIsThere | src/admin/deployment.service.ts:489-505 | Every default step is in the result. |
| ReconcileLaws.ReconcilingTwiceIsOnce | src/admin/deployment.service.ts:452-513 | Reconciling a reconciled list changes nothing, as long as defaults and fixups bring in no legacy value. |
| ReconcileOrder.DefaultsInOrderIff | src/admin/deployment.service.ts:489-505 | The defaults come out in their own order, each once, if and only if those already there were in that order and included the first one, or there were none. |
| ReplicaImages.PropagateStep.BuildReplicaImages | src/admin/deployment.service.ts:1252-1341 | Images are handed over if and only if the clone, where one is made, and every configured service's env file, build, smoke test and staging worked, where it has or asks for them; a failure removes the clone and returns nothing, a success hands over the clone and an image per service. |
| ReplicaImages.PropagateStep.RunPropagateStep | src/admin/deployment.service.ts:1056-1194 | The step leaves the specified events and images on every path. |
| ReplicaImages.CloneIsRemovedExactlyOnce | src/admin/deployment.service.ts:1188-1193 | On every path a clone that was obtained is removed exactly once, as the last thing the step does. |
| ReplicaImages.NoEnvFileIsLeftBehind | src/admin/deployment.service.ts:1284-1331 | Environment files are put down one at a time and each is taken away before the next service or the dispatch, on every path. |
| ReplicaImages.StagedArePrefix | src/admin/deployment.service.ts:1278-1331 | The services staged are a prefix of those configured: the ones before the first whose env file, build, smoke test or staging fails. |
| ReplicaImages.DispatchedIffAllStaged | src/admin/deployment.service.ts:1240-1250 | A step that builds orders replicas if and only if the clone and every configured service's env file, build, smoke test and staging worked, and then with every service staged in order; otherwise the images of earlier runs stay as they were. |
| ReplicaImages.ATurnThatWorks | src/admin/deployment.service.ts:1278-1331 | A service that works leaves, in this order: env file put down, built, smoke test passed, staged, env file taken away, the parts it does not have left out. |
| ReplicaImages.WithoutABuildTheOldImagesGo | src/admin/deployment.service.ts:1099-1112 | A step that does not build orders the images of earlier runs. |
| ReplicaImages.TheStepSucceedsIff | src/admin/deployment.service.ts:1163-1187 | The step succeeds if and only if it ordered replicas, the propagation did not throw, and all replicas deployed or requireAllReplicas is off. |
| ReplicaImages.MergingReplacesByService | src/admin/deployment.service.ts:1090-1097 | A rebuilt service has only its new image, every other service keeps what it had. |
| CanonicalJsonLaws.SameTextIff | src/auth/service-auth.util.ts:95-104 | Two JSON values have the same canonical text if and only if they are equal up to key order at every level. |
| CanonicalJsonLaws.TextsDelimit | src/auth/service-auth.util.ts:99-104 | No value's text is a beginning of another's wherever a value can stand: strings with escapes, numbers, arrays and objects. |
| CanonicalJsonLaws.AscendingIsUnique | src/auth/service-auth.util.ts:102-103 | Sorting members with distinct keys has one result, whatever order they came in. |
| CanonicalJsonText.TextOfScalars | src/auth/service-auth.util.ts:100 | null, true, false and numbers are written as JSON has them. |
| CanonicalJsonText.StringsReadBack | src/auth/service-auth.util.ts:100-103 | A string is written as a literal that a JSON reader reads back as that string. |
| CanonicalJsonText.SpellingOfACharacter | src/auth/service-auth.util.ts:100-103 | Each character has the one spelling JSON.stringify gives it. |
| CanonicalJsonText.TextOfArrays | src/auth/service-auth.util.ts:101 | An array is its items in order, in brackets, with commas between. |
| CanonicalJsonText.TextOfObjects | src/auth/service-auth.util.ts:102-103 | An object is its members in braces, with commas between, the key that sorts last in last place. |
| CanonicalJsonText.KeyLessIsSortsBefore | src/auth/service-auth.util.ts:102 | A key sorts before another if it is a beginning of it or has the smaller character where they first differ. |
| ServiceAuth.VerificationComparesBodies | src/auth/service-auth.util.ts:107-132 | Signing any JSON payload and receiving it in any key order, it verifies exactly within the window and if signing and verification saw bodies with the same signature. |
| ServiceAuth.WhatIsSent | src/auth/service-auth.util.ts:107-116 | For an object without an envelope, or nothing, what is sent is its members and an envelope with time, nonce and the HMAC of "v1.", time, nonce and the hash of the canonical text. |
| ServiceAuth.RefusedOutright | src/auth/service-auth.util.ts:119-131 | Without a secret, an object, an envelope in it or a decodable signature nothing verifies. |
| ServiceAuth.VerifiesWithinTheWindowIff | src/auth/service-auth.util.ts:107-132 | An object without an envelope of its own, or nothing at all, verifies after any key permutation if and only if the time is within 300000 ms either way. |
| ServiceAuth.VerifiesIffNoEnvelopeOfItsOwn | src/auth/service-auth.util.ts:107-132 | Without signature collisions, any JSON payload verifies within the window if and only if it is an object without a __svcAuth member of its own, or null: an array or a scalar is signed as such and sent as an object. |
| ServiceAuth.OnlyTheSignedBodyVerifies | src/auth/service-auth.util.ts:119-132 | Under one payload's envelope only that payload verifies, up to key order; a member dropped on the wire is refused. |

## Left out

- Sockets, HTTP, SSE, logging, metrics and e-mail contents: only their outcomes reach the model.
- SHA-256, HMAC, AES and hex decoding are uninterpreted; the signing theorems that need it assume absence of collisions by name.
- HTTP header signing (`signServiceHeaders`, `verifyServiceHmac`): it has the window and comparison of the payload scheme and no canonical text.
- Timestamps of records: a timer is an event that may happen once armed; when it is due is kept with it, and otherwise times matter only in the stale check and the signing window.
- Steps an operator deletes or moves while a deployment is under way: what a resume does with a step that is gone is `ResumesWithTheStepIff`; over whole runs the pipeline is changed by reconciling alone.
- DumpPrefixes.WhatAPartLeaves: of lines cut in the middle only an INSERT with fewer rows is taken by the server; a cut CREATE TABLE that is still valid SQL is not modelled.
- `cancelDeployment`: it edits a stored copy while the run keeps saving its live object, so runs are modelled without it; likewise two deployments started at once, and the deployment queue.
- `retryStep`: it resumes through the same lookup as a restart, which is modelled; the step id it takes is not checked against the failed one.
- Output text of deployment steps, and the throttled extra saves made while a step runs, which repeat a state already saved as running.
- Deployment.DeploymentService.RunSteps: the restart command itself runs after the last save; a crash in between counts as the restart it would have caused.
- `promoteOnAccess` with its set of paths being promoted, and the demotion sweep: they call `promote` and `demote`, and since those have no await inside, a second promotion of a path finds no link.
- `coldStats`, `getOverview` and the choice of a drive: read-only sums.
- Symbolic links are resolved one hop and never in the middle of a path; Windows separators and glob matching of ignore patterns (an arbitrary predicate here).
- SyncConvergence.APassConverges: assumes file systems in which every prefix of a path is a directory, and no concurrent writer on the replica during the pass.
- Listing.ListRecursively: the tree does not change during the walk; which calls fail is arbitrary.
- DatabaseImport.DumpExecutes: of all constraints only foreign keys between tables are modelled, so rejected duplicates and packet limits of the server are not; types and values are texts.
- DatabaseDump.BatchesHoldTheRows: sizes are in characters, as the code measures them, and not in bytes.
- DumpText.ReadsBackIff: which characters end a line is a parameter; the escaping done by the database driver is not part of this model.
- CanonicalJsonLaws.SameTextIff: keys sort by code point here and by UTF-16 unit in the code, which differ only beyond the basic plane; `undefined` members are not JSON values (they sign like null).
- StaleReplicas: of a record only the request count and the two times are kept.
- Propagation.BufferingRefinesDirectDelivery: the `workDir` of an ack and the callbacks to the UI are not kept.
- Runner.ReplicaDeployRunner.OnClose: data arriving after a spawn error and an `emit` that throws are not modelled.
- ReplicaImages.PropagateStep.BuildReplicaImages: a clean-up that throws, and what `cloneSource` does when it fails itself.
- Byte-range parsing, chunked uploads, pagination and formatting helpers: easy members with no state.
