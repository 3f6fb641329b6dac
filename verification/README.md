# Verified models of the server panel's core

This project models the parts of the panel and its agent whose correctness is hardest to see from the code, and
proves what they promise. Network, Docker, GitHub, SQLite, clocks and schedulers are environments that may answer
in any way the code has to cope with; what the program itself does follows its source branch by branch.

| file | what it models |
|---|---|
| `GitServer`, `GitWriters`, `Sharding`, `GithubTarget` | the GitHub storage target: splitting archives, the optimistic commit protocol of many writers, reassembly, deletion |
| `AgentHub`, `HubLaws`, `HubService` | the hub of connected agents and pending requests, as a step machine at lock granularity and as the class that runs it |
| `Paths`, `Archive`, `Restore`, `Upload`, `Recreate` | the backup pipeline on the agent: the pruning walk, the tar stream, restoring, the chunked upload, recreating a container |
| `Retention`, `BackupReport`, `ReportDebounce` | pruning old backups, the nightly report, and collecting overlapping batches into one message |
| `ImageRef`, `Semver`, `UpdateScan`, `ScanGroups`, `Reconcile` | the image-update engine: references, the version order, the decision per container, grouping and workers, and the schedule's target list |
| `HealthAlerts`, `ScanCache` | the alert machine and the scan cache with its inventory |
| `Text` | the string functions of the Go library the others call |

`dafny verify dfyconfig.toml` checks everything.

Code that changes state is modelled by classes and methods that do the same steps, each tied to a function of the
old state; theorems about whole runs are lemmas about those functions. In runs, a step that is not enabled leaves the
state alone, so a theorem over all sequences of steps covers all interleavings.

## Where code and documentation differ

The models follow the code.

- `shard.go` explains a shard size of 24 MiB; the constant is 32 MiB.
- A split push writes its paths without the configured prefix while reads and deletes add it, so with a prefix large
  archives cannot be read back or deleted (`Sharding.PushThenPull`, `Sharding.PrefixedDeleteLeavesParts`).
- A ref update whose answer is lost can make a push land twice (`GitWriters.LostAnswerLandsTwice`); exactly when it
  does is in `GitWriters.LandsOnceIff` and `GitWriters.SucceedsOnceIff`.
- The single-file delete reports success for whatever GitHub answers, a refusal included, and the file stays
  (`GithubTarget.RefusedDeleteReportsSuccess`, `GithubTarget.ReportedDeleteIff`).
- A pull that is overtaken by a push of another version of the same size can return a mixture that passes the size
  test (`GithubTarget.VersionsMix`, `GithubTarget.PullIsOneVersion`).
- Retention sees at most 500 rows of a node, though its comment speaks of every container's newest versions; a second
  pass can then prune what the first did not see (`Retention.PassIsExactIff`, `Retention.PassTwiceIff`).
- The combined report is said to go out only after the full quiet delay; a callback that had already fired skips it
  (`ReportDebounce.DelayIsKeptIff`).
- A file that becomes unreadable between the walk and the copy is said to be skipped; its header is already written,
  so a non-empty one makes the whole archive fail (`Archive.ArchiveVolumes`).
- When Docker answers a create with 404 because of the network, this counts as a missing image first: the bridge is
  tried only if a pull is allowed, works, and the second create is refused for its network too
  (`Recreate.BridgeReachedIff`).
- Excluding `/` excludes only the root itself, and nothing of a mount whose source is `/` is restored; a mount source
  that is a link comes back only into a directory that is there (`Archive.ExcludedIff`, `Restore.RootVolumeIsLost`,
  `Restore.RestoreVolumeIff`).
- "Once per outage" fails for an outage that begins in the very second of an earlier notification
  (`HealthAlerts.FiredIff`, `HealthAlerts.SilentOutage`).
- A waiter bound between a connection's cancellation and its deregistration is not cancelled
  (`HubLaws.LateBindingIff`).
- Configured targets without a name are treated as duplicates of each other (`Reconcile.UnnamedTargetsCollapse`).

## Model

| member | source | states |
|---|---|---|
| GitServer.FastForwardMeansOnHead | master/internal/targets/github_tree.go:184-197 | A commit built on a past HEAD is accepted by a non-forced ref update exactly when it is HEAD already or its parent still is HEAD. |
| GitServer.MoveRefKeepsInv | master/internal/targets/github_tree.go:184-197 | A ref update, accepted or refused, keeps the branch a linear chain of commits whose trees are their changes applied to their parents, and only extends its history. |
| GitServer.DirectWriteKeepsInv | master/internal/targets/github.go:97-150 | A single-file write through the Contents API keeps that chain too. |
| GitServer.FoldKeeps | master/internal/targets/github_tree.go:246-275 | What a landed change leaves at a path is what the folded tree has there, if no later landing names the path; deletions included. |
| GitWriters.StepKeepsInv | master/internal/targets/github_tree.go:246-275 | Any step of any writer (read ref, read base tree, make tree, make commit, move ref, fail) or of an outsider keeps the protocol invariant and only extends the server's history. |
| GitWriters.BranchIsLinear | master/internal/targets/github_tree.go:246-275 | In every run of any number of interleaved writers, with requests whose answers may be lost, the branch is one chain from the first commit to HEAD. |
| GitWriters.BranchIsFoldOfLandings | master/internal/targets/github_tree.go:246-275 | In every run HEAD's tree is the initial tree with the landed changes applied in ref-update order, and every writer that reported success has landed. |
| GitWriters.NoLandedPathIsLost | master/internal/targets/github_tree.go:296-323 | No race loses a committed path: it is at HEAD unless a later landing names it. |
| GitWriters.LogOnlyGrows | master/internal/targets/github_tree.go:184-197 | Landings are never undone or reordered by whatever happens next. |
| GitWriters.OutsideLands | master/internal/targets/github.go:97-150 | A commit by anybody else lands at once on top of HEAD, leaves at its path what it says, and disturbs no writer. |
| GitWriters.FailsIff | master/internal/targets/github_tree.go:246-275 | A writer gives up exactly when it is aborted before its success or its fifth ref update fails. |
| GitWriters.LandsOnceIff | master/internal/targets/github_tree.go:246-275 | At every moment of a run a writer's change is on the branch once if it has succeeded and not at all otherwise, exactly when no ref update of it that moved the branch lost its answer; refused and repeated updates may lose theirs. |
| GitWriters.SucceedsOnceIff | master/internal/targets/github_tree.go:246-275 | A writer that reports success has landed once more than before its last pass, at most five times in all, and just once exactly when it never set out on a new pass after a landing. |
| GitWriters.LostAnswerLandsTwice | master/internal/targets/github_tree.go:186-197 | A run in which an unanswered ref update makes a push land twice and brings back a path that was deleted in between. |
| Sharding.NamesDistinct | master/internal/targets/shard.go:34-40 | Part and manifest names never collide with each other or with the object's own name, for any part number. |
| Sharding.PrefixedIsNotPlain | master/internal/targets/github.go:61-67 | No name under a non-empty prefix equals a name a split push writes without the prefix. |
| Sharding.PathOfPrefix | master/internal/targets/github.go:61-67 | A name is looked for in the directory of the prefix, whatever slashes surround it; a prefix of slashes alone is none. |
| Sharding.PrefixParts | master/internal/targets/github.go:61-67 | Every prefix is slashes, a text that neither starts nor ends with one, and slashes again. |
| Sharding.PartCountIsCeiling | master/internal/targets/github_tree.go:207-211 | The number of parts is the size divided by the shard size, rounded up. |
| Sharding.JoinIsPrefix | master/internal/targets/shard.go:70-85 | Reading the first k parts of a pushed object yields exactly the first k shards' worth of its bytes. |
| Sharding.GitDataRoundTrip | master/internal/targets/github_tree.go:202-244 | Without a prefix a split push of any non-empty file is read back byte for byte, whatever the tree held before. |
| Sharding.GitDataRoundTripIff | master/internal/targets/github_tree.go:235-244 | For a fresh name the split round trip succeeds exactly when the target has no prefix and the file is not empty: the push writes plain paths, reads add the prefix. |
| Sharding.EmptyFileUnreadable | master/internal/targets/github_tree.go:207-229 | The manifest of an empty file announces one part that is never uploaded, so reading it back fails. |
| Sharding.PushWrites | master/internal/targets/github.go:69-80 | A small push changes exactly the one path in the prefix's directory; a large one writes the parts .p000000, .p000001 and so on with their shards and the manifest beside the plain name, and nothing else. |
| Sharding.SmallPushThenPull | master/internal/targets/github.go:69-80 | A file of at most one shard is read back exactly, unless the name still has an older manifest, in which case the old answer stays. |
| Sharding.PushThenPull | master/internal/targets/github.go:69-86 | For a fresh name and every size, what Push stores Pull returns exactly when the file fits one shard or the prefix is empty. |
| Sharding.DeleteAfterPush | master/internal/targets/github_tree.go:281-294 | Without a prefix, after a split push and a delete the pushed paths are gone and every other path is as it was, for files of any size. |
| Sharding.DeleteUndoesPushIff | master/internal/targets/github_tree.go:281-294 | Without a prefix, delete restores the very tree from before a split push exactly when the paths were free, for files of any size. |
| Sharding.PrefixedDeleteLeavesParts | master/internal/targets/github_tree.go:281-294 | With a prefix, deleting a split object finds no manifest and leaves everything behind. |
| Sharding.PushThenDelete | master/internal/targets/github.go:69-95 | For a fresh name, every size and every prefix, deleting what Push stored restores the tree exactly when the file fits one shard or the prefix is empty. |
| GithubTarget.PushSurvivesOtherWriters | master/internal/targets/github_tree.go:246-275 | In every run, a pushed archive is read back exactly from HEAD as long as later landings leave its own paths alone. |
| GithubTarget.Github.UpdateRef | master/internal/targets/github_tree.go:186-197 | The ref update with its lost-answer retries: success means the commit is on the branch, history only grows, and without interference HEAD moves to it; it is sent again exactly while answers are lost, five times at most, and a refusal is final and true. |
| GithubTarget.Github.CommitEntries | master/internal/targets/github_tree.go:246-275 | The retry loop: success means the change has landed since the call, with other writers active between any two requests; it gives up only when a request fails or after five passes. |
| GithubTarget.Github.UploadParts | master/internal/targets/github_tree.go:219-236 | The part loop over one buffer produces exactly the entries of the specification. |
| GithubTarget.Github.GitDataPush | master/internal/targets/github_tree.go:202-276 | The whole push is the specified change, landed; alone it yields the specified tree. |
| GithubTarget.Github.PullParts | master/internal/targets/shard.go:70-85 | The reassembly loop: each part is read from whatever HEAD holds when its turn comes, at moments in order; success is their join and its byte count the length written. Alone it is the specified join. |
| GithubTarget.Github.ShardPull | master/internal/targets/shard.go:45-90 | Reading back while others write: success means the manifest was read at one moment and the parts, joined, at later ones, with the announced size; or, with no readable manifest, the single file. Alone it is the specified pull. |
| GithubTarget.PullIsOneVersion | master/internal/targets/shard.go:45-90 | A successful pull whose parts no landing touches after the manifest was read returns the object as it stood at that moment, or, when the manifest could not be read, its single file. |
| GithubTarget.VersionsMix | master/internal/targets/shard.go:70-89 | A reader overtaken after k parts by a push of another version of the same size gets the beginning of the one and the rest of the other, of the right size; it equals the old version exactly if the rests agree and the new one exactly if the beginnings do. |
| GithubTarget.Github.GitDataDelete | master/internal/targets/github_tree.go:281-325 | Deleting while others write: with a manifest, success means the change that removes the parts and manifest it lists, as it stood at a moment of the call, has landed; without a readable one, exactly what the single-file delete achieves. Alone it yields the specified tree. |
| GithubTarget.Github.PutRaw | master/internal/targets/github.go:97-150 | The single-file write with its version retries lands its content when it reports success, and gives up only on a final answer or after five tries. |
| GithubTarget.Github.DelRaw | master/internal/targets/github.go:177-198 | The single-file delete while others write: once the file is found, success means only that an answer came, refusals included; if the server accepted, the removal has landed; and if no other landing touches the path, the file is gone exactly if the server accepted, which it does exactly if the request reached it and was not refused. A look-up that fails is a success without effect. Alone it removes the prefixed path. |
| GithubTarget.ReportedDeleteIff | master/internal/targets/github.go:182-197 | A delete of the version that is there, reported as a success, removes the file exactly if the server did not refuse it; refused, it changes nothing. |
| GithubTarget.RefusedDeleteReportsSuccess | master/internal/targets/github.go:192-197 | A refused delete of an existing file reports success with the tree unchanged. |
| GithubTarget.Github.Push | master/internal/targets/github.go:69-80 | The dispatch by size: success means the split change, or the server's commit of the one file, has landed since the call, whoever else writes; alone it is the specified push. |
| AgentHub.RunKeepsInv | master/internal/agenthub/hub.go:71-178 | In every interleaving at lock granularity: waiters hold distinct open channels, no channel is closed twice, a node's client is its newest connection or absent, and buffered replies answer their waiter. |
| HubLaws.ClosedIffRemoved | master/internal/agenthub/hub.go:99-137 | A step closes a waiter's channel exactly when it removes the waiter. |
| HubLaws.UnheldChannelStays | master/internal/agenthub/hub.go:99-137 | A channel no waiter holds is never closed again nor handed out again. |
| HubLaws.ClosedSinceIff | master/internal/agenthub/hub.go:108-137 | After any run, a channel looked up earlier is closed exactly if some step of the run removed its waiter. |
| HubLaws.SplitRouteCanHitClosedChannel | master/internal/agenthub/hub.go:108-120 | From every state in which a lookup has found a channel, one unsubscribe of its id closes that channel; so a send made after the lock is released can find it closed. |
| HubLaws.RouteDelivers | master/internal/agenthub/hub.go:108-120 | A reply is appended to the channel of the waiter of its id if that holds fewer than 64, and nothing else changes; with a full channel or no waiter nothing does. |
| HubLaws.RepliesArrive | master/internal/agenthub/hub.go:86-120 | In every run, what was taken from a waiter's channel followed by what is in it is what was routed to its request since it subscribed, in order, less what met a full channel. |
| HubLaws.FewRepliesAllArrive | master/internal/agenthub/hub.go:86-120 | With at most 64 replies none is dropped. |
| HubLaws.SendBindsAndQueues | master/internal/agenthub/hub.go:68-84 | A message binds the waiter of its id to the node's connection and joins that connection's queue unless it holds 64; nothing else changes, and for an offline node nothing does. |
| HubLaws.MessagesArrive | master/internal/agenthub/hub.go:68-84 | In every run what was written to a connection followed by what waits is what was sent to it, in order, less what met a full queue. |
| HubLaws.PhasesInOrder | master/internal/agenthub/hub.go:140-178 | A connection serves, drains, cancels its waiters and deregisters, each by its own step and in this order; once it has cancelled no waiter is bound to it. |
| HubLaws.BoundOnlyBySend | master/internal/agenthub/hub.go:71-84 | A waiter becomes bound to a connection only by a Send to its node while that is the node's client. |
| HubLaws.ReplacedThenCancelledIsFinal | master/internal/agenthub/hub.go:152-178 | Once a replaced connection has cancelled its waiters, no waiter is ever bound to it again, in any continuation. |
| HubLaws.TeardownSparesSuccessor | master/internal/agenthub/hub.go:172-178 | A teardown removes the node's entry if the connection is the newest one and leaves it alone otherwise. |
| HubLaws.ClientIsNewest | master/internal/agenthub/hub.go:152-178 | After any run a connection is its node's client exactly if it is the newest and has not been torn down. |
| HubLaws.GapWaiterIsStranded | master/internal/agenthub/hub.go:167-178 | A waiter bound between cancellation and deregistration stays bound to the dying connection in every continuation; only its own timeout frees it. |
| HubLaws.LateBindingIff | master/internal/agenthub/hub.go:71-84 | Exactly when a connection that has cancelled gets a waiter: a Send to its node for a pending id while it is still the client. |
| HubService.Hub.Register | master/internal/agenthub/hub.go:152-157 | Accepting a connection, on the maps themselves, is the specified step. |
| HubService.Hub.Send | master/internal/agenthub/hub.go:71-84 | Sending binds the waiter, queues or refuses, and reports offline exactly when the node has no client. |
| HubService.Hub.Subscribe | master/internal/agenthub/hub.go:90-96 | Subscribing installs a fresh open channel under the id. |
| HubService.Hub.Unsubscribe | master/internal/agenthub/hub.go:99-106 | Unsubscribing removes the waiter and closes its channel once; without one it does nothing. |
| HubService.Hub.Route | master/internal/agenthub/hub.go:108-120 | Routing buffers the reply for the waiter of its id and drops it when the buffer is full. |
| HubService.Hub.CancelClientSubs | master/internal/agenthub/hub.go:125-137 | The two loops close and remove exactly the waiters bound to the connection, each once, in any order. |
| HubService.Hub.Teardown | master/internal/agenthub/hub.go:167-178 | The end of a connection is cancel then deregister, and reports whether it was still the client. |
| HubService.Hub.RequestOne | master/internal/agenthub/request.go:12-30 | It subscribes, sends and unsubscribes in this order, whatever other goroutines do in between; it returns the first reply that was routed to it unless its timer fires, reports a lost connection only without a reply, and leaves no waiter and a channel closed exactly once. |
| Retention.KeepsNewestOfSeries | master/internal/backup/service.go:1640-1673 | For all settings, each series keeps exactly its newest max(min(n, keep_count), number within keep_days) backups, as a prefix. |
| Retention.SameSeriesIff | master/internal/backup/service.go:1643-1663 | Which backups form a series, by fields: the container name if both have one, whatever the ids; the container id if neither has a name; node and backup name if neither names a container; itself otherwise. |
| Retention.KeptIff | master/internal/backup/service.go:1643-1669 | A backup of a named container is kept exactly if it is at most keep_days old or has fewer than keep_count newer ones of the container listed before it. |
| Retention.PassKeepsNewest | master/internal/backup/service.go:1617-1674 | With keep_count at least one a pass keeps the newest listed backup of every container name, unless a nameless backup's id spells that name. |
| Retention.PruneTwice | master/internal/backup/service.go:1640-1673 | The settings alone, without the list limit: pruning at one time and again later keeps what pruning once at the later time keeps. |
| Retention.PruningHistoryIsIrrelevant | master/internal/backup/service.go:1617-1674 | Over whole histories of backups and limited passes: what the settings select from the rows left is what they would have selected had nothing been pruned before, and the next pass leaves exactly that if and only if no row past the list limit is due; with both limits zero nothing is ever lost. |
| Retention.PassIsExactIff | master/internal/backup/service.go:1627-1640 | Because at most 500 rows are listed, a pass does what the settings say exactly when no row past the list limit is due. |
| Retention.PassTwiceIff | master/internal/backup/service.go:1617-1674 | With the list limit, a pass leaves the same rows whether or not an earlier one ran exactly when none of the rows the second pass additionally sees, as many past the limit as the first one dropped, is due. |
| Retention.SecondPassReaches | master/internal/backup/service.go:1617-1674 | What two passes leave: the settings applied to as many rows past the limit as the first pass dropped, and the rest as it was. |
| Retention.SecondPassPrunesMore | master/internal/backup/service.go:1617-1674 | With 501 rows of one series and keep_count 1, one pass leaves two rows and the next leaves one. |
| Retention.BackupStore.ApplyRetention | master/internal/backup/service.go:1617-1674 | One pass over the stored rows is the specified pass. |
| Retention.BackupStore.Sweep | master/internal/backup/service.go:1640-1673 | The loop with its per-series counters keeps exactly the rows the rule keeps and touches no unlisted row. |
| Retention.NextRow | master/internal/backup/service.go:1664-1669 | The decision from the running count of survivors is the rule that counts all earlier rows. |
| ReportDebounce.SentThenPendingIsQueued | master/internal/scheduler/scheduler.go:318-362 | For every interleaving of batch starts, ends, timer expiries and late callbacks, sections sent followed by sections pending are the sections handed in, in order, each once; without a notifier nothing is kept. |
| ReportDebounce.SnapshotsAreIdle | master/internal/scheduler/scheduler.go:350-362 | A snapshot is taken only while no batch is in flight, and takes all that is pending. |
| ReportDebounce.NothingIsStranded | master/internal/scheduler/scheduler.go:327-342 | When nothing runs and no callback is due, nothing is pending; otherwise the first outstanding callback sends everything. |
| ReportDebounce.OneMessagePerWindow | master/internal/scheduler/scheduler.go:318-362 | There are never more messages than moments at which the last running batch ended. |
| ReportDebounce.DelayIsKeptIff | master/internal/scheduler/scheduler.go:338-341 | The quiet delay before a report is kept exactly when the sending callback is the newest timer's. |
| ReportDebounce.LastEndRearms | master/internal/scheduler/scheduler.go:327-342 | The end of the last batch stops the remembered timer if it still counts, arms a new one and touches no other. |
| ReportDebounce.EarlierEndsWait | master/internal/scheduler/scheduler.go:327-342 | While other batches run, the end of one arms and stops nothing; its section joins the pending ones. |
| ReportDebounce.OneTimerCounts | master/internal/scheduler/scheduler.go:318-362 | As long as no callback comes late, at most the remembered timer is counting. |
| ReportDebounce.Reports.TrackBackupStart | master/internal/scheduler/scheduler.go:318-322 | Starting a batch, on the fields themselves, is the specified step. |
| ReportDebounce.LateCallbackSkipsDelay | master/internal/scheduler/scheduler.go:344-358 | A run in which a callback that Stop came too late for sends the next batch's report at once. |
| ReportDebounce.FirstSeenIsUnion | master/internal/scheduler/scheduler.go:364-376 | The merged targets hold every id once and leave none out. |
| ReportDebounce.FirstSeenAt | master/internal/scheduler/scheduler.go:364-376 | The first target with each id is kept as it is, in the order of first appearance. |
| ReportDebounce.Reports.QueueBackupReport | master/internal/scheduler/scheduler.go:327-342 | Ending a batch, on the fields themselves, is the specified step. |
| ReportDebounce.Reports.FlushBackupReports | master/internal/scheduler/scheduler.go:350-376 | The callback is the specified step and sends the concatenated results with the targets in first-seen order. |
| ReportDebounce.Merge | master/internal/scheduler/scheduler.go:364-376 | The merging loops compute exactly that. |
| HealthAlerts.FiredIff | master/internal/health/monitor.go:318-332 | With a clock that never goes back, a sample notifies exactly when it is the first of its breaching run at least its window after the run's start and the run did not start in the very second of an earlier notification, whatever window each sample has. |
| HealthAlerts.OncePerOutage | master/internal/health/monitor.go:318-332 | With a clock that moves forward, the second condition always holds. |
| HealthAlerts.OutageAnnouncedOnce | master/internal/health/monitor.go:301-334 | A breaching run is notified at most once, and notified at all exactly when it lasts the window. |
| HealthAlerts.RecoveredBetween | master/internal/health/monitor.go:329-331 | Between two notifications the metric recovered. |
| HealthAlerts.SameSecondOutageIsSilent | master/internal/health/monitor.go:323-328 | An outage that began in the very second of an earlier notification is never notified, however long it lasts. |
| HealthAlerts.SilentOutage | master/internal/health/monitor.go:323-328 | Such outages exist: after a notification, a recovery and a new breach within its second, no sample notifies as long as the metric keeps breaching. |
| HealthAlerts.PolledIsAfter | master/internal/health/monitor.go:303-334 | For a rule that is polled and saved in any order, the stored row has the settings last saved, and its state follows the per-sample machine over exactly the polls that concern it and had a value, each judged by the settings of its time: saving neither begins nor ends an outage. |
| HealthAlerts.OtherPollsPass | master/internal/health/monitor.go:76-93 | A poll of another node, or while the rule is switched off, leaves the rule as it was. |
| HealthAlerts.BreachIff | master/internal/health/monitor.go:304-317 | A sample breaches a rule exactly if its metric's value is above the threshold; a load rule without one takes twice the cores, or four; a metric the sample does not carry is passed over. |
| HealthAlerts.NotifiesIff | master/internal/health/monitor.go:303-334 | For a rule saved between polls with other thresholds, windows, metrics or nodes, or switched off and on: a poll notifies exactly when its sample is the first of its outage to have lasted the window then in force, and the outage did not begin in the second of an earlier notification. |
| HealthAlerts.AlertStore.PutHealthAlert | master/internal/store/health.go:120-142 | Saving a rule keeps its breach state, clamps the window to 60 when not positive, and starts new rules fresh. |
| HealthAlerts.AlertStore.TouchHealthAlertState | master/internal/store/health.go:152-160 | A zero notification time leaves the stored one; an unknown id changes nothing. |
| HealthAlerts.AlertStore.Evaluate | master/internal/health/monitor.go:303-334 | One poll advances every rule with a value, changes no other row, and sends exactly the messages of the rules that fire. |
| ScanCache.CacheIsJustified | master/internal/store/containers.go:12-187 | After every history of snapshots, scans and invalidations, each cached result was stored by some scan of it, and every container now listed under its key had its present image and image id already when that scan was stored. |
| ScanCache.CacheMatchesInventory | master/internal/store/containers.go:81-90 | With names distinct within snapshots, after an accepted snapshot of a node every cached result of the node belongs to one present container whose image and image id are those of the time it was stored. |
| ScanCache.SurvivesIff | master/internal/store/containers.go:65-79 | A cached result survives an accepted snapshot exactly when its container is listed again with unchanged image and image id. |
| ScanCache.OtherNodesUntouched | master/internal/store/containers.go:124-187 | No operation touches another node's inventory or results. |
| ScanCache.ScanIsComplete | master/internal/store/containers.go:124-148 | A stored scan leaves exactly its own results for the node, the last one for a repeated name. |
| ScanCache.RunKeepsKeysUnique | master/internal/store/containers.go:56-64 | Inventory keys stay unique in every history; a snapshot that would clash is refused whole. |
| ScanCache.ClashIff | master/internal/store/containers.go:36-64 | Two rows of one node clash exactly if their container ids share the first twelve characters. |
| ScanCache.InvalidatedIff | master/internal/store/containers.go:158-188 | An invalidation drops, of its node only, the results under a given name and those of containers whose id or first twelve characters were given; blanks drop nothing. |
| ScanCache.InvalidatedAllIff | master/internal/store/containers.go:151-156 | A node's whole invalidation drops all its results and no other. |
| ScanCache.Store.InvalidateContainerScan | master/internal/store/containers.go:151-156 | The statement is the specified step. |
| ScanCache.Store.ReplaceNodeContainers | master/internal/store/containers.go:12-91 | The transaction with its loops and two deletions is the specified step, and succeeds exactly when no key clashes. |
| ScanCache.Store.UpdateContainerScan | master/internal/store/containers.go:124-148 | Delete then upsert, in a loop, is the specified step. |
| ScanCache.Store.InvalidateContainerScanContainers | master/internal/store/containers.go:158-188 | The loop over references, with blanks and repetitions skipped, drops exactly the results matched by name, id or 12-character id. |
| Upload.UploadStreamChunks | agent/internal/agent/backup.go:487-498 | For every reader behaviour and any leftover file: it succeeds exactly when no read, write or reply failed; success means the staged file is the whole stream, every chunk but the last was full, and there was one request per started chunk plus one, empty, exactly when the stream is empty or ends on a boundary without the reader telling its end along with the last bytes; failure leaves the old file or a prefix of the stream. It terminates. |
| Upload.PostChunk | agent/internal/agent/backup.go:530-547 | One request carries at most one chunk, appends it (chunk 0 replaces), and stops short of a full chunk only at the end of the stream. |
| Upload.RequestCount | agent/internal/agent/backup.go:487-498 | From full chunks and a last one, and from whether the end was told with the last bytes, follow the number of requests and when the last one is empty. |
| Upload.UploadStream | agent/internal/agent/backup.go:440-448 | With the production chunk size no request reaches 100 MB. |
| Upload.Staged.Open | master/internal/agentapi/agentapi.go:179-193 | Chunk 0 truncates the staged file, any other chunk appends to it. |
| Upload.EofReader.Read | agent/internal/agent/backup.go:504-515 | The reader notes the end of the stream and passes everything through. |
| Recreate.RecreateContainer | agent/internal/agent/backup.go:853-995 | For any daemon, a recreated container is the one own container left, started and on its own networks or, if its host configuration parses, on the bridge; any other outcome leaves none but what the daemon made without answering or refused to delete. The calls and answers form one of the scripts, which ends with a start that worked exactly if it reports a container: at most four creates and two starts. An existing container or a missing description means no call at all. |
| Recreate.CallsAreBounded | agent/internal/agent/backup.go:926-993 | In every sequence of calls and answers the phases allow there are at most four creates and two starts. |
| Recreate.CreateFirst | agent/internal/agent/backup.go:926-949 | The create phase: retry after a pull, then the bridge, and nothing is held when it fails. |
| Recreate.StartFirst | agent/internal/agent/backup.go:955-992 | The start phase: a container that does not start is removed, and a missing network or taken port gives one more attempt. |
| Recreate.RunAgain | agent/internal/agent/backup.go:962-986 | The second attempt cleans up after itself. |
| Recreate.TwoPortMessages | agent/internal/agent/backup.go:1163-1168 | The third message looked for is covered by the second. |
| Recreate.MissingNetworkCountsAsMissingImage | agent/internal/agent/backup.go:1183-1191 | A 404 that says a network was not found counts as a missing image first: it ends the attempt without permission to pull, and with it leads to the pull, and from there to the bridge if the answer is the same again. |
| Recreate.BridgeReachedIff | agent/internal/agent/backup.go:926-949 | When the first create is refused for its network, the next call is the create on the bridge exactly when the answer does not read as a missing image too; along every run the bridge is reached exactly then, or when a permitted pull works and the second create is refused for its network. |
| Recreate.PhasesAreScripts | agent/internal/agent/backup.go:926-993 | The phases accept exactly the sequences of calls and answers written out as nested cases: pull and create, bridge, start, removal, second attempt; and success is ending with a start that worked. |
| Recreate.AfterFailedStart | agent/internal/agent/backup.go:955-992 | After a first start that failed the container is removed; then comes a create on the bridge exactly for a missing network, moved ports exactly for a taken port otherwise, and nothing in all other cases. |
| Recreate.SecondChance | agent/internal/agent/backup.go:959-992 | After a start refused for its network the recreation fails exactly if the create on the bridge is refused or its start fails; after a taken port exactly if no port could be moved or the same happens. |
| Recreate.ErrorsByText | agent/internal/agent/backup.go:1163-1191 | What an answer is taken for, by status and by the texts it contains in any case. |
| Paths.CleanRender | agent/internal/agent/backup.go:333-336 | A clean absolute path is left alone by cleaning. |
| Paths.CleanStep | agent/internal/agent/backup.go:810-812 | A further component of an absolute path changes nothing if empty or a dot, steps up for two dots but not above the root, and steps down otherwise. |
| Paths.JoinChild | agent/internal/agent/backup.go:353-353 | Stepping into a directory extends the path by one name, from the root as well. |
| Paths.BeneathIff | agent/internal/agent/backup.go:340-342 | The string test for equal-or-below means what it says on lists of names, except that it finds nothing below the root. |
| Archive.ExcludedIff | agent/internal/agent/backup.go:329-345 | For excludes in any spelling, a path is excluded exactly when it is, or lies beneath, an absolute exclude, where excluding the root covers only the root itself. |
| Archive.PruneIsFilter | agent/internal/agent/backup.go:353-368 | The pruning walk archives exactly the visits of the full walk that are not excluded. |
| Archive.PruneIsFilterIff | agent/internal/agent/backup.go:363-368 | That holds for every tree at a path exactly unless the root is walked and excluded. |
| Archive.IsExcluded | agent/internal/agent/backup.go:329-345 | The exclusion loop decides exactly that test. |
| Archive.WalkFn | agent/internal/agent/backup.go:353-411 | The callback writes the entry of a visit, skips excluded paths, pads a file that shrank and stops only on a stream that cannot be finished. |
| Archive.Walk | agent/internal/agent/backup.go:353-412 | The recursive walk writes exactly the pruned visits in order. |
| Archive.ArchiveVolumes | agent/internal/agent/backup.go:57-76 | The archive is completed exactly when no included non-empty file fails to open after its header was written, and then holds the pruned volumes in order. |
| Restore.EntryNameIs | agent/internal/agent/backup.go:378-389 | An entry is named by its volume, the mount's base name and the path below it, with a slash for directories. |
| Restore.LocateEntry | agent/internal/agent/backup.go:631-655 | Every archived name is mapped back to the very path it came from. |
| Restore.GuardIff | agent/internal/agent/backup.go:810-815 | The string guard against leaving a mount holds exactly if the target is the mount source or beneath it, however the name is spelled. |
| Restore.OutsideIsRefused | agent/internal/agent/backup.go:810-815 | An entry whose name leads out of its mount changes nothing. |
| Restore.RestoreStaysInside | agent/internal/agent/backup.go:590-666 | Whatever names its entries carry, restoring an archive changes nothing outside the mount sources, except that missing directories leading to them are made, and removes nothing. |
| Restore.RestoreTree | agent/internal/agent/backup.go:590-660 | Restoring the entries of a subtree adds exactly its image: the tree without what the excludes cover, without unlistable directories and special files. |
| Restore.ImageIs | agent/internal/agent/backup.go:338-400 | The image node by node: exactly those nodes come back that are no special files, can be reached and listed, and are neither an exclude nor beneath one, each in its own form. |
| Restore.RestoreVolume | agent/internal/agent/backup.go:590-660 | Restoring a volume adds its image and the directories leading to it, where a bare link finds its directory. |
| Restore.RestoreRebuildsSources | agent/internal/agent/backup.go:590-660 | Restoring all volumes of a container adds, in turn, exactly the images of those that come back, overlapping mounts of one host included, and nothing of a root mount or of a bare link without a directory; if all come back, everything is back, and every other path stays. |
| Restore.RootSourceRestoresNothing | agent/internal/agent/backup.go:810-815 | An entry located at a mount whose source is the root directory changes nothing, whatever the other mounts are: the guard refuses everything below it. |
| Restore.RootVolumeIsLost | agent/internal/agent/backup.go:590-660 | Of the archived entries of a volume mounted from the root nothing is restored, whatever else is mounted. |
| Restore.LinkSourceIsLost | agent/internal/agent/backup.go:830-832 | A mount source that is a symbolic link is archived as the link alone, and the link is restored exactly if it is not excluded, its place is free and its directory is there. |
| Restore.RestoreVolumeIff | agent/internal/agent/backup.go:590-660 | On a disk that holds nothing of it yet a volume comes back in full exactly when it has nothing to bring back, or it is not the root and, if a bare link, its directory is there. |
| Restore.Disk.ExtractEntry | agent/internal/agent/backup.go:810-835 | Extracting one entry, guard included, is the specified change of the disk. |
| Restore.Disk.RestoreEntries | agent/internal/agent/backup.go:590-666 | The restore loop is the specified sequence of changes. |
| ImageRef.RetagIff | agent/internal/agent/registry.go:539-548 | Replacing the tag keeps registry and repository exactly for names that survive their short spelling: on Docker Hub an official image of one name, or a repository that does not begin with something registry-like. |
| ImageRef.NamedSpelledIff | agent/internal/agent/registry.go:212-227 | Exactly which parsed names are read back from their short spelling. |
| ImageRef.NamedIs | agent/internal/agent/registry.go:206-228 | A first component is a registry if it has a dot or a port or is localhost; Docker Hub's three names are one and its official images live under library; anything else is a name on Docker Hub. |
| ImageRef.ParsedIs | agent/internal/agent/registry.go:197-228 | The tag is what follows the last colon, latest if that is a port or missing, and a digest is dropped. |
| ImageRef.TagReadersAgree | agent/internal/agent/docker.go:1170-1181 | On trimmed references without a digest both readers of the agent agree; the panel's agrees when the tag is explicit and says nothing when it is not. |
| ImageRef.SplitThenFormat | agent/internal/agent/docker.go:1170-1188 | A reference with a tag or a well-formed digest is rebuilt from its parts. |
| ImageRef.SameKeyIff | agent/internal/agent/docker.go:688-700 | Lower-case references share a group key exactly when registry, repository and tag are equal. |
| ImageRef.SameKeySameRepository | agent/internal/agent/docker.go:688-700 | In any case one key means one repository and one tag. |
| Semver.StrictTotalOrder | agent/internal/agent/registry.go:420-437 | The version order is irreflexive, asymmetric, transitive and total up to spelling, on all versions. |
| Semver.LessMeans | agent/internal/agent/registry.go:420-437 | Numbers are compared as numbers from the major one down; with equal numbers a release is above every suffix, and suffixes compare as text. |
| Semver.ParseRaw | agent/internal/agent/registry.go:394-418 | A parsed tag remembers its trimmed text, and that text parses to the same version. |
| Semver.ReadsPrinted | agent/internal/agent/registry.go:380-418 | A tag spelled as three dotted numbers, with or without a v and with or without a dashed text, parses to exactly those numbers and that text. |
| Semver.ReadsShort | agent/internal/agent/registry.go:375-418 | A tag of one number counts as that major version with minor and patch zero. |
| Semver.ReadsPlain | agent/internal/agent/registry.go:380-418 | Every three numbers printed with dots, with or without a v, are read back. |
| Semver.ReadsPadded | agent/internal/agent/registry.go:394-397 | White space around a tag does not matter. |
| Semver.NeverVersionIff | agent/internal/agent/registry.go:394-406 | The words, beginnings and endings that keep a tag from being a version. |
| Semver.StartsLikeVersion | agent/internal/agent/registry.go:394-406 | Of tags that begin like a version only those with an architecture behind them are none. |
| Semver.FieldsJoin | agent/internal/agent/registry.go:528-537 | Splitting a tag into tokens splits at every separator. |
| Semver.FieldsPlain | agent/internal/agent/registry.go:528-537 | A text without separators is one token. |
| Semver.BestIsFirstMaximum | agent/internal/agent/registry.go:467-484 | The selection returns a maximum of exactly the candidates, the first of equals, and nothing exactly when there is no candidate. |
| Semver.FirstMaximumIsBest | agent/internal/agent/registry.go:467-484 | It is the only such choice. |
| Semver.HighestSemverTag | agent/internal/agent/registry.go:439-456 | The loop over all tags computes that selection. |
| Semver.HighestCompatibleSemverTag | agent/internal/agent/registry.go:462-484 | The loop with its filter computes the selection among compatible tags, and nothing for a current tag that is no version. |
| Semver.SelectedIsCompatible | agent/internal/agent/registry.go:462-484 | What is selected has the current major version and variant, is no pre-release for someone on a release, and comes from the list. |
| Semver.SelectedIsHighest | agent/internal/agent/registry.go:462-484 | No compatible tag of the list is above it. |
| Semver.SelectedIsSafe | agent/internal/agent/registry.go:462-484 | The selected tag is a version of the current major and variant and no pre-release for a release; and whenever the list has such a tag, one is selected that none of them is above. |
| Semver.SelectedIsStable | agent/internal/agent/registry.go:462-484 | Once it is the current tag, the same list selects it again. |
| Semver.FloatingIff | agent/internal/agent/registry.go:550-564 | Which tags are channels, and that no version is one. |
| Semver.ImageTagVariants | agent/internal/agent/registry.go:506-526 | The variant loop computes the specified variants. |
| Semver.VariantsIff | agent/internal/agent/registry.go:506-537 | The variants of a tag are the known words among its tokens, and revision for a suffix with a number. |
| Semver.VariantOf | agent/internal/agent/registry.go:506-526 | A plain version has no variant, and one with a known word behind it exactly that word. |
| Semver.RevisionOf | agent/internal/agent/registry.go:513-524 | A version with a number behind it is a revision and nothing else. |
| Semver.SameVariantIff | agent/internal/agent/registry.go:502-504 | Two versions with words behind them are of one variant exactly if the words are the same, and of none with a plain one. |
| UpdateScan.Judge | agent/internal/agent/docker.go:508-649 | The loop body with all its branches is a small decision table; the branch that guards against crossing a major version, the fall-through after a failed digest and the empty same-tag digest cannot be reached. |
| UpdateScan.UpdateMeansDifferent | agent/internal/agent/docker.go:528-648 | An update is announced only when the registry's digest and the running one are both known and differ. |
| UpdateScan.AnnouncedIff | agent/internal/agent/docker.go:475-649 | From the registry's and the daemon's answers: a scan announces an update exactly if the running digest is known and either the own tag decides and its content was read and differs, or the best compatible version's content was read and differs and it is above the running tag or is that tag; it denies one, or leaves the question open, in exactly the other cases. |
| UpdateScan.NotesSay | agent/internal/agent/docker.go:475-649 | The note of each case, and which of those answers it rests on. |
| UpdateScan.RunningDigest | agent/internal/agent/docker.go:660-686 | The running digest is the first the daemon lists for the configured repository, without its algorithm; without an entry there is none. |
| UpdateScan.LookedAtIff | agent/internal/agent/docker.go:1298-1300 | Only containers that follow a channel or a tag, and unmanaged ones, are scanned; all others stay as they are. |
| UpdateScan.SuggestedIff | agent/internal/agent/docker.go:555-598 | Exactly when a scan suggests another image, and which. |
| UpdateScan.SuggestionIsForward | agent/internal/agent/docker.go:590-598 | A suggestion keeps registry, repository, major version and variant, never leaves a release for a pre-release, strictly increases the tag, and can be upgraded again. |
| UpdateScan.ChainIsForward | agent/internal/agent/docker.go:475-609 | Along any run of scans with tag lists free to change, the image stays or moves strictly forward in its own line. |
| UpdateScan.NoSecondSuggestion | agent/internal/agent/docker.go:475-609 | Scanning again with the same tag list suggests nothing further, whatever the digests. |
| UpdateScan.ComposeAccepts | agent/internal/agent/docker.go:1465-1473 | The file-level major guard never refuses a suggestion. |
| UpdateScan.ComposeRefusesIff | agent/internal/agent/docker.go:1465-1473 | The file-level guard refuses exactly a change between versions of different majors. |
| UpdateScan.ReportNamesTags | master/internal/scheduler/scheduler.go:882-887 | The report shows the two tags that were compared. |
| ScanGroups.GroupItems | agent/internal/agent/docker.go:399-417 | The grouping loop partitions exactly the eligible indices, in order, by key. |
| ScanGroups.PlacesDiffer | agent/internal/agent/docker.go:399-417 | No index is in two groups or twice in one. |
| ScanGroups.GroupIsAlone | agent/internal/agent/docker.go:465-513 | Scanning a container with its group's reference is scanning it alone. |
| ScanGroups.LocalByKey | agent/internal/agent/docker.go:657-686 | What is learnt about an image id holds for every reference of the group. |
| ScanGroups.ApplyRegistryScanGroup | agent/internal/agent/docker.go:465-650 | One group, in place and with the memo, turns each member into what its own scan makes of it and leaves all other items. |
| ScanGroups.PoolIsAlone | agent/internal/agent/docker.go:419-438 | For any number of workers and any interleaving of their steps, a finished pool leaves every item as scanning its container alone would. |
| ScanGroups.PoolProgress | agent/internal/agent/docker.go:419-438 | With at least one worker, in every schedule: the moves that change something are at most one per member and two per group, the pool is done exactly when all of them have been made, and until then some worker can move. |
| ScanGroups.PoolCanFinish | agent/internal/agent/docker.go:419-438 | From every point of every schedule the pool can be finished by exactly the moves that are left. |
| Reconcile.FateMeaning | master/internal/scheduler/scheduler.go:758-773 | A name found stays; any other is relinked exactly when one place of the scan holds a name spelled alike, to that name, and removed exactly when no place or several do, the same name twice included. |
| Reconcile.AlikeIff | master/internal/scheduler/scheduler.go:758-773 | Two names are spelled alike exactly if, trimmed, they differ at most in underscores and hyphens. |
| Reconcile.ReconcileNames | master/internal/scheduler/scheduler.go:745-776 | The loops split the configured names into present, relinked and removed, each name once. |
| Reconcile.AllowedIff | master/internal/scheduler/scheduler.go:478-498 | The names looked for on a node are those of its targets, or for a target without one that of its container. |
| Reconcile.TargetFate | master/internal/scheduler/scheduler.go:782-815 | A named target of a scanned node stays if found, takes the new name and its container's id if relinked, and goes otherwise. |
| Reconcile.PersistTargets | master/internal/scheduler/scheduler.go:794-823 | The rewriting loop is the specified list, and the schedule stays enabled exactly when it is not empty. |
| Reconcile.PersistedIs | master/internal/scheduler/scheduler.go:794-823 | Every target that is not removed is kept under its new name, and nothing else is. |
| Reconcile.PersistedHasNoDuplicates | master/internal/scheduler/scheduler.go:808-813 | The persisted list has no node and name twice. |
| Reconcile.UnscannedNodeStays | master/internal/scheduler/scheduler.go:782-815 | Targets of a node without a completed scan all stay, in order and unchanged, up to repeated names. |
| Reconcile.UnnamedTargetsCollapse | master/internal/scheduler/scheduler.go:808-813 | On an unscanned node only the first of all targets without a name stays, whatever their containers; likewise for any one name. |
| Reconcile.RoundIsIdempotent | master/internal/scheduler/scheduler.go:741-823 | Reconciling again with the same scans changes nothing, for every list of targets. |
| Reconcile.RoundSettles | master/internal/scheduler/scheduler.go:741-823 | After a round every named target of a scanned node names a container that was found. |
| Reconcile.ClassifyUpdateCandidates | master/internal/scheduler/scheduler.go:855-894 | The chosen candidates are exactly the specified ones; every item is counted once as candidate, unchanged or skipped, and the unchanged and the unknown are exactly those the scan said so of. |
| Reconcile.CandidatesAre | master/internal/scheduler/scheduler.go:855-894 | The candidates are exactly the running containers for which an update was announced and that follow a channel, or a tag with a suggestion, in order, each with its name, the suggestion and both tags. |
| BackupReport.CellsOfUnit | master/internal/backup/service.go:1389-1410 | A unit's successes never exceed its cells and match them exactly when its archive was made and every target that counts was reached. |
| BackupReport.CellsAre | master/internal/backup/service.go:1389-1410 | A unit's cells are the targets it was meant for, or all, and its successes those reached with its archive made; without one the archive is the only cell. |
| BackupReport.SumsOfNode | master/internal/backup/service.go:1378-1411 | A node's sums likewise, and every unit contributes at least one cell. |
| BackupReport.RowTellsTruth | master/internal/backup/service.go:1412-1423 | Every node with a unit has its row: green exactly when all its units are clean, red exactly when nothing succeeded, else the true fraction. |
| BackupReport.RowsCountAllCells | master/internal/backup/service.go:1376-1411 | The rows together count every cell of every unit once. |
| BackupReport.UnitsCounted | master/internal/backup/service.go:1376-1388 | A row counts exactly the units of its node. |
| BackupReport.RowName | master/internal/backup/service.go:1376-1388 | A row is headed by the last name its node was given. |
| BackupReport.NoNotesIffAllGreen | master/internal/backup/service.go:1425-1458 | The failure list is empty exactly when every row is green and every target with an empty id was reached; without such targets, exactly when every row is green. |
| BackupReport.MissedAre | master/internal/backup/service.go:1427-1458 | A target is named as missed exactly if the unit was meant for it, or its id is empty, and it was not reached. |
| BackupReport.NotesExplain | master/internal/backup/service.go:1427-1458 | Every unit with a failure is explained by a listed note of its node and reason. |
| BackupReport.NotesOnce | master/internal/backup/service.go:1440-1452 | Each node and reason is listed once. |
| BackupReport.ReasonSays | master/internal/backup/service.go:1427-1452 | What a note says for an archive that failed and for targets that were missed. |
| BackupReport.BuildRows | master/internal/backup/service.go:1365-1423 | The aggregating loops compute the specified rows. |
| BackupReport.BuildNotes | master/internal/backup/service.go:1427-1458 | The separate loop computes the specified failure list. |

## Left out

- Encodings: JSON, YAML, gzip, base64 and the tar byte format are inverse pairs; a manifest goes through a codec that decodes what it encoded, an archive is a list of named entries.
- Docker, GitHub and SQLite: their answers are arbitrary; a SQL transaction is atomic, and rows of one table are read in any order where the code does not order them.
- Request retries inside one GitHub call: any number of lost answers of a ref update is covered by the runs; other requests are simply allowed to fail.
- Go integers: sizes, counts and times are unbounded, except where a text is converted to a number, which saturates as the library does.
- Unicode: letters outside ASCII are not folded to lower case, and lengths count characters where the code counts bytes.
- A source file that changes size while it is being pushed to GitHub, and the temporary files of pull and restore.
- GithubTarget.Github.ShardPull: when others write, a failed read says nothing about what is stored, since a request may fail for any reason.
- AgentHub.RunKeepsInv: route's lookup and its send are one step, as the closing invariant needs; what happens when they are not is stated in HubLaws.SplitRouteCanHitClosedChannel and HubLaws.ClosedSinceIff.
- Connection callbacks of the hub, which run outside its lock in no fixed order, and the websocket pumps.
- ReportDebounce.Reports.FlushBackupReports: the order in which two snapshots are delivered once the lock is released is not modelled.
- Retention.BackupStore.ApplyRetention: one node's rows; deletion on the storage targets runs beside it and is not modelled.
- Restore.RestoreRebuildsSources: needs excludes other than the root and volumes that agree where they overlap. File modes, and writing through a link that is already on the disk, are not modelled.
- Restore.MkdirAll: a symbolic link on the disk counts as no directory, also one that leads to a directory, where the code follows it.
- Restore.LinkSourceIsLost: likewise, a parent that is a link to a directory counts as missing.
- Archive.ArchiveVolumes: the descriptor in front of the volumes, writer errors other than an unfinished entry, and directory backups without a container are left out.
- Upload: the single-request mode of old agents, the direct S3 upload, and two uploads of one backup at the same time.
- Recreate: which ports are picked, what the networks look like, and pulling the image are arbitrary; a host configuration that does not parse is passed on unchanged, and what Docker makes of it is open.
- Semver: the pre-release pattern is an arbitrary test on the trimmed tag; the version pattern is written out as a recogniser.
- ImageRef.RetagIff: assumes a tag without slash, colon, digest mark and white space, and parts without digest mark and white space.
- ScanGroups.PoolIsAlone: assumes lower-case references without a digest and a registry that answers by registry, repository and tag during one scan; reference warnings appended to the notes afterwards are left out.
- HealthAlerts.FiredIff: assumes positive times that never go back; numbers are real, so rounding and NaN are left out.
- HealthAlerts.NotifiesIff: a poll reads its rules and judges them in one step; a rule saved in between is judged once more by its old settings.
- Reconcile.ReconcileNames: the removed names are in no particular order, the code sorts them.
- Removed keys are compared as pairs where the code joins node and name with a zero byte.
- BackupReport: layout of the table and the limit of five shown reasons.
- Message wording, browser broadcasts, HTTP handlers, mesh and firewall code, other storage targets and the user interface: no hard property.
