# Verified models of the MeshCore bridge

The bridge joins a LoRa radio to MQTT and a web interface. This project models the parts of it
that keep state under difficulties (crashes, threads, late data, unreliable peers, bounded memory)
and proves what they keep. Check everything with `dafny verify dfyconfig.toml` (Dafny 4.11).

| file | what it models |
|---|---|
| `StagedUpdate.dfy` | the write-ahead journal of the staged update, cut at any step and recovered |
| `Metrics.dfy` | minute buckets with gap filling, clamping and late insertion, against a log of events |
| `Admission.dfy` | admission of MQTT messages by several threads, with `close` and `start` racing |
| `NodeRegistry.dfy` | the contact directory: prefix merging and the one local entry |
| `SaveProtocol.dfy` | saving that directory while others change it |
| `MeshRouting.dfy` | breadth-first routing over symmetric links |
| `Framing.dfy` | the incremental decoder of length-prefixed frames |
| `LayerContracts.dfy` | the worklist search behind the import contracts |
| `Deduplicator.dfy` | the sliding-window packet filter |
| `StoreForward.dfy` | the store-and-forward ring of the external MQTT client |
| `BackgroundPool.dfy` | the auxiliary worker pool and its cross-thread counter |
| `ResponseWaiters.dfy` | which waiting command or ping a radio response resolves |
| `PacketCapture.dfy` | the capture ring, its pages and its PCAP export |
| `LinkQuality.dfy` | the link quality index: instant score, smoothing, decay |
| `Common.dfy` | optional values, bytes, bounded deques |

Each component that the program changes in place is a class whose methods follow the program's
loops and branches. Its methods are proved to compute a specification function on values; the
theorems are about that function, over every input, every run or every interleaving. What an operation
leaves is also said without it, in terms of files, contacts, messages, bytes and minutes. Where several
threads share state, one step of the machine is one lock section, and the class has one method for
each section. What comes from outside (crash points, broker answers, disk failures, iteration order
of sets, clock readings, task identities) is a parameter or a free choice, so that the theorems hold
for all of it.

## What the proofs found

- The staged update recovers from every cut: the branch of `rollback` that deletes a file in the
  release folder is never taken (`StagedUpdate.UninstallKeeps`).
- The clamp on future time stamps needs a bucket to compare with, so the first report after a start or
  reset is filed under its own date. The deque stays with the clock if and only if that report was not
  ahead of it (`Metrics.EndStaysWithClock`). If it was ahead by the capacity of the deque or more,
  everything reported afterwards is missing from every series until the clock catches up
  (`Metrics.SeriesAfterFirstAhead`, `Metrics.TwoDaysAhead`); if it was ahead by less, nothing that is dated
  with the clock is lost (`Metrics.TimelyReportsAreCounted`).
- A running MQTT task still holds its admission token, so the gate counts it twice. The whole limit can
  be in use, by messages that arrive from another thread before the loop gets to them
  (`Admission.WholeLimitIsReachable`), but a message that arrives while tasks run is refused
  although there is room for it exactly when the double count alone fills the limit
  (`Admission.RefusalsAreDoubleCounts`, `Admission.OneTaskFillsALimitOfTwo`).
- Updating the directory by a prefix that is too short to count as the station's own key, but that
  only the station's key continues, takes the LOCAL mark off the station
  (`NodeRegistry.MarkLostOnlyByDemotion`). The client list is spoilt exactly by those that turn the
  station into a CLIENT (`NodeRegistry.ListSpoiltOnlyByListing`, over runs `NodeRegistry.ExactUnlessListed`);
  `NodeRegistry.DemotionHappens` gives a run of three calls.
- Of all operations on the directory, clearing a local key that was set is the only one that changes
  the persisted document without marking it (`SaveProtocol.OnlyClearingIsLost`).
- A payload of 65536 bytes or more is framed with a wrapped length and not read back
  (`Framing.FrameRoundTrip`, an equivalence).
- A response that answers a ping looks for commands under the first key that matches only, and leaves a
  command that it fits behind exactly when that key holds none (`ResponseWaiters.LeftBehindWhen`,
  `ResponseWaiters.PingHidesCommandWaiter`).
- A day of minutes does not fit a deque of a day that runs a minute ahead of the clock
  (`Metrics.DayFitsOnTime`, `Metrics.FirstMinuteOfDayIsStale`).
- Smoothing alone can bring a positive link score to zero if and only if its factor is a half or more
  (`LinkQuality.PositiveStaysPositive`). With the default factor of 0.3, the only one that the contact
  directory uses, a positive score that is fed zeros only never falls below 0.01 %.

## Model

| member | source | states |
|---|---|---|
| StagedUpdate.RollbackUndoesAnyRun | scripts/staged_update.py:103-153 | after any sequence of apply and rollback calls, each cut anywhere, one rollback that runs to its end gives back the original target, the whole release, an empty backup and an empty journal; one step per journal entry and one more suffice |
| StagedUpdate.RunsStayRecoverable | scripts/staged_update.py:103-153 | every reachable disk, from a prepared stage through any cut calls, satisfies the recovery invariant |
| StagedUpdate.RecoverableMeans | scripts/staged_update.py:103-153 | the invariant in terms of files: old content in exactly one of target and backup, new content in exactly one of release and target, no rename ahead of its journal entry, nothing outside the components touched, nothing ever overwritten or deleted |
| StagedUpdate.CompletedApply | scripts/staged_update.py:103-127 | a completed apply leaves in the target the release's components over the old files, in the backup exactly the replaced ones, and nothing else changed; four steps per component suffice |
| StagedUpdate.ApplyKeeps | scripts/staged_update.py:112-124 | apply is recoverable at every cut |
| StagedUpdate.ApplyEnds | scripts/staged_update.py:113-124 | four steps per component always finish apply |
| StagedUpdate.UninstallKeeps | scripts/staged_update.py:134-147 | the first loop of rollback keeps the invariant at every cut, never meets a file to delete, and leaves no component installed |
| StagedUpdate.RestoreKeeps | scripts/staged_update.py:148-151 | the second loop keeps the invariant at every cut and brings every moved component home |
| StagedUpdate.RollbackRestores | scripts/staged_update.py:130-153 | from any recoverable disk, rollback is recoverable at every cut and restores the original disk if it ends |
| StagedUpdate.EmptyJournalIsClean | scripts/staged_update.py:108-109 | apply's guard is right: an empty journal on a recoverable disk means that nothing has been switched |
| StagedUpdate.CallKeeps | scripts/staged_update.py:103-153 | each call, also an apply that fails and recovers by itself, keeps the invariant; apply on a used stage changes nothing |
| StagedUpdate.FailedApplyIsUndone | scripts/staged_update.py:125-127 | an apply that raises at any step, with more recovery steps than twice the components, leaves the disk as it found it: on a clean stage the old installation and the whole release |
| StagedUpdate.FailedApplyIsUndoneInRuns | scripts/staged_update.py:103-153 | the same after any sequence of calls, each cut anywhere |
| StagedUpdate.FinishedApply | scripts/staged_update.py:103-127 | an apply that ends ran on a clean stage; target, release and backup afterwards, file by file |
| StagedUpdate.ApplyLogs | scripts/staged_update.py:112-124 | each component is journalled at most once in either list, so that twice the components bound the recovery |
| StagedUpdate.ComponentsAreDistinct | scripts/staged_update.py:20-25 | the component list has no duplicates, the one condition of the theorems |
| StagedUpdate.Stage.constructor | scripts/staged_update.py:37-61 | prepare leaves the installation alone, stages every component of the source but the virtual environment, and writes an empty journal |
| StagedUpdate.Stage.SwitchComponent | scripts/staged_update.py:113-124 | one turn of apply's loop, cut anywhere: journal before each rename |
| StagedUpdate.Stage.UninstallComponent | scripts/staged_update.py:141-147 | one turn of rollback's first loop, cut anywhere |
| StagedUpdate.Stage.Switch | scripts/staged_update.py:112-124 | the loop of apply leaves the disk that the specification says, at every cut |
| StagedUpdate.Stage.Apply | scripts/staged_update.py:103-127 | apply with its guard and its own recovery: on a recoverable stage it stays recoverable at every cut; when it ends the release is installed and the replaced files are in the backup; when it raises and its recovery is not cut, folders and journal are as before; on a used stage nothing changes |
| StagedUpdate.Stage.Uninstall | scripts/staged_update.py:134-147 | the first loop of rollback with its skip and its deleting branch |
| StagedUpdate.Stage.RestoreAll | scripts/staged_update.py:148-151 | the second loop of rollback |
| StagedUpdate.Stage.Rollback | scripts/staged_update.py:130-153 | rollback re-reads the journal, undoes, restores, and clears the journal last: recoverable at every cut, the original target, the whole release and an empty backup and journal when it ends, and it ends after one step per journal entry and one more |
| Metrics.MetricsAggregator.RecordPacket | src/metrics_aggregator.py:129-194 | recording extends the log by one event under its effective minute, deque, totals and error totals agree with the log afterwards, the minute has a bucket unless it is too old, and the end of the deque moves as the report says |
| Metrics.MetricsAggregator.RecordError | src/metrics_aggregator.py:196-219 | the same for an error without a packet |
| Metrics.MetricsAggregator.GetOrCreateBucket | src/metrics_aggregator.py:88-127 | the deque stays sorted, bounded and faithful; the bucket handed out is the minute's own and still in the deque; none is handed out exactly for a minute older than the window that has none |
| Metrics.MetricsAggregator.Advance | src/metrics_aggregator.py:105-113 | moving on appends blank buckets, leaves no minute of the window without one, and keeps what the window holds |
| Metrics.MetricsAggregator.InsertLate | src/metrics_aggregator.py:122-127 | sort-and-truncate keeps the late bucket and the order |
| Metrics.MetricsAggregator.Find | src/metrics_aggregator.py:116-118 | the search finds the minute's bucket exactly when there is one |
| Metrics.MetricsAggregator.Reset | src/metrics_aggregator.py:345-361 | reset empties deque, totals and log |
| Metrics.CountPacket | src/metrics_aggregator.py:155-186 | the branches of record_packet add the packet to the right counters, session and bucket alike |
| Metrics.MinuteBucket.Add | src/metrics_aggregator.py:158-186 | a bucket's own counters after a packet, an error or both |
| Metrics.TrafficIsLogSum | src/metrics_aggregator.py:20-37 | each traffic counter is the sum of its column over the log's events of the minute, or of the session |
| Metrics.FaultsAreLogSums | src/metrics_aggregator.py:203-219 | each fault counter of a bucket is the count of its category in the log |
| Metrics.SessionErrorsAreLogSums | src/metrics_aggregator.py:219 | each session error total is the count of its category in the whole log |
| Metrics.RoutesBalance | src/metrics_aggregator.py:155-182 | over any window rx and tx equal flood plus direct |
| Metrics.KindsBalance | src/metrics_aggregator.py:184-186 | over any window the type counts sum to rx plus tx |
| Metrics.Spread | src/metrics_aggregator.py:105-127 | the pigeonhole: distinct sorted minutes are at least as far apart as their places |
| Metrics.RecentIsKept | src/metrics_aggregator.py:123-126 | a deque of n buckets never drops one of the last n minutes |
| Metrics.GrowingStaysCovered | src/metrics_aggregator.py:105-127 | however the deque grows, no logged event of the window loses its bucket |
| Metrics.AdvanceKeeps | src/metrics_aggregator.py:105-113 | gap filling keeps order, capacity, agreement with the log and coverage |
| Metrics.FillingLeavesNoGap | src/metrics_aggregator.py:105-112 | after moving on, every minute of the window between the old end and the new one has a bucket |
| Metrics.LateShape | src/metrics_aggregator.py:120-127 | a late bucket within the window is never the one that is cut off |
| Metrics.LateFaithful | src/metrics_aggregator.py:120-127 | a late bucket may start blank: nothing was logged for its minute |
| Metrics.CountingKeeps | src/metrics_aggregator.py:152-194 | counting one event touches one minute only, and keeps the rest in agreement with the log |
| Metrics.FiledUnder | src/metrics_aggregator.py:88-104 | a report is filed under the minute that holds its date, except that one which meets a deque with another last minute and is dated two minutes or more after the start of the current minute is filed under the current minute |
| Metrics.EndStaysWithClock | src/metrics_aggregator.py:88-112 | since a reset, with a clock that does not go back, the last minute of the deque always stays within a minute of the clock if and only if the first report was not further ahead |
| Metrics.TimelyReportsAreCounted | src/metrics_aggregator.py:88-127 | with a window of two minutes or more and a clock that does not go back, every report dated with the clock falls in the window if and only if the first report was ahead by less than the window |
| Metrics.InWindowHasMinute | src/metrics_aggregator.py:114-127 | a report that falls in the window has a bucket |
| Metrics.RecordRun | src/metrics_aggregator.py:88-194 | the deque ends where the run of its reports says |
| Metrics.HandedOutFloored | src/metrics_aggregator.py:105-127 | a report never makes the deque reach further back than the window it had |
| Metrics.StaleAfterFirst | src/metrics_aggregator.py:119-121 | right after a first report, an on-time one goes uncounted exactly when it lies a whole window before it |
| Metrics.TwoDaysAhead | src/metrics_aggregator.py:92-121 | with 1440 minutes, a first report two days ahead leaves the next report on time without a bucket |
| Metrics.SeriesAfterFirstAhead | src/metrics_aggregator.py:88-287 | after a first report ahead by the window or more, every series until then is empty whatever is reported, while the session counts all |
| Metrics.EventRowsAreLogSums | src/metrics_aggregator.py:241-247 | the five columns of a series, summed over the log |
| Metrics.SeriesConserves | src/metrics_aggregator.py:221-287 | points that tile an interval sum to exactly what the interval holds |
| Metrics.TilesArePoints | src/metrics_aggregator.py:229-256 | the three ranges point by point: 60 points of one minute, 72 of five, 96 of fifteen, with the minute each of them starts at |
| Metrics.PointIsLogged | src/metrics_aggregator.py:249-285 | a point within the window counts exactly the events of its step |
| Metrics.SeriesIsLogged | src/metrics_aggregator.py:221-287 | a whole series that starts within the window sums to what the log says of its interval |
| Metrics.DayFitsOnTime | src/metrics_aggregator.py:242-243 | with 1440 minutes the day starts within the window exactly when the deque does not run ahead of the clock; the shorter ranges always do |
| Metrics.FirstMinuteOfDayIsStale | src/metrics_aggregator.py:119-121 | one minute ahead, a late report for the first minute of the day has no bucket unless there is one already |
| Metrics.MinuteIsLogged | src/metrics_aggregator.py:88-127 | a minute of the window holds in the deque what the log says; one without bucket has no event |
| Metrics.MetricsAggregator.GetTimeSeries | src/metrics_aggregator.py:221-287 | 60 points of one minute, 72 of five or 96 of fifteen, ending with the current minute, each point with its starting minute; they tile the range, each column conserved, only the last point partial; the sums are those of the log when the range lies within the window |
| Metrics.Series | src/metrics_aggregator.py:249-285 | the loop over the points |
| Metrics.SumSlot | src/metrics_aggregator.py:259-275 | the loop over the minutes of a point |
| Admission.RunsKeepInv | src/mqtt_dispatcher.py:50-143 | every interleaving of calls, callbacks, completions, close and start keeps the invariant: the limit, an owner for each token, handles only for admitted tokens without a task |
| Admission.StepKeepsInv | src/mqtt_dispatcher.py:50-143 | each lock section keeps it |
| Admission.InitialInv | src/mqtt_dispatcher.py:40-48 | a new dispatcher satisfies it |
| Admission.CloseIsFinal | src/mqtt_dispatcher.py:54-68 | a message admitted before a close yields no task after it, whatever follows, start included |
| Admission.CloseWithdrawsCallbacks | src/mqtt_dispatcher.py:54-140 | in every reachable state: a callback still to come whose call has returned has its handle kept or is being cancelled, a close hands all of these out, and once it has cancelled them and the calls under way have returned, a closed dispatcher has no callback left on the loop |
| Admission.WithdrawableStep | src/mqtt_dispatcher.py:50-143 | each lock section keeps every pending callback within reach of a close |
| Admission.ReleasedForGood | src/mqtt_dispatcher.py:70-75 | a token that lost its place never gets one, or a task, again |
| Admission.QuiescentIsEmpty | src/mqtt_dispatcher.py:70-143 | no place is lost: when all calls, callbacks and tasks are over, no token, handle or task is left |
| Admission.TasksCountTwice | src/mqtt_dispatcher.py:89-94 | in every run without close each task holds its token: with n tasks and m waiting messages a call is admitted exactly when 2n + m is under the limit |
| Admission.RefusalsAreDoubleCounts | src/mqtt_dispatcher.py:89-94 | in every reachable state a call is refused although there is room exactly when the gate is open and the tasks that still hold tokens, counted twice, fill the limit |
| Admission.OneTaskFillsALimitOfTwo | src/mqtt_dispatcher.py:89-94 | a run of three steps in which a call is wrongly refused |
| Admission.WholeLimitIsReachable | src/mqtt_dispatcher.py:87-140 | messages that arrive one after the other from another thread before the loop runs their callbacks are all admitted and all become tasks, up to the whole limit |
| Admission.Dispatcher.constructor | src/mqtt_dispatcher.py:40-48 | starts open and empty |
| Admission.Dispatcher.StartSection | src/mqtt_dispatcher.py:50-52 | reopens and changes nothing else |
| Admission.Dispatcher.CloseSection | src/mqtt_dispatcher.py:54-61 | closes, drops all tokens and handles, leaves the tasks, and hands out exactly the handles that were kept and the tasks that run |
| Admission.Dispatcher.ReleaseAdmission | src/mqtt_dispatcher.py:70-75 | drops the token, its handle and its task |
| Admission.Dispatcher.AdmitSection | src/mqtt_dispatcher.py:87-94 | admits exactly when open and under the limit |
| Admission.Dispatcher.ScheduleSection | src/mqtt_dispatcher.py:96-110 | creates the task exactly when open, still admitted and the loop accepts it; the handle is forgotten, and without a task the place is free again |
| Admission.Dispatcher.KeepSection | src/mqtt_dispatcher.py:136-140 | cancels when closed or no longer admitted; otherwise keeps the handle unless the task exists already |
| NodeRegistry.RunsKeepInv | src/contact_manager.py:861-1496 | from the empty directory, any sequence of set-local, add, discover, record, accept, remove, cleanup and reset keeps each node under its own key and at most one entry local by flag, key or role |
| NodeRegistry.ApplyKeeps | src/contact_manager.py:861-1496 | each operation keeps it |
| NodeRegistry.AddOtherKeeps | src/contact_manager.py:988-997 | prefix merging, in both directions, keeps it |
| NodeRegistry.WithLocalKeeps | src/contact_manager.py:861-899 | consolidating under a new local key keeps it, whichever entry is primary |
| NodeRegistry.AddedTouchesOne | src/contact_manager.py:988-997 | merging keeps the longer of two keys that continue each other, drops the shorter, and touches no other entry |
| NodeRegistry.LocalUpdateTouchesLocals | src/contact_manager.py:974-987 | a local update leaves exactly one local entry, and touches no other |
| NodeRegistry.LastSeenNeverGoesBack | src/contact_manager.py:1074-1088 | a known time of last sighting never goes back while the clock does not |
| NodeRegistry.BuildCarries | src/contact_manager.py:1062-1218 | what an update leaves, for flagged and unflagged ones: a name that is given replaces the known one, which stays otherwise, and a new entry is named after its first six digits; role, local flag and sighting time in the same way |
| NodeRegistry.AddedIsUpdated | src/contact_manager.py:963-1218 | which entry an update continues and under which key it leaves it |
| NodeRegistry.OtherDiscovered | src/contact_manager.py:1250-1320 | name, role, flag and sighting time of a node other than the station after a discovery, imported or heard |
| NodeRegistry.StationDiscovered | src/contact_manager.py:1225-1239 | the whole entry of the station after it is discovered |
| NodeRegistry.RecordedFields | src/contact_manager.py:1353-1417 | a received packet of another node is a sighting now and a sent one is none; neither changes its name or its role |
| NodeRegistry.RecordedStation | src/contact_manager.py:1353-1417 | what the station receives under its own key changes nothing; what it sends is a sighting of its entry |
| NodeRegistry.AcceptedMeans | src/contact_manager.py:1331-1345 | accepting an entry of another node leaves name and sighting time, and makes it a client where no role was known |
| NodeRegistry.WithLocalMeans | src/contact_manager.py:861-899 | under a new local key the entries that are local by flag, role or key give way to one entry under that key with the name and sighting time of one of them, and all others stay |
| NodeRegistry.ExistingMeans | src/contact_manager.py:922-941 | a known key finds itself; a valid unknown one finds the only entry whose key continues it or is continued by it; others find none |
| NodeRegistry.LocalKeyMeans | src/contact_manager.py:910-920 | two reserved keys, the local key, and keys that share at least six digits with it from the start stand for the station |
| NodeRegistry.ValidKeyMeans | src/contact_manager.py:817-830 | valid keys are the reserved word of the station and four hexadecimal digits or more, but for three fillers |
| NodeRegistry.HeardNodeSurvives | src/contact_manager.py:1353-1695 | through any run of later operations, clean-ups within its idle time among them, that neither remove the node nor take it for the station, a node whose packet was received stays known under its key or a longer one |
| NodeRegistry.ListIsExactWhen | src/contact_manager.py:1566-1573 | the client list is exactly the other CLIENT entries if and only if no entry under a key of the station is an unflagged CLIENT |
| NodeRegistry.ListSpoiltOnlyByListing | src/contact_manager.py:1173-1218 | an update spoils an exact list if and only if it turns the station's entry into a CLIENT |
| NodeRegistry.MarkedListSpoiltByDemotion | src/contact_manager.py:1034-1050 | while the station is marked, these are the demoting updates to the role CLIENT |
| NodeRegistry.ExactUnlessListed | src/contact_manager.py:861-1573 | over every run with visible names and valid keys, the list is exact all along if and only if no update lists the station |
| NodeRegistry.ResolvedKeyIsHarmless | src/contact_manager.py:1282-1300 | operations that resolve the key first never demote or list the station |
| NodeRegistry.UnmarkedChangesNothing | src/contact_manager.py:856-1702 | operations that do not mark change nothing, but for clearing the local key and for clean-ups, which mark later; resetting the counters marks |
| NodeRegistry.MarkLostOnlyByDemotion | src/contact_manager.py:1034-1050 | an update takes the LOCAL mark off the station if and only if its key is a valid one too short to count as local, names a role, and is continued by the station's key alone |
| NodeRegistry.DemotedStationIsListed | src/contact_manager.py:1566-1573 | a station demoted to the role CLIENT is listed among its own clients |
| NodeRegistry.DemotionHappens | src/contact_manager.py:1173-1218 | a run of three calls after which the list is wrong |
| NodeRegistry.Directory.MarkDirty | src/contact_manager.py:856-859 | one generation more, and dirty |
| NodeRegistry.Directory.FindExistingKey | src/contact_manager.py:922-941 | the key itself, or the only one that shares a prefix with it |
| NodeRegistry.Directory.AddOrUpdate | src/contact_manager.py:1173-1218 | the whole new directory and the returned contact: its key, name, role, flag and sighting time, also for a known node that is renamed; invalid keys change nothing; marked exactly when the key is valid |
| NodeRegistry.Directory.SetLocalPubkey | src/contact_manager.py:861-899 | the consolidated directory, entry by entry; marked exactly when the key is not empty, and an empty one changes no entry |
| NodeRegistry.Directory.DiscoverNode | src/contact_manager.py:1225-1320 | discovery of the station, of a known and of an unknown node; marked exactly when a contact is updated |
| NodeRegistry.Directory.RecordPacket | src/contact_manager.py:1353-1417 | a packet updates the node its key resolves to, never counts the station's own reception, and is marked exactly when a contact is updated |
| NodeRegistry.Directory.AcceptDiscoveredContact | src/contact_manager.py:1331-1345 | accepts exactly the keys that resolve; marked exactly when a contact is updated |
| NodeRegistry.Directory.RemoveNode | src/contact_manager.py:1485-1496 | removes the entry that the key finds and no other, and marks, or changes nothing |
| NodeRegistry.Directory.RemoveInactive | src/contact_manager.py:1683-1695 | an entry stays if and only if it was never sighted, is not idle for longer than allowed, or is local by flag, key or role; none is changed |
| NodeRegistry.Directory.ListClientContacts | src/contact_manager.py:1566-1573 | the list, and exactly when it is the other clients |
| NodeRegistry.Directory.Perform | src/contact_manager.py:861-1702 | any operation, with its whole effect and its marking |
| SaveProtocol.NoUpdateIsLost | src/contact_manager.py:1704-1747 | with mutators between snapshot, write and clear, a clean directory all of whose changes were marked equals the document last written, which then holds the local key and exactly the nodes with a valid key and a known name, each with its own value; an older document never replaces a newer one |
| SaveProtocol.InitialLosesNothing | src/contact_manager.py:851-852 | a directory just created or loaded starts in step with the store |
| SaveProtocol.StepLosesNothing | src/contact_manager.py:1711-1747 | each step keeps that |
| SaveProtocol.OnlyClearingIsLost | src/contact_manager.py:861-868 | over all operations: a clean, saved directory ends dirty or still in step with the store unless a local key that was set is cleared |
| SaveProtocol.OperationsAreSteps | src/contact_manager.py:861-1702 | every operation of the directory is a run of the machine's steps, with the same registry and marking |
| SaveProtocol.Saver.Perform | src/contact_manager.py:861-1747 | an operation between the sections of a save is that run, and loses nothing |
| SaveProtocol.UndisturbedSave | src/contact_manager.py:1711-1747 | a failed write leaves the whole state alone; a save nothing interleaves with brings the store up to date |
| SaveProtocol.LateMutationStaysDirty | src/contact_manager.py:1740-1742 | a mutation after the snapshot keeps the directory dirty |
| SaveProtocol.Saver.SnapshotSection | src/contact_manager.py:1711-1727 | takes a snapshot, unless clean and not forced |
| SaveProtocol.Saver.Write | src/contact_manager.py:1729-1747 | writes the snapshot, or fails and ends the save |
| SaveProtocol.Saver.ClearSection | src/contact_manager.py:1740-1742 | clears the flag only for an unchanged generation |
| SaveProtocol.Saver.SaveToFile | src/contact_manager.py:1704-1747 | a whole save: after success the directory is clean and the store holds the local key and exactly the nodes with a valid key and a known name, each with its own value; after a failure nothing has changed |
| MeshRouting.MeshNetwork.FindRoute | scripts/simulate_tcp_mesh_network.py:137-153 | a simple path over links with the fewest hops, the node itself for equal ends, empty exactly when no path exists; the search ends |
| MeshRouting.MeshNetwork.AddNode | scripts/simulate_tcp_mesh_network.py:122-125 | adds the node and no link |
| MeshRouting.MeshNetwork.AddBidirectionalLink | scripts/simulate_tcp_mesh_network.py:127-135 | adds the pair in both directions if both ends are known, and nothing else; links stay symmetric |
| MeshRouting.Expand | scripts/simulate_tcp_mesh_network.py:147-152 | going through the neighbours, in any order, keeps the search invariant |
| MeshRouting.ExtensionIsGood | scripts/simulate_tcp_mesh_network.py:148-152 | a neighbour seen for the first time is reached by a shortest simple path |
| MeshRouting.NextLayer | scripts/simulate_tcp_mesh_network.py:145-152 | the queue holds at most two layers and moves on only after a whole one |
| MeshRouting.ExhaustedMeansNoRoute | scripts/simulate_tcp_mesh_network.py:145-153 | an empty queue means that no path exists |
| Framing.RxLoop | scripts/simulate_tcp_mesh_network.py:482-505 | however the stream is split into reads, the payloads are those of one parse of all that was read |
| Framing.Drain | scripts/simulate_tcp_mesh_network.py:490-505 | the inner loop takes out exactly the complete frames |
| Framing.Find | scripts/simulate_tcp_mesh_network.py:491-497 | the first start byte |
| Framing.ParseAppend | scripts/simulate_tcp_mesh_network.py:482-505 | parsing a stream in two reads is parsing it at once |
| Framing.FrameRoundTrip | scripts/simulate_tcp_mesh_network.py:463-471 | a framed payload is read back if and only if it is shorter than 65536 bytes |
| Framing.FrameBytes | scripts/simulate_tcp_mesh_network.py:463-471 | the wire format: start byte, length with the low byte first, payload |
| Framing.StreamRoundTrip | scripts/simulate_tcp_mesh_network.py:463-505 | any list of such payloads is recovered, with noise free of start bytes around the frames |
| LayerContracts.Search | scripts/check_layer_contracts.py:55-69 | each forbidden import the source can get to is reported exactly once, by a real chain; no report exactly when no import chain leads from the source's subtree to a forbidden one; ends on cyclic graphs |
| LayerContracts.InSubtreeMeans | scripts/check_layer_contracts.py:53-66 | a module is in a subtree if it is its root or the root, a dot and more |
| LayerContracts.Expand | scripts/check_layer_contracts.py:63-69 | going through the imports of a module, in any order, keeps the search invariant |
| LayerContracts.FirstForbidden | scripts/check_layer_contracts.py:63-69 | on every forbidden chain a first forbidden import is met by the search |
| LayerContracts.NoReportsMeansKept | scripts/check_layer_contracts.py:49-69 | reporting every forbidden import that is met is enough to decide the contract |
| LayerContracts.CheckSource | scripts/check_layer_contracts.py:49-69 | the error lines of one source |
| LayerContracts.CheckContract | scripts/check_layer_contracts.py:48-69 | every line is a missing source or a real forbidden chain, none that is due is missing, and there is none exactly when the contract holds |
| LayerContracts.CheckContracts | scripts/check_layer_contracts.py:40-73 | the list holds every error that a contract has to answer for and no other, and the exit status is nonzero exactly when some contract does not hold |
| Deduplicator.NextAnswer | src/deduplicator.py:39-56 | with a running clock and one window, after any run, the answer is "duplicate" exactly when the latest accepted sighting is younger than the window and fewer than the capacity were accepted after it |
| Deduplicator.CheckMeansSeenRecently | src/deduplicator.py:39-56 | one call, and the cache goes on mirroring the end of the log |
| Deduplicator.RunMirrorsLog | src/deduplicator.py:39-67 | the cache is always the unexpired end of the log of accepted sightings |
| Deduplicator.CheckKeeps | src/deduplicator.py:39-56 | with a window per call, the cache stays within capacity, without repeated keys, ordered by last sighting |
| Deduplicator.CheckMeans | src/deduplicator.py:39-56 | with a window per call: duplicate exactly when the cache has an entry for the key that has not expired and is younger than the window; otherwise the sighting becomes the last entry |
| Deduplicator.PacketDeduplicator.CheckAndInsert | src/deduplicator.py:39-56 | the answer and the new cache, in terms of the old entries: duplicate exactly for an unexpired entry younger than the window, and a sighting that is none becomes the last entry |
| Deduplicator.PacketDeduplicator.Prune | src/deduplicator.py:63-67 | drops exactly the expired entries |
| StoreForward.RunsKeepOrder | src/external_mqtt_client.py:443-490 | over every run, published followed by waiting is an unaltered part of what was submitted, in order and without repetition, and each message is in exactly one of published, waiting and dropped; all four counters add up |
| StoreForward.OnlyTheOldestIsDropped | src/external_mqtt_client.py:456-459 | only the oldest waiting message is dropped, and only for want of room |
| StoreForward.DrainOnlyPublishes | src/external_mqtt_client.py:463-490 | draining moves messages from the front of the ring to the published ones, in order, and loses none |
| StoreForward.DrainGoesOn | src/external_mqtt_client.py:472-487 | a drain publishes exactly the longest run of waiting messages that the broker accepts, so that the ring is empty when it accepts them all; the connection is given up exactly when it is found lost while messages wait |
| StoreForward.StepKeeps | src/external_mqtt_client.py:443-564 | each step keeps the invariant |
| StoreForward.ExternalClient.SendOrBuffer | src/external_mqtt_client.py:443-461 | publishes at once exactly when connected with nothing waiting and the broker accepts; otherwise the message waits behind the others, and only the oldest of a full ring makes room |
| StoreForward.ExternalClient.DrainRingBuffer | src/external_mqtt_client.py:463-490 | the draining loop: what is published, what still waits, the counter, and when the connection counts as lost; nothing without a connection |
| BackgroundPool.NoLostWakeUp | src/bridge_core.py:864-957 | in every run: queue within capacity, at most five live workers, a live worker whenever a job waits, and the cross-thread counter equal to the launches pending, between 0 and 256 |
| BackgroundPool.StepKeepsInv | src/bridge_core.py:864-957 | each step keeps that |
| BackgroundPool.EnsureWakes | src/bridge_core.py:906-925 | after ensuring, a waiting job has a live worker, whatever was there before |
| BackgroundPool.EnqueueKeepsNewest | src/bridge_core.py:869-876 | the queue keeps the newest 256 jobs in order |
| BackgroundPool.OneWorkerDrains | src/bridge_core.py:934-957 | one live worker can empty the queue and end |
| BackgroundPool.Bridge.EnsureBgWorker | src/bridge_core.py:906-925 | creates a worker exactly when jobs wait and fewer than five are alive |
| BackgroundPool.Bridge.EnqueueAndEnsure | src/bridge_core.py:864-878 | appends the job, dropping the oldest of a full queue |
| BackgroundPool.Bridge.BgWorkerDone | src/bridge_core.py:927-932 | forgets the worker and ensures another |
| BackgroundPool.Bridge.RequestLaunchSection | src/bridge_core.py:883-888 | counts a foreign request exactly while fewer than 256 are pending |
| BackgroundPool.Bridge.ThreadsafeLaunch | src/bridge_core.py:890-897 | enqueues and releases the count |
| BackgroundPool.Bridge.DrainTurn | src/bridge_core.py:934-940 | the next job in order, or the end of the worker |
| ResponseWaiters.NotificationKeeps | src/admin_handler.py:208-318 | a response resolves at most one ping and one command waiter; a resolved command has the response's tag if it has one and, between full keys, the sender's; every command still pending stays registered, in order |
| ResponseWaiters.ScanFindsExactly | src/admin_handler.py:276-317 | a command is resolved exactly when some matching key holds a pending waiter that fits, the first matching key if a ping was resolved before |
| ResponseWaiters.PingScanFindsExactly | src/admin_handler.py:219-249 | a ping is resolved exactly when some matching key holds a pending one for the sender |
| ResponseWaiters.LeftBehindWhen | src/admin_handler.py:208-318 | a fitting command is left behind exactly when the response answers a ping and the first command key that it matches holds none that it fits |
| ResponseWaiters.ScanSlotsKeeps | src/admin_handler.py:276-317 | the scan drops no pending waiter and changes no order |
| ResponseWaiters.HitFits | src/admin_handler.py:298-313 | what is resolved was pending and fits |
| ResponseWaiters.HitIsFirst | src/admin_handler.py:276-317 | the command that is resolved is the first pending one that fits, under the first matching key that has one |
| ResponseWaiters.ListGivesUpFirst | src/admin_handler.py:298-313 | it leaves its list, and with it the finished ones before it that fit; all others stay in order |
| ResponseWaiters.PingListHitIsFirst | src/admin_handler.py:235-244 | a list of pings gives up the first pending one for the sender and whatever stood before it; without one it is emptied |
| ResponseWaiters.KeyMatchMeans | src/admin_handler.py:222-295 | the keys that a response concerns: its tag, its sender, a key of the same station, and, unless both stations are known by full keys, one that shares eight digits from the start |
| ResponseWaiters.FitsMeans | src/admin_handler.py:239-306 | a response may resolve untagged futures and those with its tag, unless both full keys are known and differ |
| ResponseWaiters.PingHitFits | src/admin_handler.py:235-244 | the same for pings, by target only |
| ResponseWaiters.PingHidesCommandWaiter | src/admin_handler.py:208-318 | two registries and a response that resolves a ping and leaves behind a command that it would have resolved otherwise |
| ResponseWaiters.PopPings | src/admin_handler.py:236-244 | the loop over one list of pings |
| ResponseWaiters.TakeCommand | src/admin_handler.py:299-313 | the loop over one list of commands |
| ResponseWaiters.PingLoop | src/admin_handler.py:218-249 | the loop over the ping keys |
| ResponseWaiters.CommandLoop | src/admin_handler.py:276-317 | the loop over the command keys |
| ResponseWaiters.AdminHandler.NotifyPingResponse | src/admin_handler.py:208-249 | what a response does to the ping registry and its futures |
| ResponseWaiters.AdminHandler.NotifyCommandResponse | src/admin_handler.py:251-318 | what a response does to both registries and their futures |
| PacketCapture.PcapRoundTrip | src/packet_buffer.py:283-324 | a reader of the PCAP format gets back, in order, each packet's seconds, microseconds, truncated bytes and original length; an export exists exactly when every field fits 32 bits |
| PacketCapture.ExportReadsBack | src/packet_buffer.py:283-324 | read back, an export shows for each packet of the ring its time to the microsecond, its length, and its captured bytes up to the snap length, or the caption and the text where no bytes were captured; it exists exactly when seconds and lengths fit 32 bits |
| PacketCapture.CaptureReadsBack | src/packet_buffer.py:135-324 | from capture to export: the bytes handed in, or else the text, come back; of a redacted capture only caption and notice do |
| PacketCapture.RecordBytes | src/packet_buffer.py:318-322 | the bytes of one record, for a packet of one byte at one and a half seconds |
| PacketCapture.RecordRoundTrip | src/packet_buffer.py:306-322 | one record is read back, whatever follows |
| PacketCapture.GlobalHeaderBytes | src/packet_buffer.py:290-304 | the 24 bytes of the file header |
| PacketCapture.PagesConcatenate | src/packet_buffer.py:210-213 | consecutive pages concatenate to the whole list |
| PacketCapture.PageIs | src/packet_buffer.py:210-213 | which items are on a page, position by position; an offset or a limit that is not positive is none |
| PacketCapture.OrderedIsSorted | src/packet_buffer.py:199-209 | ids rise in ascending order and fall in descending order, and the list holds exactly the wanted packets of the ring |
| PacketCapture.FilterIsExact | src/packet_buffer.py:199-205 | the filtered list is each wanted packet of the ring once, in capture order |
| PacketCapture.PacketBuffer.Record | src/packet_buffer.py:91-186 | the ring holds the last captures with consecutive ids; each field of the capture: the bytes are those observed or the text's, and a redacted capture keeps neither bytes nor text |
| PacketCapture.RedactionHides | src/packet_buffer.py:135-324 | two runs of captures that differ in redacted bytes and texts only leave rings with the same export, byte for byte |
| PacketCapture.PacketBuffer.Clear | src/packet_buffer.py:217-221 | empties the ring; ids go on |
| PacketCapture.PacketBuffer.GetPackets | src/packet_buffer.py:188-215 | the page and the total: packets of the ring that match, by rising or falling ids |
| PacketCapture.WriteRecords | src/packet_buffer.py:306-324 | the loop writes all the records, or fails on the first that does not fit |
| PacketCapture.PacketBuffer.GeneratePcap | src/packet_buffer.py:283-324 | the export of the ring, and that reading it back gives the captured bytes, times and lengths; none exactly when a time or a length does not fit |
| LinkQuality.SettlesInTwentyFive | src/lqi_engine.py:95-128 | from any score, twenty-five default updates with one instant score come within 0.01 of it, and stay there |
| LinkQuality.DefaultApproaches | src/lqi_engine.py:95-128 | with the default factor the error shrinks strictly, by three tenths up to rounding, until it is 0.01, and then stays |
| LinkQuality.SmoothedApproaches | src/lqi_engine.py:95-128 | with any factor the error shrinks while the step is over half a hundredth and freezes under it |
| LinkQuality.SmoothedIsBetween | src/lqi_engine.py:95-128 | with any factor the new score lies between the old one and the instant one |
| LinkQuality.NextIsMean | src/lqi_engine.py:95-128 | an update is the mean of the instant score and the old one, weighted by the factor, to the nearest hundredth |
| LinkQuality.FirstIsAdopted | src/lqi_engine.py:122-123 | a station without score takes the instant one |
| LinkQuality.PositiveStaysPositive | src/lqi_engine.py:95-128 | positive scores stay positive under any list of instant scores if and only if the smoothing factor is below a half |
| LinkQuality.FedStaysPositive | src/lqi_engine.py:95-128 | with a factor below a half, whatever instant scores arrive |
| LinkQuality.LastHundredthGoes | src/lqi_engine.py:95-128 | with a factor of a half or more, one zero takes the last hundredth |
| LinkQuality.DefaultStaysPositive | src/lqi_engine.py:36-128 | with the default factor, a positive score repeatedly fed one instant score never reaches zero |
| LinkQuality.InstantKeepsOrder | src/lqi_engine.py:43-93 | the instant score is within 0..100, monotone in SNR and RSSI and antitone in hops |
| LinkQuality.InstantIsAMixture | src/lqi_engine.py:82-87 | with both readings the score lies between those of each reading alone |
| LinkQuality.InstantIs | src/lqi_engine.py:43-93 | the score of readings within their ranges in one formula, to the nearest hundredth |
| LinkQuality.ReadingsWeigh | src/lqi_engine.py:28-35 | readings at or beyond the ends of their ranges: the best SNR is worth 65 %, the best RSSI 35 %, the worst of both nothing |
| LinkQuality.HopsCost | src/lqi_engine.py:90-93 | each hop costs 15 %, and seven cost everything |
| LinkQuality.DecayKeepsOrder | src/lqi_engine.py:130-158 | decay is monotone in the score and antitone in the time of silence, within 0..100 |
| LinkQuality.DecayNeverRaises | src/lqi_engine.py:130-158 | decay never raises a score, leaves it alone for three minutes and has taken all of it after thirteen |
| LinkQuality.TenthPerMinute | src/lqi_engine.py:151-158 | after the first three minutes a tenth of the score goes for each minute, up to rounding |

## Left out

- Times: wall clocks are parameters. `Metrics` uses whole seconds and numbers minutes, so a bucket's
  `minute` is the program's `timestamp` divided by 60; fractions and dates before 1970 are not modelled.
- Floating point: `LinkQuality` and `Deduplicator` compute with exact reals and round half to even on exact
  values; binary rounding is not modelled. NaN and infinite readings count as missing.
- Staged update: a rename and a journal write are atomic. `fsync`, recursive copies and deletes, building
  the virtual environment, path checks of `prepare` and `_state`, and `finish` are not modelled.
- Staged update: a component is one opaque content, so nothing is said about files inside a folder.
- Metrics: classification of type, target and error strings is an input, already done; last radio readings,
  the summary and its start time are not modelled.
- Admission: payload size check, processing of the message and the ledger are not modelled. That task
  creation or registration fails is a free choice of the environment, also when it could not.
- Directory: keys are stripped and in lower case, names stripped, roles in upper case when they enter the
  model. Telemetry, routes, aliases, hops and counters are opaque and left out; so are look-ups by name.
- Directory: the order of the dictionary is not modelled; which of several local entries is primary in
  `set_local_pubkey` is a free choice among them, and lists are sets.
- Directory: `accept_discovered_contact` takes the lock twice and is one step here.
- Directory: loading from a file and the JSON documents are not modelled; a document is what the
  model keeps of the nodes, with the local key.
- Saving: `Mutate` stands for any marked mutation with any outcome; every marking operation of the
  directory is one (`SaveProtocol.OperationsAreSteps`).
- Routing: keys are in lower case; the neighbour lists of the nodes, which repeat the links, are left out.
- Framing: reads of at most 1024 bytes are a special case of reads of any size; connection errors end
  the stream.
- Import contracts: building the graph from Python sources and reading the configuration are left out.
- Store and forward: the numbering of messages is the model's own; quality of service and retain flags
  travel with the message and are left out. A drain may stop at any message.
- BackgroundPool: stopping the bridge and cancelled workers are not modelled; while they last the
  program gives up its queue on purpose.
- ResponseWaiters: the registry's canonical key is a parameter; the flags set on the data handed to the
  waiter, and registering and timing out of waiters, are left out.
- ResponseWaiters: the ping scan discards what it passes over; over several ping keys the order of those
  that stay is not stated.
- PacketCapture: the part of the stand-in line before the text is a parameter, as are what the payload says
  of its text type and sensitivity; types are in upper case. Capture times are whole microseconds. JSON
  and CSV exports and unknown orders are left out.
- LinkQuality: the qualitative classes (`classify_lqi_status`) are left out.
- Paho, asyncio, TLS, sockets, SQLite, the web server, serial wiring, geofuzzing, radio presets,
  diagnostics and configuration parsing are not part of this model.
