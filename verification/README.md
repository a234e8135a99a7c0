# Nipart: verified models of the daemon's hard parts

Nipart is a network manager: a daemon that watches links, applies saved network state at boot and on request, and
hands wifi profiles to a plugin.  This project models the parts of it that carry state over time or compute canonical
forms, and proves what they are relied on for.

* **The link monitor** (`LinkMonitor`, `Monitor*`).  `LinkMonitor` is the specification: a state of sixteen fields,
  one function per operation, one step per command, netlink message or tick, and a log of everything the monitor
  sends. `MonitorWorker` is the worker itself, a class whose methods update the fields in place; each is proved to
  reach the state and result of its specification, and so is a whole run of its loop.  `MonitorEffects` says, field by
  field, what every command, event, tick, resume and reconciliation does; the other modules prove theorems about all
  runs of the specification.
* **The wifi plugin** (`WifiHints`, `WifiNetworks`, `WifiClient`).  Hint files, network lists, and the client state as
  a class with its invariant and an exact account of what an apply does.
* **Boot** (`BootDeps`, `BootState`, `BootLock`).  Which saved interfaces can be created, which are left to manual
  activation, and the transaction lock: boot task, monitor, main loop and clients as one interleaved state machine
  that contains the whole monitor model.
* **Grouping and canonical forms** (`ConnectGroups`, `DnsGroups`, `DnsAuto`, `DnsGateway`, `Sorting`).

What comes from outside is an input: parsed link messages, queried kernel views, udev readiness, clocks, and the
answers of the wifi client library.  Iteration over a hash map takes an arbitrary visit order.  Error returns are
modelled: a missing channel, no netlink socket, a dump that breaks off, a failed query, a malformed BSSID or
nameserver.

## Where the code does not do what one would expect

Each has a lemma with the failing inputs.  Where the exact condition is known it is an equivalence; where only one
direction is proved the text says so.

* `Start` does not look at the pause counter, so it opens a session under an outstanding pause
  (`StartDuringPauseListens`).  A resume or a new watch that the kernel refuses a socket or a complete dump leaves a
  monitor that should listen without a session (`RefusedResumeDeaf`).  `StepListensExactlyWhen` says exactly which
  steps break the rule for open sessions; with complete dumps it is that `Start` alone (`StepListening`).
* A virtual interface over a kernel interface that is named by its profile is not considered creatable, although the
  documented rule admits it (`AliasedParentMissed`).  Without shared names, the result is the documented set exactly
  when no admissible interface has such a dependency (`DocumentedExactlyWhen`).
* An interface that lacks its parent or a port is considered creatable when it shares a name with one that is created
  (`SharedNameOffersImpossible`).  One direction only: when no interface that shares a name lacks a dependency,
  everything returned is documented (`OfferedIsDocumented`).
* When saved interfaces share a name the result depends on their order (`SharedNameOrderMatters`).  One direction
  only: without shared names the order does not matter (`OrderIrrelevant`); some lists with shared names are
  unaffected too.
* Interfaces are excluded from boot by name but stored by kernel name.  A renamed one is not removed
  (`RenamedManualStays`), and one whose kernel name is an excluded name is removed with it (`ClashRemovesOther`).
  `RemovalExactWhen` is the exact condition; when no kernel name is another interface's name it says that no excluded
  interface is renamed (`RemovalExactUnclashed`).
* Learned DNS groups that share a domain are not always merged into one (`BridgeSplitsDomain`); domains stay apart
  exactly when each learned group meets at most one group at its turn (`DomainsApartExactlyWhen`).
* A bar in an interface name can make two gateways look alike (`BarConfuses`); `FingerprintsEqualExactlyWhen` says
  exactly what a fingerprint tells apart.

A comment at src/daemon/dns/config.rs:109-111 says dynamic nameservers come before static ones; the code at
src/daemon/dns/config.rs:291-300 puts them after.  The order of fallback servers is not part of the model.

## Model

| member | source | states |
|---|---|---|
| `MonitorRuns.RunSteady` | src/daemon/monitor/monitor_worker.rs:469-554 | Over every run: queues hold events under their own name, a wifi-phy counted as announced carries the mark, a queued Down of an interface never marked down has a down record, no batch stays open between steps, and nothing collected is lost |
| `MonitorRuns.ExplicitDownSafety` | src/daemon/monitor/monitor_worker.rs:1043-1063 | Every message of every run, single or batched, was sent at a step where neither its interface nor its SSID was marked explicitly down, even when the event was queued for debounce or udev before the mark |
| `MonitorRuns.NewPhyAnnouncedOnce` | src/daemon/monitor/monitor_worker.rs:730-760 | In every run, two "new wifi-phy" events for one name are separated by the removal of its announced mark |
| `MonitorRuns.BatchesLoseNothing` | src/daemon/monitor/monitor_worker.rs:730-829 | In every run with the channel set, the batches sent, joined in order, are exactly the collected events |
| `MonitorInvariants.AnnouncementsSpaced` | src/daemon/monitor/monitor_worker.rs:744-760 | In a log that never announces an announced wifi-phy, two announcements of one name enclose an `Unmarked` entry |
| `MonitorInvariants.TryNotifyFollows` | src/daemon/monitor/monitor_worker.rs:1043-1134 | Handling any event keeps every link invariant, logs no marked event, leaves the control state alone and fails only without channel and batch |
| `MonitorSession.StepListensExactlyWhen` | src/daemon/monitor/monitor_worker.rs:353-467 | From a state where the session is open exactly when started, unpaused and watched, and whatever the kernel answers: a step ends in such a state if and only if it is a first `Start` of a watched monitor that gets its dump exactly when no pause is outstanding, or another step that gets its dump if it asks for a session |
| `MonitorSession.StepListening` | src/daemon/monitor/monitor_worker.rs:353-467 | When the dump is complete: if and only if the step is not a first `Start` of a watched monitor under an outstanding pause |
| `MonitorSession.RefusedResumeDeaf` | src/daemon/monitor/monitor_worker.rs:420-428 | The resume that ends the last pause of a watched monitor leaves it without a session when the socket or the dump fails |
| `MonitorSession.RunListening` | src/daemon/monitor/monitor_worker.rs:353-554 | The same equivalence of session and state after every run whose steps all meet that condition |
| `MonitorSession.StartDuringPauseListens` | src/daemon/monitor/monitor_worker.rs:398-413 | A concrete run in which `Start` during a pause opens a session although the pause is outstanding |
| `MonitorSession.PausesCountOpen` | src/daemon/monitor/monitor_worker.rs:414-428 | For every interleaving of bracketed transactions the pause counter equals the number of brackets still open |
| `MonitorSession.BracketsEndListening` | src/daemon/apply.rs:452-465 | After any interleaving whose brackets are all closed the counter is zero, the session is open exactly when something is watched, and no snapshot is left |
| `MonitorSession.BootBatchOnce` | src/daemon/monitor/monitor_worker.rs:398-413 | Over every run the number of boot batches sent is one once started and zero before |
| `MonitorSession.StepClean` | src/daemon/monitor/monitor_worker.rs:701-728 | No step, whatever the kernel answers, leaves an open session with a snapshot or without a start |
| `MonitorPause.SnapshotHeld` | src/daemon/monitor/monitor_worker.rs:437-464 | Once the channel is set, over every run in which no session is open, through pauses, failed resumes and watch changes, the snapshot only loses the forgotten names |
| `MonitorPause.SnapshotIsEarliest` | src/daemon/monitor/monitor_worker.rs:701-728 | The snapshot is the emitted map at the earliest pause since the last session, minus the forgotten names, whether a pause command or the removal of the last watch made it |
| `MonitorPause.PausedIsClosed` | src/daemon/monitor/monitor_worker.rs:560-584 | Over every run with a pause outstanding, and no first start of a watched monitor, the session stays closed |
| `MonitorPause.QuietResume` | src/daemon/monitor/monitor_worker.rs:970-1012 | A resume whose dump agrees with the snapshot sends, records and queues nothing |
| `MonitorPause.UnchangedBracketInvisible` | src/daemon/monitor/monitor_worker.rs:592-628 | Pausing and resuming a listening monitor while no link changed gives back the whole state except the learned MACs |
| `MonitorPause.DisappearedReportedOnce` | src/daemon/monitor/monitor_worker.rs:636-661 | A watched, unmarked snapshot interface missing from the dump yields exactly one delete event and no record in the emitted, announced, delay or pending state, whatever else the dump holds and in whatever order the map is visited |
| `MonitorReconcile.ReconcileConverges` | src/daemon/monitor/monitor_worker.rs:846-930 | After one pass every record names an interface of the view and every watched interface of the view agrees with its record or waits in the delay or udev queue; `MonitorEffects.ReconcileShows` spells the agreement |
| `MonitorReconcile.ReconcileIdempotent` | src/daemon/monitor/monitor_worker.rs:846-930 | A second pass over the same view at the same clock, in any visit order, changes nothing and sends an empty batch |
| `MonitorDebounce.UpOvertakesWaitingDown` | src/daemon/monitor/monitor_worker.rs:1100-1131 | With a Down waiting for an interface never marked down, an Up that passes the filters is sent at once, empties the queue slot and records the interface as up |
| `MonitorDebounce.CancelledDownNeverDelivered` | src/daemon/monitor/monitor_worker.rs:932-968 | However the run goes on after that Up and however late a delay tick comes, the tick delivers nothing about the interface, or exactly one event that is due and that a step after the Up queued |
| `MonitorDebounce.CancelledDownGone` | src/daemon/monitor/monitor_worker.rs:964-968 | With a clock that does not go back, the entry that waited before the Up is in the queue at no later time |
| `MonitorDebounce.TickDelivers` | src/daemon/monitor/monitor_worker.rs:932-962 | A delay tick delivers about an interface nothing, or the one event that waited for it and was due |
| `MonitorDebounce.RunWaitsFrom` | src/daemon/monitor/monitor_worker.rs:964-968 | Over every run, what waits for an interface was queued after a given moment and is due a full waiting time later |
| `MonitorDebounce.NeverMarkedNeverSuppressed` | src/daemon/monitor/monitor_worker.rs:1050-1063 | An event of an interface is only suppressed by a run in which the interface, or the SSID the event carries, is marked |
| `MonitorFrame.TryNotifyElsewhere` | src/daemon/monitor/monitor_worker.rs:1043-1134 | An event changes no record, queue slot, mark or logged event of another interface |
| `MonitorFrame.NotifyHere` | src/daemon/monitor/monitor_worker.rs:730-784 | Delivering an event logs exactly that event, flagged as it leaves, and leaves the record, mark and queue slot it calls for |
| `MonitorEffects.RunControls` | src/daemon/monitor/monitor_worker.rs:353-467 | After every run the watches, the channel, the pause counter, the explicit-down marks and the start are what its commands, in order, made of them: marking adds exactly its names, clearing removes exactly its names, and no message, tick or reconciliation has a say |
| `MonitorEffects.MarkSilences` | src/daemon/monitor/monitor_worker.rs:429-436 | From the command that marks a name until one that clears it, over every run, no message sent or collected tells of that interface or of a connection to that SSID |
| `MonitorEffects.TryNotifyHandles` | src/daemon/monitor/monitor_worker.rs:1043-1134 | The table of what becomes of any event, from its fields: suppressed and recorded, ignored, left for udev, sent at once, or recorded and delayed ten seconds; with the exact records, queues, marks and log entry |
| `MonitorEffects.MessageRead` | src/daemon/monitor/monitor_worker.rs:1014-1027 | A live message is handled as the event its fields tell, after its MAC is learned; a wireless notification without association does nothing |
| `MonitorEffects.DueDelivered` | src/daemon/monitor/monitor_worker.rs:932-962 | A delay tick takes every due event out of the queue and delivers it, exactly once, unless it is marked by then or says up over a record that is up |
| `MonitorEffects.NotDueKept` | src/daemon/monitor/monitor_worker.rs:932-962 | A delay tick leaves an interface with nothing due alone |
| `MonitorEffects.PendingRetried` | src/daemon/monitor/monitor_worker.rs:677-699 | A udev tick leaves an event pending while udev lacks its interface, and otherwise handles it by the table of events |
| `MonitorEffects.ResumeReads` | src/daemon/monitor/monitor_worker.rs:970-1012 | After a resume the interface of a dump message is as handling that message leaves it when it has news, a new interface, another carrier or another SSID, and only its MAC is learned otherwise |
| `MonitorEffects.ChangedLinkReported` | src/daemon/monitor/monitor_worker.rs:592-628 | A watched, unmarked interface about which the dump has news is delivered once, delayed or pending after the resume |
| `MonitorEffects.ReconcileShows` | src/daemon/monitor/monitor_worker.rs:846-930 | After a reconciliation every watched interface of the view has a record with the link state and SSID of the view, both spelled from the queried fields, or waits in the delay or udev queue |
| `MonitorEffects.ReconcileReportsGone` | src/daemon/monitor/monitor_worker.rs:902-920 | A watched, unmarked recorded interface the view lacks is reported as deleted, exactly once |
| `MonitorEffects.ReconcileOnlyListening` | src/daemon/monitor/monitor_worker.rs:846-860 | A reconciliation of a monitor that is not started, is paused or has no session, or whose query fails, changes nothing |
| `MonitorEffects.ViewRead` | src/daemon/monitor/monitor_worker.rs:860-900 | A queried interface is handled as the event its fields tell unless it is not watched or its record says the same, and its MAC is learned in any case |
| `MonitorEffects.PauseCloses` | src/daemon/monitor/monitor_worker.rs:701-728 | A pause, or the removal of the last watch, closes the session, forgets the MACs, takes the snapshot if there is none, and leaves records, queues and log |
| `MonitorEffects.ForgetDrops` | src/daemon/monitor/monitor_worker.rs:437-464 | A forget command drops exactly its names from records and snapshot, and the one for emitted events from the announced marks too |
| `MonitorWorker.MonitorWorker.Notify` | src/daemon/monitor/monitor_worker.rs:730-784 | Updates mark, record, delay queue, batch or channel in place, to the state and result of the specification |
| `MonitorWorker.MonitorWorker.TryNotify` | src/daemon/monitor/monitor_worker.rs:1043-1134 | The explicit-down, interest, udev and debounce filters in place, to the specified state and result |
| `MonitorWorker.MonitorWorker.DebounceEvent` | src/daemon/monitor/monitor_worker.rs:1100-1131 | Send now, or record a Down and queue it with its deadline, as specified |
| `MonitorWorker.MonitorWorker.ProcessRtnlMessage` | src/daemon/monitor/monitor_worker.rs:1014-1027 | A live link message, as specified |
| `MonitorWorker.MonitorWorker.ProcessUdevPendingEvents` | src/daemon/monitor/monitor_worker.rs:677-699 | The loop over the drained pending queue, in any visit order, as specified |
| `MonitorWorker.MonitorWorker.ProcessDelayQueue` | src/daemon/monitor/monitor_worker.rs:932-962 | The loop over the due events, in any visit order, as specified |
| `MonitorWorker.MonitorWorker.Pause` | src/daemon/monitor/monitor_worker.rs:701-728 | Snapshot on the outermost pause, session closed, MACs forgotten |
| `MonitorWorker.MonitorWorker.HandleResumeMsg` | src/daemon/monitor/monitor_worker.rs:615-628 | One dump message compared with the snapshot |
| `MonitorWorker.MonitorWorker.HandleResumeDeletedIfaces` | src/daemon/monitor/monitor_worker.rs:636-661 | The loop over the snapshot interfaces the dump lacks, in any visit order, as specified |
| `MonitorWorker.MonitorWorker.Resume` | src/daemon/monitor/monitor_worker.rs:970-1012 | The dump loop, its failures and the opened session, as specified |
| `MonitorWorker.MonitorWorker.StartAndDump` | src/daemon/monitor/monitor_worker.rs:790-803 | The dump collected into one boot batch that is sent even when the dump failed |
| `MonitorWorker.MonitorWorker.Reconcile` | src/daemon/monitor/monitor_worker.rs:846-930 | Both reconciliation loops and their batch, in any visit order, as specified |
| `MonitorWorker.MonitorWorker.ProcessCmd` | src/daemon/monitor/monitor_worker.rs:353-467 | Every command in place, to the state and result of the specification |
| `MonitorWorker.MonitorWorker.TakeStep` | src/daemon/monitor/monitor_worker.rs:474-552 | One turn of the loop, of any kind: the specified step, and the worker stays valid |
| `MonitorWorker.MonitorWorker.Run` | src/daemon/monitor/monitor_worker.rs:469-554 | Any number of turns of the worker itself: it reaches the state of the specified run, stays valid, everything it sent respected the explicit downs of its moment, and it ends listening whenever it should |
| `WifiHints.EncodeSsid` | src/plugin-wifi/hints.rs:389-402 | The loop computes the percent-encoding of the SSID bytes |
| `WifiHints.DecodeEncoded` | src/plugin-wifi/hints.rs:389-402 | Decoding an encoded SSID gives its bytes back |
| `WifiHints.FileNamesDistinct` | src/plugin-wifi/hints.rs:385-402 | Different SSIDs get different file names |
| `WifiHints.EncodedIsSafe` | src/plugin-wifi/hints.rs:389-402 | An encoded SSID has only plain characters, so no path separator |
| `WifiHints.EncodedOne` | src/plugin-wifi/hints.rs:389-402 | Letters, digits, dot, underscore and dash stay; every other byte becomes a percent sign and its two upper-case digits |
| `WifiHints.EncodedParts` | src/plugin-wifi/hints.rs:389-402 | The encoding of a concatenation is the concatenation of the encodings |
| `WifiHints.MacFromString` | src/plugin-wifi/hints.rs:412-426 | The loop returns exactly what the grammar gives: six colon-separated bytes in base 16, a leading plus accepted, otherwise none |
| `WifiHints.MacRoundTrip` | src/plugin-wifi/hints.rs:404-426 | Parsing a printed MAC returns it |
| `WifiHints.MacReads` | src/plugin-wifi/hints.rs:412-426 | A text is a MAC if and only if it has six parts of two characters, a digit or plus and a digit; and each byte is the value of its part |
| `WifiHints.PrintParsedExactlyWhen` | src/plugin-wifi/hints.rs:404-426 | Printing a parsed text returns it if and only if it has no plus sign and no upper-case digit |
| `WifiHints.MergeBss` | src/plugin-wifi/hints.rs:195-235 | The merged hints, and a write is requested exactly when they differ from the file read |
| `WifiHints.MergeTidy` | src/plugin-wifi/hints.rs:195-235 | Merging keeps at most 16 entries with distinct BSSIDs, holds the new one with its frequency, and invents no other |
| `WifiHints.RecordBss` | src/plugin-wifi/hints.rs:119-137 | One recorded connection: an expired file is started over, a file is written only when it changes |
| `WifiHints.RecordsStayTidy` | src/plugin-wifi/hints.rs:119-235 | After any run of connections starting from no file, the file is of this SSID and day, has at most 16 distinct BSSIDs and contains the last one |
| `WifiHints.RecordKeeps` | src/plugin-wifi/hints.rs:119-235 | A file older than thirty days is started over; otherwise a known access point keeps its place with the new frequency, a new one goes to the end, and the oldest leaves when there are sixteen |
| `WifiNetworks.BuildNetworks` | src/plugin-wifi/apply.rs:970-997 | Succeeds exactly when every pinned BSSID parses and profiles of one SSID agree; the list has the first profile of each SSID in order |
| `WifiNetworks.FirstsContents` | src/plugin-wifi/apply.rs:970-997 | Every SSID is represented in the list, by the first profile that names it |
| `WifiNetworks.FirstGivesSettings` | src/plugin-wifi/apply.rs:1076-1121 | Each entry has SSID, hidden flag, password, parsed access point and hints of the first profile of its SSID |
| `WifiNetworks.CompatibleExactly` | src/plugin-wifi/apply.rs:970-997 | When profiles agree, from their fields: pinned access points parse, and profiles of one SSID have one password and one pinned access point, or none |
| `WifiNetworks.MergePreferred` | src/plugin-wifi/apply.rs:1152-1196 | Fails exactly like the list builder, otherwise merges the requested networks into the existing list |
| `WifiNetworks.MergeClosedForm` | src/plugin-wifi/apply.rs:1152-1196 | Existing networks keep their places, as the requested network of that SSID or demoted; requested networks with new SSIDs follow in request order |
| `WifiNetworks.MergeKeepsLists` | src/plugin-wifi/apply.rs:1152-1196 | The merged list has each SSID of either list once and prefers exactly the requested ones |
| `WifiNetworks.MergeIdempotent` | src/plugin-wifi/apply.rs:1152-1196 | Merging the same request again changes nothing |
| `WifiNetworks.RequestsKeepEverything` | src/plugin-wifi/apply.rs:615-630 | Over any sequence of merges no SSID is lost or invented, and the preferred set is that of the last request |
| `WifiNetworks.SameSavedNetworks` | src/plugin-wifi/apply.rs:1013-1046 | The greedy matching over a flag array returns true exactly when the lists, preference and hints erased, are equal as multisets |
| `WifiNetworks.PreferenceIsNoChange` | src/plugin-wifi/apply.rs:640-651 | Changing preference or hints is no change of the saved configuration |
| `WifiNetworks.SameSavedSettings` | src/plugin-wifi/apply.rs:1013-1046 | Lists with the same saved configuration have, entry for entry, the same SSID, hidden flag, password and access point |
| `WifiNetworks.OrderIsNoChange` | src/plugin-wifi/apply.rs:1009-1046 | No reordering of the entries is a change of the saved configuration |
| `WifiNetworks.RefreshHints` | src/plugin-wifi/apply.rs:1128-1139 | Every entry keeps its place and everything but its hints, which come from the freshly built entry of its SSID if there is one |
| `WifiClient.GroupProfiles` | src/plugin-wifi/apply.rs:455-521 | Fails exactly when a wifi interface is neither up, down, absent nor ignored; otherwise the profiles of each target in request order |
| `WifiClient.GroupedExactly` | src/plugin-wifi/apply.rs:455-521 | Each target has exactly the profiles of the up entries that target it, in request order, and targets without a profile are not in the map |
| `WifiClient.WantedExactly` | src/plugin-wifi/apply.rs:923-953 | For every request, from its fields: a profile is wanted on an interface exactly when an up entry carries it and is the wifi-phy itself, or is bound to that interface and it is present or up, or is unbound and the interface is one of the up ones, or present when none is up |
| `WifiClient.UpPhysExactly` | src/plugin-wifi/apply.rs:905-913 | The up wifi-phys are exactly the kernel names of the wifi-phy entries that are up |
| `WifiClient.RequestReads` | src/plugin-wifi/apply.rs:455-487 | Which interfaces and SSIDs a request removes or ignores and whether it asks for a connection, from the states of its entries |
| `WifiClient.GroupedTargets` | src/plugin-wifi/apply.rs:923-953 | A profile is only bound to an interface that is present and not ignored, or that the same request brings up |
| `WifiClient.WifiClientState.SetControl` | src/plugin-wifi/apply.rs:216-258 | Off leaves no client and nothing live; on restarts a missing client; the invariant holds |
| `WifiClient.WifiClientState.RunOnce` | src/plugin-wifi/apply.rs:262-365 | The live map follows the client report, and the connected flag follows the live map |
| `WifiClient.WifiClientState.RestartClient` | src/plugin-wifi/apply.rs:385-393 | A fresh client exactly when something is managed and it starts, nothing live |
| `WifiClient.WifiClientState.CompareLists` | src/plugin-wifi/apply.rs:585-661 | Drops exactly the re-created or vanished interfaces and their live entries; notes an update exactly where the list asked for has to reach the client; refreshes hints elsewhere |
| `WifiClient.WifiClientState.AddIfaces` | src/plugin-wifi/apply.rs:665-715 | Starts managing exactly the wanted interfaces of the kernel the client accepts, with the list asked for |
| `WifiClient.WifiClientState.Apply` | src/plugin-wifi/apply.rs:395-823 | Ok exactly when states are legal and the profiles of each kernel interface agree; then exactly which interfaces are managed, with which index and list, whether a client exists and what stays live; the invariant holds on errors too |
| `WifiClient.AppliedPresent` | src/plugin-wifi/apply.rs:665-715 | After an Ok apply each managed interface is in the kernel under its recorded index and is not an ignored one, unless the request also lists it up |
| `WifiClient.ManagedExactly` | src/plugin-wifi/apply.rs:539-715 | After an Ok apply exactly these interfaces are managed: those of the kernel managed before under the same index that no entry takes down, removes or ignores, and those a profile is meant for that the client accepts |
| `WifiClient.UnwantedTarget` | src/plugin-wifi/apply.rs:611-639 | Without a profile for it, an interface keeps exactly the networks whose SSID is not removed |
| `WifiClient.WantedTarget` | src/plugin-wifi/apply.rs:611-639 | A forced request for one profile adds its SSID and prefers it alone; any other makes the list exactly the SSIDs of its profiles, none preferred |
| `WifiClient.UpdatesHandedOver` | src/plugin-wifi/apply.rs:640-661 | A forced apply hands over every list unless it is empty before and after; an unforced one exactly the lists whose saved configuration differs |
| `WifiClient.AppliedListMeans` | src/plugin-wifi/apply.rs:640-661 | A list the client accepted is the one asked for, up to preference and hints when unforced; a refused one leaves the saved configuration as it was |
| `WifiClient.ReapplyIsQuiet` | src/plugin-wifi/apply.rs:640-660 | After an unforced apply whose lists were accepted, the same request needs no update anywhere, whatever the hint files hold by then |
| `WifiClient.WifiClientState.Handle` | src/plugin-wifi/plugin.rs:84-150 | One wake-up keeps the invariant; only an apply changes what is managed, only an apply or the control the switch, and without a client a cycle or stall does nothing |
| `WifiClient.WifiClientState.Serve` | src/plugin-wifi/plugin.rs:70-152 | Over any sequence of requests, drive cycles and stalls, from any valid state, in every state on the way: switch equals shared flag, off means no client, no client means nothing live, connected exactly when something is live, lists with distinct SSIDs and at most one preferred |
| `WifiClient.ApplyWorker` | src/plugin-wifi/plugin.rs:70-152 | A fresh worker serves any sequence with every state on the way valid, and leaves nothing live at the end |
| `BootDeps.CreatableNames` | src/daemon/commander.rs:550-592 | Terminates; what it collects starts from the kernel names, grows only by derivable names, and cannot grow further; the result is exactly the names of the interfaces with a collected name |
| `BootDeps.ReadyExact` | src/daemon/commander.rs:550-592 | Without shared names the loop collects exactly the least fixpoint over kernel names and dependencies |
| `BootDeps.CollectedExactly` | src/daemon/commander.rs:561-590 | From the fields: without shared names, an interface outside the kernel is collected if and only if a plugin makes it, or it is a controller all of whose ports are derivable, or it is none and its parent, if any, is derivable |
| `BootDeps.OfferedNames` | src/daemon/commander.rs:550-572 | The returned names are exactly the names, kernel names and profile names of virtual interfaces, not absent, ignored or wifi profiles, of which one name was collected |
| `BootDeps.OrderIrrelevant` | src/daemon/commander.rs:550-592 | Without shared names the result does not depend on the order of the saved interfaces |
| `BootDeps.SharedNameOrderMatters` | src/daemon/commander.rs:569-573 | With a shared name the order decides whether a dependent interface is collected |
| `BootDeps.CyclesNeverCollected` | src/daemon/commander.rs:561-590 | Names outside the kernel that depend on each other are never collected |
| `BootDeps.OfferedIsDocumented` | src/daemon/commander.rs:544-549 | Every returned name is one the documented rule admits, when no interface that shares a name with another lacks a dependency |
| `BootDeps.SharedNameOffersImpossible` | src/daemon/commander.rs:567-572 | An interface without its dependency is returned, against the documented rule, when it shares a name with one that is created |
| `BootDeps.DocumentedExactlyWhen` | src/daemon/commander.rs:544-592 | The result is the documented set if and only if no admissible interface depends on a kernel interface by one of its other names |
| `BootDeps.AliasedParentMissed` | src/daemon/commander.rs:569-587 | Every interface over a kernel interface named by an alias is missed; the exception the equivalence is about |
| `BootDeps.VlanOverProfileMissed` | src/daemon/commander.rs:569-587 | A concrete VLAN over an existing bond named by its profile is missed |
| `BootState.ExcludedNames` | src/daemon/commander.rs:397-429 | Terminates; returns exactly the names from which a manually activated interface is reached through controllers, else parents |
| `BootState.ExcludedExactly` | src/daemon/commander.rs:408-429 | From the fields: a name is excluded if and only if an interface of that name is manual, or has an excluded controller, or has no controller and an excluded parent |
| `BootState.RemoveManual` | src/daemon/commander.rs:396-462 | Keeps, in order, exactly the interfaces stored under a name that is not excluded and the routes and rules that name no excluded interface |
| `BootState.RemovalExactWhen` | src/daemon/commander.rs:435-447 | Exactly the excluded interfaces are removed if and only if, among those with a name other than their kernel name, the excluded ones are those whose kernel name is an excluded name |
| `BootState.RemovalExactUnclashed` | src/daemon/commander.rs:435-447 | When no kernel name is the name of another saved interface: if and only if every excluded interface goes by its kernel name or has none |
| `BootState.SurvivorsIndependent` | src/daemon/commander.rs:408-429 | When every excluded interface goes by its kernel name, no surviving interface is manual or depends on an excluded one |
| `BootState.RemovedOnce` | src/daemon/commander.rs:396-462 | Then nothing manual is reachable in what stays, and removing again removes nothing |
| `BootState.RenamedManualStays` | src/daemon/commander.rs:435-447 | A manual interface with another kernel name is not removed |
| `BootState.ClashRemovesOther` | src/daemon/commander.rs:435-447 | An interface whose kernel name is the name of a manual one is removed although it depends on nothing |
| `BootState.NonNicState` | src/daemon/commander.rs:493-542 | Keeps, in order, exactly the virtual interfaces that are neither wifi profiles nor ignored, and the routes and rules that name no interface or a creatable one |
| `BootState.KeptFields` | src/daemon/commander.rs:435-505 | From the fields: manual removal goes by the kernel name, or the name when there is none; the boot state keeps the virtual interfaces that are neither wifi profiles nor ignored |
| `BootState.KeptRoutes` | src/daemon/commander.rs:448-540 | Manual removal keeps the routes and rules that name no excluded interface, the boot state those that name none or a returned name |
| `BootState.BootRouteResolves` | src/daemon/commander.rs:505-540 | A route or rule kept for boot names an interface of the boot state that is in the kernel or whose dependencies are all derivable |
| `ConnectGroups.GroupRequests` | src/daemon/apply.rs:236-281 | Group identities are distinct, every group holds exactly the SSIDs wanted on its target in first-request order, and no wanted target is missing |
| `ConnectGroups.WantedExact` | src/daemon/apply.rs:262-279 | The SSIDs wanted on a target are, without repetition, those of the unbound requests and of the requests bound to it |
| `ConnectGroups.WantedFields` | src/daemon/apply.rs:236-281 | From the fields: a present interface gets the SSIDs of unbound requests and of those bound to it, an absent base those bound to it, and there is no other target |
| `ConnectGroups.GroupConnected` | src/daemon/apply.rs:284-309 | True exactly when a live interface fits the group and is on one of its SSIDs |
| `ConnectGroups.ConnectedElsewhere` | src/daemon/apply.rs:334-359 | Finds the first interface of the group connected to another SSID if there is one |
| `ConnectGroups.ServesFields` | src/daemon/apply.rs:284-359 | From the fields: connected means live on one of the SSIDs of the group, elsewhere live on another, on the interface of the group or, for an absent base, one that goes by it as kernel name, name or profile |
| `ConnectGroups.StuckExactlyWhen` | src/daemon/apply.rs:284-359 | With distinct kernel names a group of a present interface is stuck elsewhere exactly when its interface is live and the group is not connected |
| `ConnectGroups.AllConnectedExactlyWhen` | src/daemon/apply.rs:236-309 | All groups are connected exactly when every target some request hits is live on an SSID requested for it |
| `DnsGroups.MergeGroups` | src/daemon/dns/config.rs:219-279 | Fails exactly when a learned nameserver does not parse; otherwise the fold of single merges |
| `DnsGroups.StaticsKept` | src/daemon/dns/config.rs:223-279 | Every configured group keeps its place, name and flags, and its servers and domains as prefixes |
| `DnsGroups.AutosKept` | src/daemon/dns/config.rs:224-277 | All domains and servers of each learned group end up together in one group |
| `DnsGroups.SharedDomainPlaced` | src/daemon/dns/config.rs:224-251 | A learned group that shares a domain, compared in lower case, joins the first group that has one, whatever its name, which keeps its name and flags |
| `DnsGroups.NewGroupPlaced` | src/daemon/dns/config.rs:252-277 | One that shares no domain and no name becomes the last group, with lower-cased domains, parsed nameservers, its IPv6 flag and the mark of DHCP |
| `DnsGroups.MergedContents` | src/daemon/dns/config.rs:219-279 | The merged groups mention exactly the domains and servers of the configured and the learned ones |
| `DnsGroups.MergedNames` | src/daemon/dns/config.rs:252-277 | Group names are distinct after merging if and only if the configured names were |
| `DnsGroups.CacheGroups` | src/daemon/dns/config.rs:113-131 | The loop fills the map by name, later groups over earlier ones |
| `DnsGroups.NoGroupLostExactlyWhen` | src/daemon/dns/config.rs:113-131 | The map handed to the cache server has as many groups as the list if and only if names are distinct |
| `DnsGroups.FoundByName` | src/daemon/dns/config.rs:113-131 | Then every group is found unchanged under its name |
| `DnsGroups.DomainsApartExactlyWhen` | src/daemon/dns/config.rs:213-279 | No domain is in two groups after merging if and only if none was before and each learned group, at its turn, shares domains with at most one group |
| `DnsGroups.DomainsStayApart` | src/daemon/dns/config.rs:213-279 | In particular when configured groups are apart, learned groups are apart, and each learned group shares domains with at most one configured group |
| `DnsGroups.BridgeSplitsDomain` | src/daemon/dns/config.rs:213-279 | Three learned groups of which the third bridges the first two leave one domain in two groups |
| `DnsAuto.CollectAutoDns` | src/daemon/dns_auto.rs:69-168 | The snapshot is assembled from the contributing interfaces sorted by priority, saved position and name, and is the same for every visit order of the map |
| `DnsAuto.OrderForgotten` | src/daemon/dns_auto.rs:75-124 | Any two visit orders of the map give the same sorted list |
| `DnsAuto.SortedByPriority` | src/daemon/dns_auto.rs:120-126 | In the effective order higher priority comes first, then the saved position, then the name |
| `DnsAuto.ContributesExactly` | src/daemon/dns_auto.rs:75-102 | An interface contributes if and only if automatic DNS is not switched off for it and it learned a nameserver or a domain that is not empty |
| `DnsAuto.ContributionFields` | src/daemon/dns_auto.rs:84-119 | What it contributes: priority zero without an IPv4 section, last position when not saved, each nameserver once, domains in lower case |
| `DnsAuto.AssembledContents` | src/daemon/dns_auto.rs:126-158 | The resolver servers and search domains are, each once, exactly those some interface learned |
| `DnsAuto.CacheServersExactly` | src/daemon/dns_auto.rs:126-158 | The cache servers are exactly those some interface learned, up to a percent sign, at port 53 and bound to that interface |
| `DnsAuto.GroupsExactly` | src/daemon/dns_auto.rs:126-158 | There is a group for each interface with both nameservers and domains, and no other |
| `DnsAuto.SearchExactly` | src/daemon/dns_auto.rs:126-158 | The search flag is up if and only if an interface has a domain search list |
| `DnsAuto.GroupFields` | src/daemon/dns_auto.rs:170-184 | The group of an interface has the prefixed name, its domains, and its nameservers bound to it in order |
| `DnsAuto.GroupNamesApart` | src/daemon/dns_auto.rs:170-184 | The groups generated for different interfaces have different names |
| `DnsGateway.Fingerprint` | src/daemon/dns_gateway.rs:88-117 | A strictly increasing list of exactly the texts of the default unicast routes that are not absent |
| `DnsGateway.GatewaysFields` | src/daemon/dns_gateway.rs:88-130 | From the fields: the default routes of either family that are neither absent, blackhole, unreachable nor prohibit, with a missing interface or address as empty text |
| `DnsGateway.FingerprintsEqualExactlyWhen` | src/daemon/dns_gateway.rs:81-117 | Two fingerprints are equal if and only if their default routes give the same set of interface and address joined by a bar, metric and table |
| `DnsGateway.FingerprintsShowGateways` | src/daemon/dns_gateway.rs:81-117 | Without bars in interface names: if and only if the sets of default gateways are equal |
| `DnsGateway.TextEqualExactlyWhen` | src/daemon/dns_gateway.rs:104-112 | Two gateways have one text if and only if interface and address joined by a bar, metric and table agree |
| `DnsGateway.TextInjective` | src/daemon/dns_gateway.rs:104-112 | Different gateways without a bar in the interface name have different texts |
| `DnsGateway.BarConfuses` | src/daemon/dns_gateway.rs:104-112 | With a bar in a name two different gateways have one text |
| `BootLock.RunInv` | src/daemon/daemon.rs:123-146 | Every interleaving of boot task, monitor, main loop and clients keeps the lock and hand-off invariant |
| `BootLock.PidIsHolders` | src/daemon/lock.rs:29-49 | In every reachable state a pid other than zero is that of whoever holds the mutex |
| `BootLock.MutualExclusion` | src/daemon/lock.rs:44-49 | In every reachable state at most one client is inside, and none before the boot task let go |
| `BootLock.ClientsWaitForBoot` | src/daemon/api.rs:67-82 | No client is inside the lock before the boot batch was handled, unless the boot apply failed |
| `BootLock.OneBootBatch` | src/daemon/daemon.rs:303-324 | In every interleaving at most one boot batch is sent and at most one is handled |
| `BootLock.BootAlwaysLeaves` | src/daemon/daemon.rs:130-146 | From every reachable state after the boot apply, steps of the main loop and the boot task alone lead to a free lock: the wake-up is never lost |

## Left out

- Netlink, sysfs, udev, socket and file access, and the parsing of configuration: their results are inputs.
- The worker's `run` loop in src/daemon/monitor/monitor_worker.rs: which of several ready inputs is taken first and
  when the next reconciliation is due; a run is any sequence of steps.
- The order of a deferred udev event and a newer live event of the same interface: the code promises none.
- Latched wifi connection errors, and whether an updated list also makes the client reconnect at once
  (`should_reconnect_to_networks`): they do not touch the modelled state.
- The shuli client behind the plugin: whether it starts, accepts an interface or accepts a list is an input, and so is
  what a drive cycle reports.
- Reading, ageing and deleting hint files on disk; loaded hints are an input.
- The collection of wifi connect requests from the merged state and the polling loop around the groups.
- The interface schema: an interface is the record of the fields the modelled code reads, and a set of saved
  interfaces is a list in insertion order.
- The merge of the applied over the saved IPv4 section for automatic DNS: the section in effect is an input.
- Lower-casing of domains and parsing of nameservers: arbitrary functions.
- `DnsGroupConfig::new`, `to_schema_config` and the fallback server list of the DNS cache: one-line conversions.
- MonitorPause.SnapshotHeld: requires the channel to the daemon to be set, because a resume that fails on a missing
  channel has dropped the snapshot already; the daemon sets the channel before any other command.
- BootDeps.OrderIrrelevant: one direction; when names are shared it is not decided which lists the order affects.
- BootDeps.OfferedIsDocumented: one direction; a list in which an interface shares a name and lacks a dependency can
  still give a documented result.
- Applying, verifying and rolling back kernel state, the command line tool, plugins other than wifi, and the Python
  binding.
