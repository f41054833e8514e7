# Smoker controller firmware: a verified model

This project models the parts of the smoker controller firmware whose correctness rests on
interplay rather than on single functions, and proves what the firmware is meant to guarantee:

- **The crash-safe history log** on raw NOR flash (`NorFlash`, `PageFormat`, `Codec`, `Durability`,
  `LogState`, `LogInvariant`, `HistoryLog`, `HistoryQueries`,
  `HistoryRuns`, `HistoryReading`). Pages and records are
  written commit word last; whole sessions are evicted behind a tombstone word; boot finishes what a
  power cut left undone. Over whole runs of boots, sessions, appends and queries, under any failure of
  any flash call, an acknowledged record stays on flash until a tombstone of its session is on flash
  (and then the whole session is gone for good), or until its own session, alone in a full log,
  reuses the page; and a session whose End was acknowledged is evicted before one without.
- **The control application** (`ControlCore`, `CommandQueue`, `CommandEffects`, `ControlAlarms`,
  `ControlTrace`, `SmokerApplication`, `CycleEvents`): the command ring, all command handlers, sensors, alarms,
  timer, controller lifecycle, faults and the heater write of one control cycle. Its invariant keeps the
  whole history of calls lawful, so that properties of every history hold of every application.
- **The protocols between tasks** (`RingSequences`, `CommandTransport`, `ControlLoop`,
  `FirmwarePermission`, `SnapshotExchange`, `HistoryMailbox`).
- **The ADS1115 acquisition sequencer** (`FoodProbes`), **the provisioning frame parser** against the
  Python tool that prints its frames (`Provisioning`), and **the Wi-Fi scan curation** (`WifiNetworks`).

## How it is modelled

Code that updates state in place is imperative here too: the log, its flash, the application, the
command ring, the mailboxes, the drain, the probe source and the parser are classes whose methods
carry loops, and whose contracts say what the new state is. Ghost fields record history (promised
records, calls made, verdicts given, observations admitted), so that a contract can speak of whole
runs. The permission protocol and the snapshot exchange are state machines over interleaved atomic
steps, because their properties are about interleavings; steps are sequentially consistent.

**Flash.** A sector is 4096 bytes. A program step ANDs bytes and may stop after any byte, even in the
middle of one (`Programs`); an erase that fails leaves the sector in one of the states of
`NorFlash.CutErase`: unchanged, erased, without a valid header, or with a page header whose tombstone
is still in a state that `is_eviction_marker_state` accepts. That erase fault model is the one
assumption about the medium. Every call may fail. A power cut is a call that fails part-way followed by
calls that all fail without effect, and then a boot; since invariants are proved under arbitrary
failure of each call, they cover a cut at any point, repeated cuts during recovery included. The
CRC-32 is computed (`Bytes.Crc32`), and nothing proved about torn writes depends on it.

**What a boot exposes.** `PageFormat.ViewsOf` is what a scan sees: pages with a valid committed header,
each with the committed records behind each other. `Durability.Durable` ties it to a ghost ledger of
promised pages and acknowledged records: each promised page is visible and holds its acknowledged
records first, followed by at most one more record whose append was never acknowledged (its commit may
have reached the flash although the call failed); every exposed record was handed to the log; records
of a session have strictly increasing sequence numbers within and across pages. `LogState.Full` adds that
a booted log promises every listed page of a session that is not being evicted.
`HistoryRuns` chains the operations: `Lifetime` obeys any list of commands by a `Run`, a sequence of
moments from the first flash content to the last in which each step is a lawful `Transition`, and the
lemmas about runs say what can and cannot be lost on the way.

**Results that differ from what the code's comments promise**

- *Codec.* Probe and alarm counts travel in 16 bits, and the decoder refuses more than 256 of either.
  An observation with more than 256 alarms can still fit a page: the log commits and acknowledges it
  and then cannot read it back. `Codec.RoundTripIff` and `PageFormat.CommittedIsReadableIff` give the exact
  condition, `PageFormat.FittingButUnreadable` an instance. Appending is therefore proved for
  observations that satisfy it; the application, with at most two alarms per probe and one for the
  timer, meets it for up to 127 probes. The hardware is far from that: two converters with eight
  multiplexer settings each have at most 16 channels.
- *Firmware permission.* The permission is not always given back. When an installation is requested
  between the two signal reads of a control cycle, and its permission timeout raises Finish before the
  same cycle makes the second of these reads, then this cycle rejects the Finish and the next one grants a permission
  that nobody waits for: the interlock stays on until another installation is requested
  (`PermissionCanLeak`, `LeakStays`). `LeakExactlyByOvertaking` shows that this is the only way.
  Safety is not affected: nothing is ever installed without the interlock.
- *Provisioning parser.* Taken by itself, the parser keeps a malformed header line in its buffer when
  an earlier error has not been taken yet (`RefusedLineRecovers` is the exact condition,
  `WaitingErrorSticks` two such lines). The service never lets that happen, because it takes the error
  after every byte: for it every line outside a payload ends between frames, and the next printed frame
  is understood, whatever came before (`ServiceRecovers`, `FrameAfterAnything`).

## Model

| member | source | states |
|---|---|---|
| Codec.RoundTripIff | components/smoker_platform/src/history_support.cpp:109-286 | Decoding what was encoded gives the observation back (apart from the timer start and the fields kept in the record header) exactly for non-negative durations and at most 256 probes and 256 alarms |
| Codec.EncodeObservation | components/smoker_platform/src/history_support.cpp:109-163 | The cursor-filled buffer is the specified byte string |
| Codec.DecodeObservation | components/smoker_platform/src/history_support.cpp:165-286 | Accepts exactly byte strings of matching length whose enumerations, flags and floats are valid, consuming every byte |
| PageFormat.HeaderStored | components/smoker_platform/src/history_support.cpp:821-838 | A page header is found by a scan, with its identity, exactly when its commit word is complete |
| PageFormat.RecordStored | components/smoker_platform/src/history_support.cpp:855-883 | A record is found by a scan, as the observation handed over, exactly when its commit word is complete |
| PageFormat.NoCommitNoRecord | components/smoker_platform/src/history_support.cpp:746-782 | Without its commit word no record is found, whatever the bytes around it |
| PageFormat.PrefixKept | components/smoker_platform/src/history_support.cpp:746-782 | Programming bytes behind the last record keeps every record already found and can only add behind them |
| PageFormat.CommittedIsReadableIff | components/smoker_platform/src/history_support.cpp:840-886 | A committed record is readable exactly when its observation round-trips |
| PageFormat.FittingButUnreadable | components/smoker_platform/src/history_support.cpp:840-886 | With 128 probes the application can have 257 alarms of distinct causes; their observation passes the size check, can be committed in full, and is then not found by any scan |
| NorFlash.RecordTorn | components/smoker_platform/src/history_support.cpp:855-883 | A record write stopped before its commit leaves the page with the same records |
| NorFlash.HeaderTorn | components/smoker_platform/src/history_support.cpp:821-838 | A page header body without its commit word, stopped anywhere, is no page to a scan |
| NorFlash.HeaderCommitted | components/smoker_platform/src/history_support.cpp:821-838 | A header's commit word, stopped anywhere, leaves no page or the whole page |
| NorFlash.Marked | components/smoker_platform/src/history_support.cpp:22-30 | A tombstone write stopped anywhere leaves the sector as it was, or a word every reader takes as a tombstone; the page's identity stays, and the word still takes a tombstone |
| Durability.RecordKeeps | components/smoker_platform/src/history_support.cpp:840-886 | A record written behind a promised page's content, whole or not at all, keeps every promise and the order of records |
| Durability.MarkKeeps | components/smoker_platform/src/history_support.cpp:1006-1031 | Tombstoning one page keeps all promises but those of its session |
| Durability.EraseKeeps | components/smoker_platform/src/history_support.cpp:1033-1072 | Erasing a sector nothing is promised about, with any outcome of the erase, keeps every promise |
| HistoryLog.ScanSector | components/smoker_platform/src/history_support.cpp:709-784 | The scanning loop finds exactly the page, its used bytes and its tombstone that the format defines, and counts exactly the torn header, tail and tombstone as damage |
| HistoryLog.CircularHistoryLog.Initialize | components/smoker_platform/src/history_support.cpp:512-543 | A boot keeps every promise whether or not it succeeds; a successful one leaves no eviction pending, promises all it exposes, and terminates; it fails only if a flash call failed |
| HistoryLog.CircularHistoryLog.ScanAll | components/smoker_platform/src/history_support.cpp:519-531 | The table equals the scan of every sector, and the next id and generation are above all of them |
| HistoryLog.CircularHistoryLog.BeginSession | components/smoker_platform/src/history_support.cpp:545-563 | A new session's page holds exactly its Start record; every other session keeps all promises, or is the victim the rule names and is gone as a whole; failure needs a failing flash call or a record too large for a page |
| HistoryLog.CircularHistoryLog.Append | components/smoker_platform/src/history_support.cpp:565-576 | An acknowledged append extends the promises by exactly this record; while the current page has room nothing else changes, acknowledged or not; otherwise every other session keeps all promises, or is the victim the rule names and is gone as a whole; failure needs a failing flash call or a record too large for a page |
| HistoryLog.CircularHistoryLog.AppendAssigned | components/smoker_platform/src/history_support.cpp:840-886 | Every attempt uses up its sequence number; page change and write together have the effect stated for an append, and nothing is lost unless the record needed another page than the current one |
| HistoryLog.CircularHistoryLog.WriteRecord | components/smoker_platform/src/history_support.cpp:855-883 | Header, payload and commit word add the record whole, or leave the page's records as they were |
| HistoryLog.CircularHistoryLog.AllocatePage | components/smoker_platform/src/history_support.cpp:786-819 | The session gets an erased page with a fresh generation, its reuse decided before anything is erased |
| HistoryLog.CircularHistoryLog.WritePageHeader | components/smoker_platform/src/history_support.cpp:821-838 | Body first and commit word last: a whole page, or no page |
| HistoryLog.CircularHistoryLog.SelectPageForReuse | components/smoker_platform/src/history_support.cpp:935-1004 | Finishes a pending eviction, else takes an unlisted sector, else evicts the session that the victim rule names for the sessions taken as ended, or reclaims the session's own oldest page; other sessions keep their promises unless their tombstone is on flash |
| HistoryLog.ChooseOldest | components/smoker_platform/src/history_support.cpp:962-978 | The victim is the session owning the oldest page among the eligible ones |
| HistoryLog.CircularHistoryLog.MarkSessionForEviction | components/smoker_platform/src/history_support.cpp:1006-1031 | The victim's promises end, all of them, exactly when a tombstone is on flash afterwards, whatever the write and the read-back reported; otherwise table, flash and promises are as they were |
| HistoryLog.CircularHistoryLog.CompletePendingEviction | components/smoker_platform/src/history_support.cpp:1033-1072 | Erases only pages of the tombstoned session, its marker page last, so what is exposed never changes |
| HistoryLog.CircularHistoryLog.CompletedSessions | components/smoker_platform/src/history_support.cpp:950-961 | Unless damage was counted (because a flash call failed or a page cannot be read back): a session with an acknowledged End on a promised page is among them, and a session is among them only if some readable record of it is an End |
| HistoryLog.CircularHistoryLog.ReadPageRecords | components/smoker_platform/src/history_support.cpp:888-933 | Reads back the page's records, or reports a failure |
| HistoryLog.CircularHistoryLog.Samples | components/smoker_platform/src/history_support.cpp:660-702 | Answers with the records of the session's pages in generation order, thinned by the stride (by 1 for stride 0), newer than the given one, cut at the limit with a continuation |
| HistoryLog.CircularHistoryLog.SamplesAreAcked | components/smoker_platform/src/history_support.cpp:660-702 | Whatever was written since boot, a query of a session that is not being evicted sees exactly its acknowledged records, in strictly increasing sequence |
| HistoryQueries.PagesInOrder | components/smoker_platform/src/history_support.cpp:670-680 | Lists exactly the session's pages, each once, by increasing generation |
| HistoryQueries.QueriesJoin | components/smoker_platform/src/history_support.cpp:660-702 | For any limit and stride, following continuations joins to the one-shot thinned list: no skip, no duplicate, no shift of the stride |
| HistoryQueries.ThinnedMeans | components/smoker_platform/src/history_support.cpp:681-696 | Thinning keeps, in order, every record that is not a sample and exactly those samples that have a multiple of the stride of samples before them |
| HistoryQueries.PaginationIsOneShot | components/smoker_platform/src/history_support.cpp:660-702 | The same from any starting sequence number |
| HistoryQueries.JoinedIsAcked | components/smoker_platform/src/history_support.cpp:888-933 | Reading promised pages in order joins their acknowledged records |
| HistoryQueries.AckedIncreasing | components/smoker_platform/src/history_support.cpp:840-886 | Acknowledged records of a session increase in sequence across its pages |
| HistoryReading.FollowSamples | components/smoker_platform/src/history_support.cpp:660-702 | A reader that follows the continuations of the log's own answers gets, of any session that is not being evicted, the open one included, exactly the acknowledged records that are no samples or whose number among the samples is a multiple of the stride, in order; only a failing flash call can stop it |
| HistoryReading.OneOrder | components/smoker_platform/src/history_support.cpp:670-680 | All queries of an unchanged session read its pages in the same order |
| HistoryReading.OpenIsKept | components/smoker_platform/src/history_support.cpp:935-1004 | The open session is never being evicted |
| HistoryRuns.Lifetime | components/smoker_platform/src/history_support.cpp:512-576 | Any list of boots, sessions, appends and queries with any flash failures is obeyed by a lawful run from the first flash content to the last; without failures every boot succeeds and the table is what a rescan would find |
| HistoryRuns.AcknowledgedSurvives | components/smoker_platform/src/history_support.cpp:545-576 | In every run each record whose append or Start was acknowledged is on flash at once, on a page of its session, and at every later moment on that same page, unchanged, unless one command in between that needed a page took exactly this record away: its session was the victim and disappeared as a whole, or its own session, alone in a full log, reused that page as its oldest |
| HistoryRuns.KeptUntilLost | components/smoker_platform/src/history_support.cpp:512-576 | The same for every promised record, those from before the run included |
| HistoryRuns.GoneForGood | components/smoker_platform/src/history_support.cpp:1033-1072 | Through any power cuts, no page of a session that is gone is exposed again until its id is written for again |
| HistoryRuns.EndedGoFirst | components/smoker_platform/src/history_support.cpp:950-979 | In every run: if a command takes a record of another session, no flash call failed and no page was unreadable, then an End of that session was acknowledged unless this holds of no other session; and of the sessions alike in this it owned the oldest page |
| HistoryRuns.OnlyHandedOver | components/smoker_platform/src/history_support.cpp:840-886 | In every run each exposed record was handed over by a command or was there before |
| HistoryRuns.KeptIsExposed | components/smoker_platform/src/history_support.cpp:709-784 | A record that the ledger promises is on flash, on its page, for a scan to find |
| HistoryRuns.ToldIsAcknowledged | components/smoker_platform/src/history_support.cpp:660-702 | In every run an answer about a session that is not being evicted is made of exactly its acknowledged records |
| HistoryRuns.IndexAgreement | components/smoker_platform/src/history_support.cpp:709-838 | Without a failing flash call since boot, a rescan yields exactly the table in memory, and the next generation and history id exceed every retained one |
| HistoryMailbox.HistoryObservationMailbox.Observe | components/smoker_platform/src/history_support.cpp:335-392 | With three free slots a snapshot admits exactly: for a session open in the stream a Change if its settings differ from the remembered ones and a Sample if the last Start or Sample is 60 seconds behind, for a new one a Start, for one that runs no more an End, for one never seen running both; without room lifecycle ones are admitted together or tried again later; the stream stays legal |
| HistoryMailbox.CalledFor | components/smoker_platform/src/history_support.cpp:335-392 | The flags that the mailbox remembers call for the same observations as the admitted stream alone |
| HistoryMailbox.ObserveAll | components/smoker_platform/src/history_support.cpp:335-392 | For every list of snapshots: if three slots were free at each, then behind every running one the last Start or Sample of its session was less than 60 seconds behind, and the newest entry of the stream had its settings |
| HistoryMailbox.HistoryObservationMailbox.Push | components/smoker_platform/src/history_support.cpp:456-505 | Admits one observation unless full, the last slot being kept for Start and End, while the consumer pops at any time |
| HistoryMailbox.HistoryObservationMailbox.TryPop | components/smoker_platform/src/history_support.cpp:403-410 | Pops the oldest admitted observation across wrapping sequences, while the producer admits more at any time; of a legal stream of admissions the popped part is legal |
| HistoryMailbox.PoppedIsLegal | components/smoker_platform/src/history_support.cpp:403-410 | What has been popped of a legal stream is a legal stream itself, so the block properties below hold of what the consumer sees |
| HistoryMailbox.EntryInBlock | components/smoker_platform/src/history_support.cpp:335-392 | Every Sample, Change and End of the popped stream follows its own session's Start, with only that session's Samples and Changes between |
| HistoryMailbox.BlocksDistinct | components/smoker_platform/src/history_support.cpp:335-392 | No two blocks of the stream have the same session |
| HistoryMailbox.SamplesSpaced | components/smoker_platform/src/history_support.cpp:376-388 | Samples of a block are at least the periodic interval apart, and as far behind its Start |
| ControlCore.UpdateStageTimer | components/smoker_core/src/timer.cpp:58-93 | The timer starts when its condition holds, completes when its time is up, and never shows more than its duration |
| ControlCore.FrozenSound | components/smoker_core/src/timer.cpp:95-104 | Freezing a timer at a stop keeps it within its duration once clipped, and without clipping unless it was overdue |
| ControlCore.EvaluateChamberSafety | components/smoker_core/src/safety.cpp:5-19 | A missing reading, one above the maximum, and a good one give exactly their fault, their fault and none |
| ControlCore.ApplySafetyGate | components/smoker_core/src/safety.cpp:21-32 | The requested demand passes unchanged while running without a fault, and is off otherwise |
| CommandQueue.CommandRing.Submit | components/smoker_app/src/smoker_application.cpp:75-112 | The ring refines a FIFO list in which only a trailing Stop coalesces and the last place is kept for a Stop |
| CommandQueue.SubmitConserves | components/smoker_app/src/smoker_application.cpp:75-112 | Each nonzero id submitted is pending, refused, or displaced the oldest of a Stop's sixteen coalesced ids |
| CommandQueue.SubmitWellFormed | components/smoker_app/src/smoker_application.cpp:75-112 | Exactly when a command is refused, and that a queue stays within its bounds |
| CommandEffects.EffectFacts | components/smoker_app/src/smoker_application.cpp:310-500 | Of all commands only Start begins and only Stop ends a run, only Clear ends a fault, only Prepare and Finish move the firmware interlock, and each adds at most one event |
| CommandEffects.BatchRuns | components/smoker_app/src/smoker_application.cpp:269-308 | A batch ends with another run than it began with exactly when a Start among it was accepted |
| SmokerApplication.SmokerApplication.Submit | components/smoker_app/src/smoker_application.cpp:75-112 | A refused command has its negative verdict at once; ids stay balanced between verdicts, queue and displacement |
| SmokerApplication.SmokerApplication.AcquireRawInputs | components/smoker_app/src/smoker_application.cpp:596-610 | The chamber sensor and every enabled probe are asked once, in order, and each temperature is the answer; a disabled probe has none |
| SmokerApplication.SmokerApplication.Process | components/smoker_app/src/smoker_application.cpp:310-500 | A command is accepted exactly when permitted, changes exactly what it asks for, and otherwise only emits its rejection |
| SmokerApplication.SmokerApplication.ProcessPendingCommands | components/smoker_app/src/smoker_application.cpp:269-308 | The queue is served in order up to the first accepted Stop, each entry with its effect and one verdict shared by all its ids; the rest waits |
| SmokerApplication.BalancedAfterSubmit | components/smoker_app/src/smoker_application.cpp:75-112 | Submitting keeps the balance: every id answered, waiting or displaced |
| SmokerApplication.BalancedAfterEntry | components/smoker_app/src/smoker_application.cpp:269-308 | So does answering an entry: each waiting id gets exactly one verdict |
| SmokerApplication.SmokerApplication.RecordCommandResult | components/smoker_app/src/smoker_application.cpp:821-838 | The results list is always the last sixteen verdicts, in order |
| SmokerApplication.SmokerApplication.EvaluateProbeStates | components/smoker_app/src/smoker_application.cpp:612-662 | Every sampled probe's connection flags, its two alarms (with id and time) and its events are what its reading and session make them, probe by probe in order; other probes keep theirs |
| SmokerApplication.SmokerApplication.UpdateActiveTimer | components/smoker_app/src/smoker_application.cpp:664-693 | The session's timer makes its step; TimerStarted is emitted exactly when it starts, TimerDone exactly when it completes, and completion stops the session or raises its alarm |
| SmokerApplication.SmokerApplication.ServeController | components/smoker_app/src/smoker_application.cpp:144-163 | Exactly which controller calls are made: a request if eligible, a reset after a failed one or for an active controller no longer eligible |
| SmokerApplication.SmokerApplication.RetryReset | components/smoker_app/src/smoker_application.cpp:138-143 | A standing failure is retried by exactly one reset per cycle until one succeeds |
| SmokerApplication.SmokerApplication.RaiseFault | components/smoker_app/src/smoker_application.cpp:725-742 | The first fault is latched with its time, ends a running session and resolves all alarms; later ones change nothing |
| SmokerApplication.SmokerApplication.Judge | components/smoker_app/src/smoker_application.cpp:165-185 | The last word of a cycle: the hazard seen is latched before a controller failure, and a controller made ineligible is reset |
| SmokerApplication.SmokerApplication.Tick | components/smoker_app/src/smoker_application.cpp:114-193 | One cycle from sampling to heater write: chamber and probe temperatures are what their sensors answered in this cycle; commands, probes, timer and safety change the state in this order, each exactly as stated, and the events of the cycle are theirs in this order; a nonzero write needs a running session, no fault, no update, a valid configuration, a reading at most the maximum and a target, and equals the controller's answer of this cycle; an accepted Stop writes OFF; an active controller is eligible; the elapsed time shown is that of the session before safety ruled; alarms and events stay within their reserved sizes |
| CycleEvents.ProbesAreTold | components/smoker_app/src/smoker_application.cpp:612-662 | Whatever commands and faults a cycle had: it reports ProbeDisconnected for a probe exactly if it was read without a temperature and was new or connected, ProbeConnected exactly if it was new and has one, ProbeReconnected exactly if it has one again, and ProbeTargetReached exactly if a session runs and the armed target is reached for the first time |
| CycleEvents.TimerIsTold | components/smoker_app/src/smoker_application.cpp:664-693 | A cycle reports TimerStarted exactly if the timer was not started and now is, and TimerDone exactly if it was not completed and now is |
| SmokerApplication.BatchFirmware | components/smoker_app/src/smoker_application.cpp:479-500 | The interlock after a batch depends on nothing but its Prepare and Finish commands |
| ControlAlarms.AtMost | components/smoker_app/src/smoker_application.cpp:764-784 | Alarms are unique by cause, hence at most two per probe and one for the timer |
| ControlAlarms.RaisedFacts | components/smoker_app/src/smoker_application.cpp:764-784 | Raising reuses the entry of the same cause and leaves all other causes as they were |
| ControlTrace.ResetBetweenRuns | components/smoker_app/src/smoker_application.cpp:144-177 | In a lawful history there is a reset between controller requests for different sessions |
| ControlTrace.FailureForbidsRequests | components/smoker_app/src/smoker_application.cpp:137-185 | After a failed request or reset no request is made until the failure was latched, resolved by a successful reset and cleared |
| ControlTrace.SoundAgain | components/smoker_app/src/smoker_application.cpp:460-477 | What must have happened since a failure for the controller to count as sound again |
| ControlTrace.EveryWriteIsSafe | components/smoker_app/src/smoker_application.cpp:114-193 | In every history each nonzero heater write was made with a running session, no fault, no update, a valid configuration, a reading at most the maximum and a target; it equals the controller's answer, and the reading is the last answer of the chamber sensor, both of the same cycle |
| ControlTrace.EveryRequestIsFresh | components/smoker_app/src/smoker_application.cpp:144-151 | Every controller request is made with the last answer of the chamber sensor, given in the same cycle |
| CommandTransport.SpscCommandMailbox.Push | components/smoker_app/src/command_mailbox.cpp:8-37 | Admits unless full, keeping the last slot for Stop, while the consumer pops at any time; sequences wrap at 32 bits |
| CommandTransport.SpscCommandMailbox.TryPop | components/smoker_app/src/command_mailbox.cpp:39-61 | Pops the oldest admitted command, while the producer pushes at any time |
| CommandTransport.RoundRobinCommandDrain.Drain | components/smoker_platform/src/runtime_transport_support.cpp:64-118 | Both mailboxes are served in FIFO order within the budget and up to a Stop; the preference alternates and the other mailbox is served only when the preferred one held nothing; everything submitted is admitted |
| CommandTransport.ServedWithinTwoPops | components/smoker_platform/src/runtime_transport_support.cpp:74-116 | A mailbox that holds a command when a pop begins is served by this pop or the next one |
| CommandTransport.DrainsJoin | components/smoker_platform/src/runtime_transport_support.cpp:64-118 | The turns continue over successive drains, so the two pops may lie in different cycles |
| ControlLoop.ControlTask.Cycle | components/smoker_platform/src/ordinary_runtime.cpp:259-292 | A cycle takes exactly the Prepare and the Finish that were signalled, admits and answers them and every drained command, drains until the budget is used up, a Stop came or both mailboxes were found empty, and leaves the application queue empty |
| ControlLoop.ControlTask.SubmitSignals | components/smoker_platform/src/ordinary_runtime.cpp:259-281 | Both signals are looked at once, in this order, what was raised is taken away, and exactly that is submitted |
| ControlLoop.FinishReleases | components/smoker_platform/src/ordinary_runtime.cpp:272-281 | A cycle that consumes a Finish ends with the interlock released |
| ControlLoop.NothingLeft | components/smoker_platform/src/ordinary_runtime.cpp:259-292 | The only Stop of a batch is its last command, so the Stop barrier leaves nothing behind |
| FirmwarePermission.InstallingIsInterlocked | components/smoker_platform/src/firmware_update_service.cpp:743-769 | In every interleaving, while an image is installed the interlock is held, no session runs and no Finish is under way |
| FirmwarePermission.FinishIsNeverStale | components/smoker_platform/src/firmware_update_support.cpp:268-337 | A consumed Finish releases the interlock and never meets an installation that was granted later |
| FirmwarePermission.StepHolds | components/smoker_platform/src/firmware_update_service.cpp:598-670 | Every step of requesters, the update task and the control task keeps the protocol's invariant |
| FirmwarePermission.InspectDecides | components/smoker_platform/src/firmware_update_support.cpp:318-337 | An inspection of a snapshot that has a verdict for the awaited permission among its sixteen newest begins to install if the first such verdict is positive and the interlock is shown; otherwise the coordinator fails and a Finish is handed over |
| FirmwarePermission.InspectWaits | components/smoker_platform/src/firmware_update_support.cpp:318-337 | Without such a verdict, or in any other state, an inspection changes nothing |
| FirmwarePermission.RequestAdmittedIff | components/smoker_platform/src/firmware_update_service.cpp:598-643 | A request changes anything exactly in state Available, with no running session seen and no Prepare pending; then its id is awaited and signalled |
| FirmwarePermission.CycleDecides | components/smoker_platform/src/firmware_update_service.cpp:598-670 | In every run: the first inspection that shows the verdict a cycle gave begins to install exactly if the verdict was positive and that cycle had taken no Finish; otherwise it ends in Failed with a Finish |
| FirmwarePermission.StateMoves | components/smoker_platform/src/firmware_update_support.cpp:220-375 | The coordinator goes from state to state along thirteen transitions and no others |
| FirmwarePermission.LeakExactlyByOvertaking | components/smoker_platform/src/firmware_update_service.cpp:757-769 | A step gives up a permission for good exactly when a timeout overtakes the Prepare of its own request |
| FirmwarePermission.RunDoesNotLeak | components/smoker_platform/src/firmware_update_service.cpp:757-769 | A run without such a timeout always has an owner, or a Finish under way, for a held interlock |
| FirmwarePermission.PermissionCanLeak | components/smoker_platform/src/firmware_update_service.cpp:757-769 | A concrete interleaving that ends with a leaked permission |
| FirmwarePermission.LeakStays | components/smoker_platform/src/firmware_update_support.cpp:281-316 | A leaked permission stays until another installation is requested |
| SnapshotExchange.LeaseViewsOnePublish | components/smoker_app/src/snapshot_exchange.cpp:65-130 | In every interleaving a lease views exactly one complete publish |
| SnapshotExchange.LeaseIsLatest | components/smoker_app/src/snapshot_exchange.cpp:116-130 | It is the latest publish at the moment of its validation |
| SnapshotExchange.UndisturbedIsLeased | components/smoker_app/src/snapshot_exchange.cpp:116-130 | In every run a reader that loads the published slot and validates it, with no publish stored in between, is granted a lease on the latest publish, whatever all other tasks do meanwhile |
| SnapshotExchange.RefusedOnlyByPublish | components/smoker_app/src/snapshot_exchange.cpp:116-130 | In every run a reader is refused only if a publish was stored since the load that its attempt began with |
| SnapshotExchange.NobodyWaits | components/smoker_app/src/snapshot_exchange.cpp:65-130 | Every reader and the publisher can make their next access in every reachable state |
| SnapshotExchange.StoredAsHandedOver | components/smoker_app/src/snapshot_exchange.cpp:65-114 | In every run the readers are shown, by each stored publish, exactly the snapshot that publish was called with |
| SnapshotExchange.LeasedSlotIsNotWritten | components/smoker_app/src/snapshot_exchange.cpp:65-114 | No step of any task writes a leased slot |
| SnapshotExchange.ScanSkipsOnlyReadSlots | components/smoker_app/src/snapshot_exchange.cpp:65-114 | The scan passes over a slot other than the published one only while a reader is inside it |
| SnapshotExchange.DroppedOnlyWhileRead | components/smoker_app/src/snapshot_exchange.cpp:65-114 | In every run a publish is dropped only if it exceeds the capacity, or each slot but the published one had a reader inside it at the step of the same scan that passed it over |
| FoodProbes.CheckAcquisition | components/smoker_platform/src/ads1115_food_probe_source.cpp:170-217 | The nested loops accept exactly the valid acquisitions, stated without loops |
| FoodProbes.MinimumTimeout | components/smoker_platform/src/ads1115_food_probe_source.cpp:154-168 | The least whole number of milliseconds that covers a conversion at nine tenths of the nominal rate |
| FoodProbes.ProbeSource.Service | components/smoker_platform/src/ads1115_food_probe_source.cpp:239-247 | Each bounded step is the one its calls' answers decide; every cached sample keeps its provenance |
| FoodProbes.ProbeSource.StartNextConversion | components/smoker_platform/src/ads1115_food_probe_source.cpp:272-309 | A converter is configured and started only when known idle; an unsynchronized one is polled first |
| FoodProbes.ProbeSource.PollActiveConversion | components/smoker_platform/src/ads1115_food_probe_source.cpp:311-346 | A failing or overdue device is quarantined; a sample is taken only from the conversion this source started with the channel's settings |
| FoodProbes.ProbeSource.Read | components/smoker_platform/src/ads1115_food_probe_source.cpp:249-265 | A probe with a sample costs one clock reading, and its temperature is handed out exactly when the sample is recent at that instant |
| FoodProbes.ProbeSource.OneSample | components/smoker_platform/src/ads1115_food_probe_source.cpp:204-210 | Whatever sample a probe of a valid configuration has is the one that a read looks at |
| Provisioning.SetFrameParses | tools/provision_blynk.py:37-58 | Feeding a printed SET frame at a frame boundary yields its configuration exactly at the last byte, and a frame boundary again |
| Provisioning.PlainFrameParses | tools/provision_blynk.py:47-58 | The same for frames without a payload |
| Provisioning.RefusedLineRecovers | components/smoker_platform/src/blynk_provisioning_support.cpp:296-329 | For a caller that leaves errors waiting: a refused header line ends between frames exactly when no error was waiting, the line was empty, or it announced too long a payload |
| Provisioning.WaitingErrorSticks | components/smoker_platform/src/blynk_provisioning_support.cpp:310-315 | Two refused lines after which the parser alone is inside a line, and the serviced parser is not |
| Provisioning.ServiceRecovers | components/smoker_platform/src/blynk_service.cpp:358-374 | For all received bytes, a newline outside a payload that opens none ends between frames |
| Provisioning.FrameAfterAnything | components/smoker_platform/src/blynk_service.cpp:358-374 | After all received bytes and such a newline, a printed SET frame yields its configuration exactly at its last byte |
| Provisioning.ServiceUart | components/smoker_platform/src/blynk_service.cpp:358-374 | The service's loop feeds the parser every byte and never leaves an error waiting |
| Provisioning.BlynkProvisioningParser.Consume | components/smoker_platform/src/blynk_provisioning_support.cpp:296-329 | The buffer-and-counter parser makes the steps of the parser stated on values |
| Provisioning.BlobRoundTrip | components/smoker_platform/src/blynk_provisioning_support.cpp:131-192 | A persisted configuration is read back byte for byte if valid, and not at all otherwise |
| WifiNetworks.CurateWifiNetworks | components/smoker_platform/src/local_network_support.cpp:533-597 | At most twenty distinct names, each with its strongest record, ordered by strength and then name; truncated exactly when there were more than twenty names |
| WifiNetworks.CuratedMeans | components/smoker_platform/src/local_network_support.cpp:533-597 | Every scanned name is kept with its strongest record or is no stronger than anything kept |
| WifiNetworks.SanitizeSsid | components/smoker_platform/src/local_network_support.cpp:88-140 | The one-pass loop replaces every byte outside printable ASCII and well-formed UTF-8, so that only printable characters and bytes of multi-byte sequences are left |
| WifiNetworks.CleanTwice | components/smoker_platform/src/local_network_support.cpp:88-140 | A sanitized name is not changed by sanitizing it again |

## Left out

- HistoryLog.CircularHistoryLog.Append: requires an observation that round-trips (at most 256 probes and 256 alarms, durations not negative); without that the promise is false, as stated above.
- HistoryRuns.Lifetime: the same restriction on the observations handed over.
- HistoryLog.CircularHistoryLog.BeginSession: the same restriction; history ids, generations and sequence numbers are unbounded naturals that must still be in their 64-bit and 32-bit ranges; their wrap-around is not modelled.
- HistoryLog.CircularHistoryLog.Initialize: of the geometry checks only the empty flash is modelled; sector size and divisibility hold by the types.
- HistoryLog.CircularHistoryLog.Samples: sorting by generation is an insertion, not the library's sort; the index of periodic samples does not wrap.
- Session listing, `contains_session` and `health` of the log: folds over the same page reads as a sample query.
- The history task (its queue of requests, write policy and retries): the log is called by one task.
- HistoryMailbox.HistoryObservationMailbox.Observe: assumes that session ids are not reused, that an ended session does not run again, and that a running snapshot names its session; snapshot fields without influence on admission are summarized.
- SmokerApplication.SmokerApplication.Tick: temperatures and demands are reals; sensors, controller and clock answer anything, and the clock need not be monotone; recipe names, event delivery and the snapshot caches are left out.
- SmokerApplication.SmokerApplication.ProcessStart: the previous recipe that the code parks in the queue slot is not modelled; the command ring is a class of its own here.
- ControlLoop.ControlTask.Cycle: snapshot publication, the history mailbox, readiness and timing are not part of the cycle modelled; the retries after a refused Prepare or Finish are proved unreachable.
- CommandTransport.RoundRobinCommandDrain.Drain: whether a Blynk connection generation is still current is an arbitrary answer.
- FirmwarePermission.StepHolds: download, verification and reboot are one step that eventually fails or reboots; permission ids are taken to be fresh; validation of the running image is reduced to entering and leaving its state.
- SnapshotExchange.LeaseViewsOnePublish: the lists of a snapshot (probes, alarms, command results) are one list with one capacity; sequentially consistent steps; acquire and release orderings are not modelled, nor that a reader's retry loop ends.
- FoodProbes.ProbeSource.Service: converters, clock and temperature conversion are oracles; a not-busy answer is taken to be truthful.
- Provisioning.SetFrameParses: lengths are unbounded naturals where the code has a 32-bit size; the serial exchange of the tool is not modelled.
- WifiNetworks.CurateWifiNetworks: sorting is an insertion, and names are compared without their terminator.
- Semantic version parsing, image metadata, monotonic deadlines and the run-time id generator: single-branch or easy members.
- Wi-Fi, HTTP, MQTT, NVS and OTA transport code, drivers and bring-up, rate limiting, session cookies, DNS and query parsing: input and output over libraries that are not part of this model.
