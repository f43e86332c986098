# A verified model of the agent platform's hard parts

The platform runs agents in microVMs. A controller reconciles them from a queue per
worker, a VM runner on each node boots them, watches their consoles and admits them
into its memory, and the api-server keeps their records. This project models, in
Dafny, the parts of that system whose correctness spans many steps, and proves what
they are there for.

| file | what it models |
|---|---|
| `AgentQueue.dfy` | one worker's queue with an urgent and a background lane, on the semantics of client-go's work queue |
| `ShardedQueue.dfy` | the eight queues, their workers and their callers, interleaved in any way |
| `Lines.dfy`, `RoomMarks.dfy` | console bytes, lines and the guest's room marks |
| `ConsoleTrim.dfy`, `ConsoleTrimCases.dfy` | the cut of a console log while the VMM appends to it, and the three kinds of log on which it changes the answer |
| `ConsoleReader.dfy` | reading a growing log from a saved offset |
| `ProbeProtocol.dfy` | a probe that reads the log outside the lock while a cut may rewrite it and a boot start a new one |
| `CutAndProbe.dfy` | a cut and the probe after it, put together |
| `Capacity.dfy` | memory admission over any run of boots, stops and measurements |
| `Duration.dfy` | the port of Go's duration parser and its projection to minutes |
| `Rollback.dfy`, `RollbackCommand.dfy` | the rollback of the agent store, beside Kubernetes' garbage collector |
| `Schema.dfy` | the schema shorthand and what a JSON Schema validator makes of it |
| `ChunkedBody.dfy`, `ResponseHead.dfy` | the reading of an HTTP response: its head, and a body in chunks |
| `Eviction.dfy` | the choice of cached images to evict |
| `CpuWindow.dfy` | the last minute of CPU readings |
| `AtomicWrite.dfy` | replacing a file so that a crash leaves the old one or the new one |
| `Wrappers.dfy` | what the modules share: the option type, a saturating subtraction, two facts about sequences |

Protocols are state machines: a datatype of states, a datatype of steps, when a step
can happen and what it does, and theorems over every sequence of steps. Code that
changes things in place is a class or a method with loops, proved equal to the
function or to the state machine the theorems are about.

What the model takes as given, because it lies outside the code:

- A Kubernetes or file-system call may fail at any point; which ones do is a parameter (`Host`).
- The VMM's writes during a cut are a parameter (`Writer`), as are the hash that picks a shard and the owner of a name.
- The floating-point step of the duration parser is a parameter (`Reading.fraction`): the theorems hold for every rounding.
- A JSON Schema validator is any function that obeys the rules of sections 6.1.1 and 6.5.3 of JSON Schema Validation 2020-12 and sections 10.3.1.2, 10.3.2.1 and 10.3.2.3 of JSON Schema Core 2020-12; `Schema.ReferenceConforms` shows there is one.
- After a power loss an unsynced file holds anything, and each name is what it was at some point since the directory was synced.

Where the code and its promises part, the code is modelled, a lemma gives an input, and
the exact condition is proved:

- A chunk extension makes the decoder refuse the whole body, although section 7.1.1 of RFC 9112 has a recipient ignore the ones it does not know (`ChunkedBody.AnExtensionIsRefused`; exactly when: `ChunkedBody.ChunksAreDecodedUnlessExtended`).
- A transfer encoding that lists more than chunked is not decoded, although section 6.1 of RFC 9112 allows such a list as long as chunked is its last (`ResponseHead.ListOfCodingsIsNotDecoded`; exactly when: `ResponseHead.BodyIsDecodedExactlyWhenChunked`).
- A cut can change what is read of the guest's room in three ways. Its window starts at a byte, not at a line: if that is behind the stamp of an old mark, the half that is left has no stamp and is read instead of a newer mark ahead of it (`ConsoleTrimCases.HalfAMarkIsReadAsNewest`, `ConsoleTrimCases.GuestWithRoomReadsFull`). The newest mark may be on a line too far back to be kept (`ConsoleTrimCases.MarkTooFarBackIsLost`, `ConsoleTrimCases.FullGuestReadsAsNothing`). And it may land between a read and the emptying after it, which loses it (`ConsoleTrimCases.MarkAtAnEmptyingIsLost`, `ConsoleTrimCases.LostRoomReadsFull`). The source knows of that loss and counts on the guest to say it again; that this repairs all three is `CutAndProbe.RepeatedMarkIsHeld`. `ConsoleTrim.CutKeepsTheNewestMark` says exactly when the cut file gives the newest mark of the whole log, lost bytes included, from where that mark stands in the log and from the two halves of the line the window starts in; its hypotheses are that the VMM writes whole lines, that the log was measured between two of them, and that every mark of the log has a stamp of its own. `CutAndProbe.ProbeAfterACut` carries that to what the runner holds once a probe went through. `ConsoleTrim.CutReadsTheNewestMark` compares the cut file with the kept bytes in the order they were written, and so needs a stamp on every mark among those, halves included.
- A log that shrank and grew past the saved offset again is not read whole (`ConsoleReader.RegrownLogIsMissed`; exactly when: `ConsoleReader.ShrunkLogIsReadWhole`). The probe protocol does not rely on it.
- A probe that takes a new boot's figures and reads the log before that boot empties it makes the old boot's room the new one's (`ProbeProtocol.OldBootCanBePublished`). Exactly when: `ProbeProtocol.BootIsToldOfTheLast`, from what the probes did between the boot's recording and the emptying, one that has read and is not through included. `ProbeProtocol.PublishedRoomIsCurrent` leaves out such a boot up to the next cut or boot, and nothing else.
- Committed memory can pass the limit when a restart is given up, because a restart is admitted at the warm-up floor (`Capacity.AbandonedRestartCanOvercommit`; exactly when: `Capacity.WhenGivingUpRaises`).
- A rollback whose requests all go through does not finish while a ConfigMap that is named like an anchor and carries a restored Agent's label references an anchor: the re-point passes it over and the check does not (`RollbackCommand.AnchorCanLean`; exactly then, but for what the collector takes: `RollbackCommand.Install.Rollback`).
- A write that returns an error may have replaced the file (`AtomicWrite.ErrorCanLeaveTheNewFile`): exactly when it got to its rename, so that only the directory's sync failed (`AtomicWrite.Runner.Write`).

`dafny verify dfyconfig.toml` checks the project.

## Model

| member | source | states |
|---|---|---|
| `AgentQueue.ReachableIsConsistent` | packages/controller/main.go:641-728 | in every state of every run both lanes are duplicate-free and disjoint, and hold exactly the dirty names that are not being reconciled |
| `AgentQueue.StepKeepsConsistent` | packages/controller/main.go:652-728 | every step keeps that invariant |
| `AgentQueue.PromotionStands` | packages/controller/main.go:675-709 | a promotion stays pending until the name is in the urgent lane, and only a pop takes it from there |
| `AgentQueue.UrgentAddIsDelivered` | packages/controller/main.go:652-655 | whatever runs between and after the two steps of an urgent add, the name is owed urgently or was popped from the urgent lane after its promotion |
| `AgentQueue.AddIsNotLost` | packages/controller/main.go:657-665 | an accepted add stays dirty until the name is handed out |
| `AgentQueue.UrgentNameIsServedInTurn` | packages/controller/main.go:687-728 | a name at position p of the urgent lane is handed out by exactly the (p+1)-th later pop, whatever is added |
| `AgentQueue.BackgroundIsFirstInFirstOut` | packages/controller/main.go:700-728 | two waiting background names keep their order, the later is never handed out first, and a background name is popped only when the urgent lane is empty |
| `AgentQueue.NoNameGetsAhead` | packages/controller/main.go:700-728 | a name that is not ahead of a waiting background name, and comes and goes as it will, stands behind it whenever both wait there, and is handed out before it from the urgent lane only |
| `AgentQueue.BackgroundNameIsServedInTurn` | packages/controller/main.go:687-728 | a name at position p of the background lane never falls back, and the pop that finds the urgent lane empty after p such pops hands it out at the latest |
| `AgentQueue.PromotionIsSpentOnce` | packages/controller/main.go:675-709 | over every run the deliveries a name had from the urgent lane, and what it still has coming there, are no more than its promotions: each is used up once, and an unpromoted name is never urgent |
| `AgentQueue.ClosingQueueTakesNothing` | packages/controller/main.go:641-665 | a queue that is closing stays so and takes no name it did not owe a round already |
| `AgentQueue.AgentLanes.Touch` | packages/controller/main.go:687-698 | a promoted background name moves to the end of the urgent lane, and the promotion is used up |
| `AgentQueue.AgentLanes.Push` | packages/controller/main.go:700-709 | a promoted name joins the end of the urgent lane and its promotion is used up, any other the end of the background lane |
| `AgentQueue.AgentLanes.Pop` | packages/controller/main.go:717-728 | the front of the urgent lane, else of the background lane, is removed and its lane remembered |
| `AgentQueue.WorkQueue.Add` | packages/controller/main.go:641-665 | an add is the specification's step: pushed, touched, or only marked dirty while the name is reconciled |
| `AgentQueue.WorkQueue.Get` | packages/controller/main.go:520-526 | a get hands out the front name and marks it processed, as the specification's step; a queue that is empty and closing answers shutdown and stays as it is |
| `AgentQueue.WorkQueue.Done` | packages/controller/main.go:529-529 | done pushes a name that became dirty meanwhile, as the specification's step |
| `AgentQueue.WorkQueue.AddUrgent` | packages/controller/main.go:652-655 | promotion then add, after which the name is owed urgently; the invariant is kept |
| `AgentQueue.WorkQueue.Enqueue` | packages/controller/main.go:657-665 | an empty name does nothing, a background one adds, any other adds urgently |
| `AgentQueue.WorkQueue.Round` | packages/controller/main.go:520-563 | one round of the worker; a failed one comes back urgent exactly when its round was urgent or an urgent add came before |
| `ShardedQueue.ShardRefinesQueue` | packages/controller/main.go:570-633 | under any interleaving of callers, workers and cache changes, each shard goes through an execution of one queue |
| `ShardedQueue.EveryRunKeeps` | packages/controller/main.go:520-633 | each name is known only to its owner's shard, each worker holds what its shard processes, and the lane it read describes the name it got |
| `ShardedQueue.OneReconcilePerOwner` | packages/controller/main.go:566-633 | two workers never reconcile agents of one owner at once, no name is in two shards, and each is in the one of the eight its owner's hash picks |
| `ShardedQueue.RoundCanAlwaysEnd` | packages/controller/main.go:520-563 | a worker never gets stuck: it can take the front name, read its lane, reconcile it and finish, whether that failed or not |
| `ShardedQueue.CallCanAlwaysEnd` | packages/controller/main.go:652-655 | a call can always promote and then add its name, and is over with that |
| `ShardedQueue.ShardIsShutDown` | packages/controller/main.go:621-625 | each shard is shut down on its own and for good, and takes no new name after that |
| `ShardedQueue.UrgentCallIsDelivered` | packages/controller/main.go:609-613 | an urgent call that made both its steps is delivered urgently by its owner's worker |
| `ShardedQueue.UrgentCallGoesThrough` | packages/controller/main.go:583-613 | at every point after an urgent call for a cached name, the call has a step of its own to make at the name's shard, or the name is owed an urgent round there or got one |
| `ShardedQueue.CallGoesThrough` | packages/controller/main.go:583-607 | the same of any other call and any round |
| `ShardedQueue.UncachedCallIsDropped` | packages/controller/main.go:583-613 | a call for a name the cache does not hold changes nothing |
| `ShardedQueue.FailedUrgentRoundRetriesUrgently` | packages/controller/main.go:541-545 | a failed urgent reconcile's retry is delivered urgently |
| `ShardedQueue.FailedRoundIsRetried` | packages/controller/main.go:540-545 | at every point after a failed reconcile its retry is still to come, or the name is owed a round or got one, an urgent one if the failed one was |
| `RoomMarks.NewestIsTheOneStanding` | packages/vm-runner/src/console.rs:41-65 | for any marks, stamped or not, the one read is the only one that no later mark supersedes, and there is one as soon as there is a mark |
| `RoomMarks.NewestIsLatest` | packages/vm-runner/src/console.rs:41-65 | with all marks stamped, the one read has the latest stamp |
| `RoomMarks.OneLineSays` | packages/vm-runner/src/console.rs:41-65 | a line alone says full with the full mark, not full with one of the others only, and nothing without a mark |
| `RoomMarks.OrderDoesNotMatter` | packages/vm-runner/src/console.rs:41-65 | with all marks stamped, the answer depends on which marks there are and not on where they stand |
| `RoomMarks.StraysDecide` | packages/vm-runner/src/console.rs:41-65 | between marks none of which is newer than one of them, marks of any kind leave that one read if and only if it comes after them and they hold nothing newer, or they carry it through |
| `RoomMarks.MarksOfJoin` | packages/vm-runner/src/console.rs:41-65 | the marks of whole lines joined are the marks of each part in order |
| `RoomMarks.ReadRoomFull` | packages/vm-runner/src/console.rs:41-65 | the loop over the lines returns the fullness of the newest mark |
| `ConsoleTrim.FitIsLongest` | packages/vm-runner/src/console.rs:225-238 | of the kernel's lines before the window, the longest run of last ones within 8192 bytes is kept |
| `ConsoleTrim.KeptIsBounded` | packages/vm-runner/src/console.rs:224-243 | what is kept is at most 73728 bytes |
| `ConsoleTrim.WindowIsTheEnd` | packages/vm-runner/src/console.rs:224-242 | the window is the last 65536 bytes of the log as measured, or all of it |
| `ConsoleTrim.KernelLinesAre` | packages/vm-runner/src/console.rs:227-238 | ahead of it exactly the lines with the kernel's log target are looked at |
| `ConsoleTrim.PassesCollect` | packages/vm-runner/src/console.rs:248-259 | the passes put together, in order, everything written before the last emptying |
| `ConsoleTrim.PassesStop` | packages/vm-runner/src/console.rs:248-259 | the passes go on until one reads nothing, or for four |
| `ConsoleTrim.CutKeepsEveryWrite` | packages/vm-runner/src/console.rs:223-263 | every byte written past the size and after each emptying is in the final file exactly once, and where |
| `ConsoleTrim.QuietCutIsBounded` | packages/vm-runner/src/console.rs:223-263 | with nothing appended the file becomes the kept bytes, at most 73728 |
| `ConsoleTrim.CutMovesMarks` | packages/vm-runner/src/console.rs:223-263 | wherever the window starts, the cut changes the order of the marks it keeps and nothing else about them |
| `ConsoleTrim.CutReadsTheNewestMark` | packages/vm-runner/src/console.rs:223-263 | with a stamp on every mark among them, the cut file answers what the kept and later bytes answer in the order they were written |
| `ConsoleTrim.FitOfJoin` | packages/vm-runner/src/console.rs:227-238 | a kernel line ahead of the window is kept exactly if it and all after it, the half line included, are within 8192 bytes |
| `ConsoleTrim.MarksOfTrimmed` | packages/vm-runner/src/console.rs:223-263 | the marks of the cut file in its order: those ahead of the two halves of the line the window starts in, those of the halves, and those behind |
| `ConsoleTrim.CutKeepsTheNewestMark` | packages/vm-runner/src/console.rs:223-263 | the cut file gives the newest mark of everything the VMM wrote if and only if that mark is in a later write no emptying lost, in the window or on a kept kernel line, and the two halves do not stand in its way |
| `ConsoleTrim.UnstampedHalfDecides` | packages/vm-runner/src/console.rs:223-263 | with the window behind a mark's stamp, the newest mark is read if and only if it stands behind that half |
| `ConsoleTrim.NoMarkAppears` | packages/vm-runner/src/console.rs:223-263 | a log without a mark is cut to one without a mark |
| `ConsoleTrimCases.HalfAMarkIsReadAsNewest` | packages/vm-runner/src/console.rs:223-263 | every log whose window starts between an old mark's stamp and its word, whatever stands ahead of that: the half is read instead of a newer mark that was kept |
| `ConsoleTrimCases.GuestWithRoomReadsFull` | packages/vm-runner/src/console.rs:223-263 | a concrete such log, of lines as the VMM writes them: a guest with room reads as full |
| `ConsoleTrimCases.MarkTooFarBackIsLost` | packages/vm-runner/src/console.rs:225-238 | every log whose newest mark has more kernel bytes behind it than are kept: no mark is left |
| `ConsoleTrimCases.FullGuestReadsAsNothing` | packages/vm-runner/src/console.rs:225-238 | a concrete such log: of a full guest nothing is read |
| `ConsoleTrimCases.MarkAtAnEmptyingIsLost` | packages/vm-runner/src/console.rs:245-259 | every log that is all window and every mark that lands between the read and the emptying: the cut leaves the log without it |
| `ConsoleTrimCases.LostRoomReadsFull` | packages/vm-runner/src/console.rs:245-259 | a concrete such log: a guest with room reads as full |
| `ConsoleTrim.CollectKernel` | packages/vm-runner/src/console.rs:227-238 | the deque ends as the longest fitting run of the kernel's lines |
| `ConsoleTrim.Collect` | packages/vm-runner/src/console.rs:246-259 | the passes leave the file and the collected bytes as specified |
| `ConsoleTrim.TrimWith` | packages/vm-runner/src/console.rs:223-263 | the whole cut, with the VMM appending wherever it can, leaves the specified file |
| `ConsoleReader.ReadIsWholeLines` | packages/vm-runner/src/console.rs:76-96 | a read stops at a line, misses no whole line and leaves only the line being written |
| `ConsoleReader.EveryLineIsDeliveredOnce` | packages/vm-runner/src/console.rs:76-96 | over any appends and reads of a growing log, what was delivered is exactly its lines up to the saved offset, each once |
| `ConsoleReader.ShrunkLogIsReadWhole` | packages/vm-runner/src/console.rs:76-96 | all whole lines of a log are read if and only if it is shorter than the offset, the offset is zero, or it has none |
| `ConsoleReader.RegrownLogIsMissed` | packages/vm-runner/src/console.rs:76-96 | every log that grew past the saved offset again: the lines up to the offset are not read |
| `ConsoleReader.KernelSince` | packages/vm-runner/src/console.rs:76-96 | the read; a log that cannot be opened keeps the offset, one whose length cannot be told is read from the start, and one that cannot be read gives nothing |
| `ProbeProtocol.EveryInterleavingKeeps` | packages/vm-runner/src/server.rs:2655-2696 | over every run of appends of any bytes, cuts that leave any log, boots and probes: a probe is never ahead of the machine and starts where it stopped, and the offset, the room and what a current probe has read fit the log, unless the last boot was told of the one before |
| `ProbeProtocol.MachineIsFree` | packages/vm-runner/src/server.rs:2655-2696 | the runs leave nothing out: a log may be cut to anything and a boot recorded at any time, and while either is at it anything may be appended |
| `ProbeProtocol.PublishedRoomIsCurrent` | packages/vm-runner/src/server.rs:2655-2696 | outside a cut and a boot the offset is a line boundary of the log as it is and the published room is the newest mark before it, lines being written left for later, unless the last thing done to the log was a boot told of the one before |
| `ProbeProtocol.ProbeCatchesUp` | packages/vm-runner/src/server.rs:2655-2696 | in every such state a probe that nothing comes between reads all whole lines and leaves the view at the newest mark of the log |
| `ProbeProtocol.FullWasRead` | packages/vm-runner/src/server.rs:1873-1881 | a guest that booted counts as full only if a probe since then read that it is |
| `ProbeProtocol.LateProbeIsDropped` | packages/vm-runner/src/server.rs:2673-2696 | a probe that began before a cut or a boot publishes nothing after it |
| `ProbeProtocol.OldBootCanBePublished` | packages/vm-runner/src/server.rs:1873-1881 | a run that ends so: a probe of a new boot reads the log before it is emptied, and the old boot's room and offset are held of the new one |
| `ProbeProtocol.StaleBootIsSeen` | packages/vm-runner/src/server.rs:1873-1881 | emptying the log leaves the view current, and current once a probe that has read is through, if and only if nothing read off the old log is held or pending |
| `ProbeProtocol.OffsetSinceBoot` | packages/vm-runner/src/server.rs:2655-2696 | since a boot was recorded the offset is past the start if and only if a current probe published one and no cut and no publication came after |
| `ProbeProtocol.PendingSinceBoot` | packages/vm-runner/src/server.rs:2655-2696 | since a boot was recorded a stale reading is pending if and only if a current probe read some lines and neither published nor was dropped by a cut |
| `ProbeProtocol.BootIsToldOfTheLast` | packages/vm-runner/src/server.rs:1873-1881 | over every run: a boot's emptying leaves the view current, pending probe included, if and only if no probe of that boot read the old log and stands published or pending |
| `CutAndProbe.ProbeAfterACut` | packages/vm-runner/src/server.rs:2655-2696 | after a cut and one probe the runner holds what the cut file says, and that is the newest mark of everything written exactly under the condition of the cut |
| `CutAndProbe.RepeatedMarkIsHeld` | packages/vm-runner/src/console.rs:245-263 | whatever a cut did, lines with a mark written behind it and not older decide what the runner holds after one probe |
| `Capacity.NeverAboveItsSize` | packages/vm-runner/src/capacity.rs:63-106 | a machine that is in flight, or whose spec reads, never counts above its size |
| `Capacity.ReadableCounts` | packages/vm-runner/src/capacity.rs:86-95 | a running machine with a readable spec counts its measured use and the headroom, or its size if that is less, once settled; until then at least that and at least its size or the warm-up floor, and no more than one of them |
| `Capacity.UnreadableCounts` | packages/vm-runner/src/capacity.rs:69-83 | one whose spec cannot be read counts all there is before it was measured, its use and the headroom once settled, and in between at least that and at least the floor |
| `Capacity.OthersCount` | packages/vm-runner/src/capacity.rs:62-68 | an operation in flight counts what it asked for or the warm-up floor, a machine that does not run nothing |
| `Capacity.SumCommitted` | packages/vm-runner/src/capacity.rs:50-98 | the loop is the sum of what each machine counts, without the excepted one |
| `Capacity.HasRoom` | packages/vm-runner/src/capacity.rs:25-47 | admits if and only if there is no limit or the others, the new one and the reserve fit it; what is admitted leaves every measured machine its headroom within the limit |
| `Capacity.AdmittedLeavesHeadroom` | packages/vm-runner/src/capacity.rs:25-98 | beside the machine let in every other measured one may grow by the headroom, up to its size, all at once, and it fits |
| `Capacity.HeadroomIsRefused` | packages/vm-runner/src/capacity.rs:25-98 | a concrete host on which only the headroom of a running machine keeps another out, to the last MiB |
| `Capacity.StepChangesOneMachine` | packages/vm-runner/src/capacity.rs:50-98 | a step changes the sum by what it changes of its own machine |
| `Capacity.StepCounts` | packages/vm-runner/src/capacity.rs:50-106 | what each step makes its machine count: the floor after an admission or a boot, use and headroom after a reading, nothing after a stop |
| `Capacity.StopGivesBack` | packages/vm-runner/src/capacity.rs:62-68 | a stop or a deletion gives back exactly what the machine counted |
| `Capacity.MachinesAreFree` | packages/vm-runner/src/capacity.rs:50-57 | the runs leave nothing out: a machine may stop, be deleted, be measured as anything or lose its spec at any time |
| `Capacity.AdmissionFits` | packages/vm-runner/src/capacity.rs:25-47 | admission commits exactly what it checked, and the result fits |
| `Capacity.BootLeavesTheSum` | packages/vm-runner/src/capacity.rs:50-106 | moving from in flight to running and unmeasured leaves the sum unchanged |
| `Capacity.QuietStepDoesNotRaise` | packages/vm-runner/src/capacity.rs:50-98 | of the steps but admission, only a reading, a failed one, a lost or found spec or a given-up restart can raise the sum |
| `Capacity.AdmissionNeverOvercommits` | packages/vm-runner/src/capacity.rs:25-106 | over every run without such a step, committed memory plus reserve stays within the limit |
| `Capacity.FitsSinceAdmission` | packages/vm-runner/src/capacity.rs:25-106 | from an admission on the sum fits for as long as no step raises it, whatever it was before |
| `Capacity.ExcessIsWhatWasRaised` | packages/vm-runner/src/capacity.rs:25-106 | over every run, what is committed past the limit is at most what such steps added since an admission |
| `Capacity.RaiseIsBoundedBySize` | packages/vm-runner/src/capacity.rs:86-95 | a new or failed reading raises the sum by no more than the machine's size less what it counted |
| `Capacity.WhenAFoundSpecRaises` | packages/vm-runner/src/capacity.rs:69-95 | a spec that starts to read raises the sum if and only if a floor condition on its size holds |
| `Capacity.WhenGivingUpRaises` | packages/vm-runner/src/capacity.rs:63-95 | giving up a boot raises the sum if and only if the machine it was to replace counts above what was admitted, and the result fits if and only if that count does |
| `Capacity.AbandonedRestartCanOvercommit` | packages/vm-runner/src/capacity.rs:63-69 | a concrete restart that is given up and leaves more committed than fits |
| `Duration.ParseIsExact` | packages/api-server/src/duration.ts:38-89 | a value is returned if and only if the text is in the grammar and that value is its exact signed sum within 64 bits, for any table of units made of letters |
| `Duration.GoParseIsExact` | packages/api-server/src/duration.ts:23-89 | the same for Go's eight units, each with its nanoseconds, and no other word; however fractions are rounded |
| `Duration.UnitIsWorth` | packages/api-server/src/duration.ts:23-89 | a whole number of a unit is read as that many times its nanoseconds, or refused past 64 bits, for each of the eight |
| `Duration.OtherWordsAreRefused` | packages/api-server/src/duration.ts:67-75 | any other word after a number is refused, and so is none but after a bare zero |
| `Duration.ClockIsRead` | packages/api-server/src/duration.ts:38-89 | hours, minutes and seconds add up, with a sign or without |
| `Duration.FractionIsRead` | packages/api-server/src/duration.ts:57-82 | a fraction adds what the floating-point step makes of its digits, how many they are and the unit |
| `Duration.NoDotNeedsNoFractions` | packages/api-server/src/duration.ts:38-89 | without a dot nothing depends on the floating-point step |
| `Duration.TermsOfText` | packages/api-server/src/duration.ts:48-85 | the text of any terms is read back as those terms |
| `Duration.TextOfTerms` | packages/api-server/src/duration.ts:48-85 | what is read as terms is exactly their text |
| `Duration.KeptIsLongest` | packages/api-server/src/duration.ts:109-142 | the digits a fraction keeps are the most that stay within 2^63 |
| `Duration.LeadingInt` | packages/api-server/src/duration.ts:92-106 | null if and only if the numeral exceeds 2^63, else its value and the rest |
| `Duration.LeadingFraction` | packages/api-server/src/duration.ts:109-142 | the value and number of the kept digits, with all digits consumed |
| `Duration.NextTerm` | packages/api-server/src/duration.ts:48-85 | one turn of the loop reads one term or refuses |
| `Duration.AddUp` | packages/api-server/src/duration.ts:47-85 | the loop ends on every text with the bounded sum of its terms |
| `Duration.ParseGoDurationNs` | packages/api-server/src/duration.ts:38-89 | the whole parser, on every string, is the specification |
| `Duration.MinutesRoundTrip` | packages/api-server/src/duration.ts:19-21 | minutes survive the trip through their text if and only if their nanoseconds are below 2^63, and are refused otherwise |
| `Duration.ProjectionIsMonotone` | packages/api-server/src/duration.ts:151-157 | the projection to minutes is monotone, and zero for exactly the nonpositive durations |
| `Duration.ProjectionIsNearest` | packages/api-server/src/duration.ts:151-157 | the minutes shown are the nearest to the duration, halves up, and at least one for a positive one |
| `Rollback.RePointIsIdempotent` | packages/api-server/src/agent-store-cli.ts:804-822 | re-pointing a child twice is re-pointing it once |
| `Rollback.RePointLeavesOneAgent` | packages/api-server/src/agent-store-cli.ts:804-822 | one Agent reference, the restored Agent's as its controller, and none to an anchor; every other owner but one with the Agent's uid is kept, in order |
| `Rollback.AnchorsAre` | packages/api-server/src/agent-store-cli.ts:804-838 | an anchor is a ConfigMap whose name ends in `-anchor`, and nothing else is |
| `Rollback.StepKeepsSafe` | packages/api-server/src/agent-store-cli.ts:712-867 | every step keeps every labelled child of a restored Agent with a live owner |
| `Rollback.StepKeepsChild` | packages/api-server/src/agent-store-cli.ts:712-867 | no step, the collector's included, takes such a child or one of its live unrelated owners |
| `Rollback.EveryRunIsSafe` | packages/api-server/src/agent-store-cli.ts:712-867 | at every point of every run, stopped and restarted anywhere, each such child is owned by its live Agent or that Agent's live anchor |
| `Rollback.NoChildIsLost` | packages/api-server/src/agent-store-cli.ts:712-867 | over every run each such child stays, with its uid, its body and those of its unrelated owners that are still live, in order |
| `Rollback.StepKeepsPointed` | packages/api-server/src/agent-store-cli.ts:768-867 | a re-pointed child stays re-pointed |
| `Rollback.StepKeepsListing` | packages/api-server/src/agent-store-cli.ts:796-821 | owners listed earlier still tell a child's live unrelated owners |
| `Rollback.RunIsLater` | packages/api-server/src/agent-store-cli.ts:712-867 | every later point of a run keeps the restored resources, the children, their listings and what was re-pointed |
| `RollbackCommand.AbsentIsRecorded` | packages/api-server/src/modules/agent-store/rollback.ts:165-177 | exactly the recorded resources whose row is gone are removed, never a restored name and never another object of the name |
| `RollbackCommand.VerdictIs` | packages/api-server/src/modules/agent-store/rollback.ts:22-76 | refused is exactly what is forbidden: a marker without a stamp, another store, a closed way back, another install, another absorb, or no Agent row while Agents are live; with no stamp and no such marker there is nothing to do |
| `RollbackCommand.FindStale` | packages/api-server/src/agent-store-cli.ts:839-848 | the search finds a child with an anchor reference if and only if there is one |
| `RollbackCommand.ListOf` | packages/api-server/src/agent-store-cli.ts:796-803 | a listing has every labelled object of the kind once, with its owners |
| `RollbackCommand.Install.Request` | packages/api-server/src/agent-store-cli.ts:712-867 | while a request is out the collector takes objects and dead references, but no restored resource and no child of a restored Agent |
| `RollbackCommand.Install.RestoreRow` | packages/api-server/src/agent-store-cli.ts:712-727 | a row's resource is created, or replaced with its uid and owners kept; a dry run writes nothing |
| `RollbackCommand.Install.RestoreAll` | packages/api-server/src/agent-store-cli.ts:712-727 | every resource of a row, Agent or budget, is there with its row's body |
| `RollbackCommand.Install.DeleteAbsent` | packages/api-server/src/agent-store-cli.ts:761-766 | the named resources are gone, and nothing restored is |
| `RollbackCommand.Install.RePointChild` | packages/api-server/src/agent-store-cli.ts:804-823 | the owners written are those of the listing re-pointed, which still tell what is live |
| `RollbackCommand.Install.RePointAgent` | packages/api-server/src/agent-store-cli.ts:768-825 | all children of all kinds point to the Agent; without a uid a dry run skips and a real one refuses |
| `RollbackCommand.Install.RePointAll` | packages/api-server/src/agent-store-cli.ts:768-825 | so it is for every Agent, with the earlier ones undisturbed |
| `RollbackCommand.Install.CheckAll` | packages/api-server/src/agent-store-cli.ts:827-849 | passes only if no labelled child of a restored Agent references an anchor |
| `RollbackCommand.Install.DeleteOneAnchor` | packages/api-server/src/agent-store-cli.ts:851-867 | an anchor is deleted only while no such child references one, which stays so |
| `RollbackCommand.Install.DeleteAnchors` | packages/api-server/src/agent-store-cli.ts:851-867 | every restored Agent's anchor is gone |
| `RollbackCommand.Install.ClearAbsorb` | packages/api-server/src/agent-store-cli.ts:869-891 | the marker goes first, then the rows and the stamp together, and nothing restored is disturbed |
| `RollbackCommand.Install.Rollback` | packages/api-server/src/agent-store-cli.ts:627-891 | wherever it stops its run is one of safe steps; what is forbidden is refused, and then, with nothing to do, or in a dry run nothing is changed; a finished one has every resource restored, every child re-pointed, every anchor and stale resource gone, the rows deleted and the absorb cleared; with no request failing it finishes if no labelled anchor references one, and with the collector away only then |
| `RollbackCommand.AnchorCanLean` | packages/api-server/src/agent-store-cli.ts:804-849 | a family of safe clusters on which it never finishes: a ConfigMap named like an anchor, with a restored Agent's label, is owned by an anchor |
| `RollbackCommand.RerunIsAllowed` | packages/api-server/src/modules/agent-store/rollback.ts:22-76 | a rollback that is not forbidden is not forbidden after it stopped anywhere, and has nothing to do once finished |
| `Schema.CompileKeepsMeaning` | packages/driver-sdk/src/schema.ts:30-66 | for every spec that compiles, a value is valid against the schema if and only if it matches the shorthand read directly |
| `Schema.ArrayKeepsMeaning` | packages/driver-sdk/src/schema.ts:40-42 | the same for an array of the first item |
| `Schema.ObjectKeepsMeaning` | packages/driver-sdk/src/schema.ts:43-62 | the same for an object: exact keys, those marked with a question mark optional |
| `Schema.CompilesExactlyTheWellFormed` | packages/driver-sdk/src/schema.ts:30-66 | an error is thrown for exactly the specs that are not well formed |
| `Schema.CompilingTwiceIsCompilingOnce` | packages/driver-sdk/src/schema.ts:11-66 | compiling a compiled schema changes nothing |
| `Schema.NamesMean` | packages/driver-sdk/src/schema.ts:9-39 | the five names that compile, to what, and which values each stands for |
| `Schema.MarkMakesOptional` | packages/driver-sdk/src/schema.ts:49-54 | a question mark at the end of a name, and nothing else, makes a field optional, of the type ahead of it |
| `Schema.SchemaIsPassedThrough` | packages/driver-sdk/src/schema.ts:11-45 | an object is passed through if and only if it has one of nine keys |
| `Schema.KeysAreFound` | packages/driver-sdk/src/schema.ts:46-55 | a field is found by its key, and only by a key that is there |
| `Schema.PersonIsChecked` | packages/driver-sdk/src/schema.ts:30-66 | a concrete shorthand with a required, an optional and a list field, and exactly the values that are valid against its schema |
| `Schema.ReferenceConforms` | packages/driver-sdk/src/schema.ts:30-66 | a validator that reads one keyword at a time obeys the assumed rules |
| `Schema.Sugar` | packages/driver-sdk/src/schema.ts:30-66 | the compiler with its loop over the entries is the specification |
| `ChunkedBody.DecodeIsExact` | packages/vm-runner/src/cacheapi.rs:223-236 | exactly the texts made of frames and a last line of size zero decode, to their data put together |
| `ChunkedBody.HexIsRead` | packages/vm-runner/src/cacheapi.rs:227-228 | a number in hexadecimal digits of either case is read as such, with any zeros ahead, blanks around it and a plus or not, and refused past 64 bits |
| `ChunkedBody.OnlyHexIsRead` | packages/vm-runner/src/cacheapi.rs:227-228 | nothing else is read off a line of ASCII |
| `ChunkedBody.ExtensionIsRefused` | packages/vm-runner/src/cacheapi.rs:227-228 | a size line with an extension is not read |
| `ChunkedBody.ChunksAreDecodedUnlessExtended` | packages/vm-runner/src/cacheapi.rs:223-236 | a body in the framing of section 7.1 of RFC 9112 decodes to its data if and only if no chunk has an extension, and is refused otherwise |
| `ChunkedBody.AnExtensionIsRefused` | packages/vm-runner/src/cacheapi.rs:227-228 | a concrete body that section 7.1 allows and the decoder refuses |
| `ChunkedBody.BodyFollowsHead` | packages/vm-runner/src/cacheapi.rs:209-236 | the body is returned as it stands or decoded, as the head says |
| `ResponseHead.HeadIsRead` | packages/vm-runner/src/cacheapi.rs:210-218 | a head is read as its status, in decimal digits, and whether one of its headers is `transfer-encoding` with the whole value `chunked`, in letters of any case and with any blanks around either |
| `ResponseHead.BodyIsDecodedExactlyWhenChunked` | packages/vm-runner/src/cacheapi.rs:208-236 | for every well-formed head and every body: decoded if and only if such a header is there, with the status of the head |
| `ResponseHead.TrimmedIsPadded` | packages/vm-runner/src/cacheapi.rs:213-218 | what is trimmed and compared without regard to case is the text with blanks around it, in letters of any case |
| `ResponseHead.OnlyAStatusIsRead` | packages/vm-runner/src/cacheapi.rs:210-212 | the second word of the first line, between any blanks, is read if it is a number within 16 bits, and the response refused if it is not |
| `ResponseHead.HelloIsRead` | packages/vm-runner/src/cacheapi.rs:208-236 | a whole response, byte by byte, and its status and body |
| `ResponseHead.FramingDoesNotMatter` | packages/vm-runner/src/cacheapi.rs:208-236 | a body reads the same whole under one head and in chunks under another, with the same status |
| `ResponseHead.ListOfCodingsIsNotDecoded` | packages/vm-runner/src/cacheapi.rs:213-218 | a list of codings that ends in chunked leaves the chunks as they were sent |
| `ChunkedBody.HeadEndsThere` | packages/vm-runner/src/cacheapi.rs:209-210 | the head ends at the first blank line, whatever the body holds |
| `ChunkedBody.SearchCrlf` | packages/vm-runner/src/cacheapi.rs:226-226 | the first line end, if any |
| `ChunkedBody.DecodeChunks` | packages/vm-runner/src/cacheapi.rs:223-236 | the loop ends on any bytes, reads only what is there, and is the specification |
| `ChunkedBody.ReadResponse` | packages/vm-runner/src/cacheapi.rs:208-236 | the whole reading of a response, on any bytes and for any reading of its head, `ResponseHead.HeadOf` among them |
| `Eviction.OldestFirstIsSorted` | packages/vm-runner/src/cache.rs:160-160 | the order is by age and has exactly the entries given |
| `Eviction.OldestFirstIsStable` | packages/vm-runner/src/cache.rs:160-160 | entries of one time keep their order |
| `Eviction.JustEnoughIsUnique` | packages/vm-runner/src/cache.rs:151-174 | there is one shortest sufficient prefix |
| `Eviction.TakeOldest` | packages/vm-runner/src/cache.rs:161-173 | the loop takes the shortest prefix of what nothing holds such that the rest fits; its total is always the size of what is left |
| `Eviction.Choose` | packages/vm-runner/src/cache.rs:151-174 | nothing without a positive budget, else that prefix of the entries oldest first, or all of them |
| `Eviction.OverBudgetOnlyWhenAllIsHeld` | packages/vm-runner/src/cache.rs:150-174 | neither the kept image nor one in use is chosen, and the cache stays over budget only when everything left is one of those |
| `CpuWindow.WindowIsTheRecentHistory` | packages/vm-runner/src/cgroup.rs:121-137 | after any pushes in the order of time, the window is exactly the readings since the last reset within a minute of the newest |
| `CpuWindow.StartIsUnique` | packages/vm-runner/src/cgroup.rs:121-137 | that condition holds of one stretch only |
| `CpuWindow.ReportIsOfTheHistory` | packages/vm-runner/src/cgroup.rs:140-151 | the figures never underflow and are those of the full history; there are none right after a reset |
| `CpuWindow.UsageIs` | packages/vm-runner/src/cgroup.rs:140-146 | the first figure is the milli-CPUs that make up the usage between the readings, rounded down; there are none for readings less than a microsecond apart |
| `CpuWindow.ThrottlingIs` | packages/vm-runner/src/cgroup.rs:147-150 | the second is the percentage of the periods between them that were throttled, rounded down |
| `CpuWindow.ThrottlingNeverUnderflows` | packages/vm-runner/src/cgroup.rs:147-150 | counters of periods that went backwards count as standing still |
| `CpuWindow.Window.Add` | packages/vm-runner/src/cgroup.rs:121-137 | a push leaves the specified window, in which usage only rises |
| `CpuWindow.Window.Read` | packages/vm-runner/src/cgroup.rs:140-151 | the figures between the window's first and last reading |
| `AtomicWrite.EveryRunKeeps` | packages/vm-runner/src/files.rs:7-56 | however writers and other processes interleave and whatever fails, every writer has a name and a file of its own, no older file is written into, and every watched name is what it was or a whole new file |
| `AtomicWrite.MoveListsOnlyItsOwn` | packages/vm-runner/src/files.rs:7-56 | of the names that do not look staged, a writer's step changes its own path and no other, and that only by its rename |
| `AtomicWrite.OnlySyncIsSafe` | packages/vm-runner/src/files.rs:17-24 | only the file's own sync puts its bytes and mode on the disk, and a write or a change of mode after it takes them off again |
| `AtomicWrite.StoppedWriteLeavesAWholeFile` | packages/vm-runner/src/files.rs:7-29 | stopped anywhere, by a kill or a power loss, a reader finds the whole old file or the whole file of a writer that renamed |
| `AtomicWrite.FailedWriteChangesNothing` | packages/vm-runner/src/files.rs:17-27 | a name whose writers all failed by their rename is what it was |
| `AtomicWrite.InPlaceIffRenamed` | packages/vm-runner/src/files.rs:16-29 | a writer's file is in place from its rename on and not before, whatever the call returns |
| `AtomicWrite.LastRenameStands` | packages/vm-runner/src/files.rs:23-23 | from a rename on the name is that writer's file or the file of one that renamed after it |
| `AtomicWrite.SuccessIsDurable` | packages/vm-runner/src/files.rs:27-29 | after success a power loss leaves the whole file of that writer or of one that renamed after it |
| `AtomicWrite.FailureStaysFresh` | packages/vm-runner/src/files.rs:16-27 | a call that failed by its rename leaves a directory in which it can be made again |
| `AtomicWrite.ErrorCanLeaveTheNewFile` | packages/vm-runner/src/files.rs:28-29 | from any disk with a free staged name, the call in which only the directory's sync fails: an error, with the new file in place |
| `AtomicWrite.LoneWriter` | packages/vm-runner/src/files.rs:7-29 | a writer alone with its name: success is the new file; whatever is returned, the new file is found if and only if the rename was made; a stop leaves one of the two |
| `AtomicWrite.StagedNameLooksStaged` | packages/vm-runner/src/files.rs:36-40 | a staged name is dot-prefixed, ends in .tmp and is never the name it stands beside |
| `AtomicWrite.Runner.UniqueSibling` | packages/vm-runner/src/files.rs:32-56 | the staged file takes a name nothing had; with no call failing there is one if and only if one of a hundred names is free, and otherwise the disk is left as it was |
| `AtomicWrite.Runner.WriteAll` | packages/vm-runner/src/files.rs:19-19 | the body is written in order, however few bytes a call takes, and all of it if no call fails |
| `AtomicWrite.Runner.Replace` | packages/vm-runner/src/files.rs:16-29 | a call is a run of the protocol, in place if and only if that has the rename; no other name is touched and no staged file is left, unless the last call, its removal, failed too; with no call failing it succeeds if and only if one of a hundred names is free |
| `AtomicWrite.Runner.Write` | packages/vm-runner/src/files.rs:7-29 | after success only the new file with its stated mode can be found; after an error the new one if and only if the rename was made, else the old one, and the call can be made again; a path without a name changes nothing |

## Left out

- `AgentQueue.WorkQueue.AddUrgent`: its two critical sections with nothing between them; what holds with other goroutines between them is `AgentQueue.UrgentAddIsDelivered`.
- `AgentQueue.WorkQueue.Round`: a round with no other goroutine's step inside it; what holds with them is `ShardedQueue.EveryRunKeeps` and `ShardedQueue.FailedUrgentRoundRetriesUrgently`.
- `ShardedQueue`: an owner label that changes, the rate limiter's delays and the retry count of a failing agent; a delayed add may land at any time.
- `Duration`: how a fraction is rounded is not modelled; it is any function of the kept digits, their number and the unit.
- `ConsoleTrim.TrimWith`: I/O errors part way through the cut.
- `ConsoleTrim.CutKeepsTheNewestMark`: a log measured in the middle of a line, and a mark the kernel did not stamp.
- `ProbeProtocol`: more than one probe of a machine in flight, and a cut that fails after it emptied the log, which never counts as a cut.
- `Capacity`: negative sizes, and the error of a state directory that cannot be listed.
- `Schema`: a key named `__proto__`, and what a validator makes of a raw schema that is passed through.
- `ResponseHead`: a head with bytes past ASCII is left to a parameter, as is a chunk's size line with such bytes.
- `CpuWindow.Window.Read`: 64-bit overflow of the products; the percentage is cut to 32 bits as in the source.
- `AtomicWrite`: directories, names that are not UTF-8, another process that writes into a staged file or a watched one, and file systems that reorder more than names.
- `AtomicWrite.Runner.Write`: its guarantee is for a name that has been one synced file, or none, since the directory was synced, and that does not look like a staged file's.
- `Rollback.EveryRunIsSafe`: a child that neither its Agent nor that Agent's anchor owns at the start, a restored resource that has owners of its own, and clients other than the garbage collector, which the frozen cluster keeps away.
- `RollbackCommand.Install.Request`: a request that fails does not take effect. One that took effect and then timed out is a step of a run of `Rollback.EveryRunIsSafe` and not of `RollbackCommand.Install.Rollback`.
- `RollbackCommand.Install.Rollback`: the check that the cluster is frozen, the status subresource, names that are not DNS names, and reading the snapshot.
- The rest of the platform (the reconcilers, the guest's init, the gateways, the UI, the drivers and the Helm chart), where the logic is glue around external systems.
