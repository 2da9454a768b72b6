# Radioactive Ralph: verified models of supervision and scheduling

Radioactive Ralph supervises agent command-line programs. Its design rests on two promises: no agent can
block the system, and work is ordered and admitted by a plan. This project models the algorithms and small
protocols behind those promises and proves properties of them. Every theorem is about all inputs, or all
interleavings, of the model it names.

Two styles are used.

* Code that changes things step by step is a class, or a method with loops, proved against a specification
  function or an outright property. Theorems are then stated about the specification.
* Code that runs in several goroutines is a transition system. A program counter per goroutine, the shared
  variables, and every choice of the environment (system calls, the store, the clock, which ready case a
  select takes) are explicit. `After` gives the state a sequence of actions leads to, and a theorem about
  `After(run)` is about every reachable state.

| File | Subject |
|---|---|
| `PlanTree`, `PlanDecompose`, `DocumentOrder`, `SchedulerEquivalence`, `PlanRuns`, `PlanDoneSets`, `PlanImport`, `ImportedRuns` | the positional scheduler, the explicit dependency edges that replaced it, importing a plan and running what was imported |
| `LineStream`, `LineReader`, `Chunking`, `StreamEnds`, `OutputRetention` | the bounded line reader, what the cutting of reads can change, which condition each error stands for, and the memory budget of its pipeline |
| `Lifecycle`, `LifecycleProtocol` | who may probe, signal, clean up and reap a child process |
| `Watchdog` | the renewable stall lease |
| `DispatchLedger`, `DispatchPass` | dispatch slots, spend reservations, and one dispatch pass |
| `Policy`, `StrictJson` | the enforcement policy machine and its duplicate-name check |
| `IpcShutdown` | stopping the IPC server |
| `Rotation`, `ProviderChoice`, `Cooldowns` | the provider rotation, the search for a permitted member, and pauses after usage limits |
| `LeafFirst`, `Argv`, `TaskPaths` | kill order, the helper's argument vector, declared paths |
| `Wrappers`, `Sequences`, `Arithmetic`, `Decimal` | results, named rearrangements of sequences, remainders, decimal text |

## What turned out to need a condition

Some statements made in the code's comments, or natural to expect of it, hold only under a condition. In
each case the code is modelled as it is. Where a bullet says "exactly when", the condition is proved for all
inputs in both directions. A lemma named here that has no row below is a failing input, unless the bullet
says otherwise.

* The edges "reproduce exactly" the positional readiness for every done-set a run reaches; those are
  exactly the sets closed under the edges (`ReachableIffClosed`). An operator can also skip a step out of
  order. On any done-set what positions release is edge-ready (`ReleasedAreEdgeReady`), and the two agree
  exactly when every edge-ready step has all the steps it transitively waits for finished
  (`SchedulersAgreeWhen`). A done-set that is not closed can meet that; `OutOfOrderDoneSetsDiffer` shows one
  that does not.
* A read the writer still holds when the watcher last looks does not prevent a stall: for every positive
  timeout there is such a run (`ReadInHandCanStall`). No other read can be missed (`SignalsAreSound`).
* How a source's bytes are cut into reads changes nothing below the ceiling on observed bytes
  (`ChunkingIsIrrelevant`). A read that crosses the ceiling is dropped whole, so there it can matter
  (`CrossingReadIsDroppedWhole`). All healthy sources of the same bytes give the same results exactly when the
  ceiling is absent or not reached, or no newline lies between the earliest and the latest place at which a
  read can cross it, and, where oversize records are rejected, no record becomes too long there
  (`ReadsDoNotMatterWhen`). Every result before the error is right in any case (`EarlierResultsStand`).
* Three prefix slots in the retention budget are needed exactly for line limits up to 1362 bytes; from there
  on, the default of 1 MiB included, two would do (`ThirdSlotIsNeededWhen`).
* Every run clears the spend ledger once its attempts are over exactly when the empty provider name is not
  capped (`LedgerClearsWhen`, `EmptyNameLeaks`). The shipped resolver replaces an empty name by "claude"
  (internal/provider/provider.go:113-120), so only another resolver could reach this.
* An account shares its ledger key with another one exactly when its project id or its provider name
  contains a NUL (`SpendKeysCollide`). Project ids are UUIDs the store generates
  (internal/store/projects.go:53, internal/store/store.go:270-277), so keys of real accounts never collide
  (`SpendKeysDiffer`).
* A COMPLETE snapshot survives exactly the well-formed events (`TerminalStatesAbsorb`, `CompleteRuns`).
* Callers of Stop can close the stop channel twice, from where a run stands, exactly when two of them are
  before the close of an open channel or one is about to close a closed one (`StopsPanicWhen`,
  `OverlappingStopsCanPanic`). Calls that do not overlap between the look and the close never get there,
  which is the lemma `SerialStopsNeverPanic`.
* The rotation search looks at every member exactly when the pool has at most seventeen and the 64-bit
  cursor does not start over within the search in a way that breaks the rotation (`SearchSeesAllWhen`);
  then a refusal means no member is acceptable, and otherwise some acceptable member is refused
  (`OtherwiseIncomplete`). Whole turns give every member the same number of dispatches exactly when the
  cursor does not start over among them, or the pool's size divides 2^64, or the cursor starts over just
  between two turns (`RotationIsFairWhen`).
* A type pin's rotation does not look at the allow-list. For a pool of up to seventeen the two are enforced
  together, from every cursor, exactly when from each permitted member the next pinned one is permitted too,
  both around the pool and for the last 33 cursors before 2^64 (`AllowListHoldsWhen`,
  `PinLeavesAllowListBehind`). The rotation for independent review rechecks the allow-list and not the pin;
  `PinHoldsWhen` is the condition there. A step whose restrictions no member can meet is refused from every
  cursor; that only such steps are refused holds away from 2^64, and everywhere exactly when the last 50
  cursors find a member too (`RefusedWhenUnsatisfiable`).
* Comments in the cooldown tracker say a throttled provider is not paused; its code pauses it, and the model
  follows the code. What the filter chooses is in the pool exactly when the pool has one member, or one
  that is not pausing, or the pauses that end first are members' (`FilterStaysInPoolWhen`,
  `FallbackCanLeavePool`).
* Killing in the sorted order takes every process before its ancestors exactly when no process is its own
  ancestor (`ChildrenFirstWhen`); with a cycle no order does (`CyclesCannotBeOrdered`). For a list that names
  a pid twice, every sorted order does exactly when the comparator puts each member strictly before its parent
  (`EveryOrderWhen`).
* Containment compares texts. On clean paths that is containment by components, except under the
  file-system root, which contains only itself (`ContainedInIsBeneath`).
* The helper's bounds check overflows for exactly the five largest counts (`ParsePanicsWhen`). An argument
  vector the parent wrote is never affected (`ParseInvertsWrap`).

## Model

| member | source | states |
|---|---|---|
| `PlanTree.StepIDInjective` | internal/plan/decompose.go:22-29 | two step references with the same dotted identifier are the same reference |
| `PlanTree.StepIDsDistinct` | internal/plan/decompose.go:43-67 | no two steps a plan walk visits share an identifier |
| `PlanTree.StepAt` | internal/plan/decompose.go:165-179 | looks any position up, with both out-of-range errors |
| `PlanTree.StepAtInvertsWalk` | internal/plan/decompose.go:162-179 | in a well-formed plan a position resolves to a step exactly when the walk visits that step there |
| `PlanDecompose.IsGroupDone` | internal/plan/decompose.go:69-87 | the recursive loop decides whether every step below a group is finished |
| `PlanDecompose.LeafReady` | internal/plan/decompose.go:131-149 | the loop returns all unfinished steps of a parallel leaf, the first one of a sequential leaf, nothing of a finished one |
| `PlanDecompose.DecomposeGroups` | internal/plan/decompose.go:112-129 | the loop finds the first unfinished group and what it releases |
| `PlanDecompose.DecomposeRefs` | internal/plan/decompose.go:151-160 | the steps positional scheduling releases |
| `DocumentOrder.EdgeBuilder.VisitGroups` | internal/orch/plan_import.go:193-227 | the index- and terminal-carrying loop places exactly the specified edges of its groups, wherever it starts |
| `DocumentOrder.DocumentOrderEdges` | internal/orch/plan_import.go:186-230 | the imperative edge computation equals the specification for every plan tree |
| `DocumentOrder.OrderFromVisits` | internal/orch/plan_import.go:161-187 | edges line up index for index with the walk |
| `DocumentOrder.OrderFromPointsBack` | internal/orch/plan_import.go:178-230 | every edge points at an earlier step of the walk |
| `SchedulerEquivalence.AgreeFrom` | internal/orch/plan_import.go:178-230 | over any stretch of groups and any done-set closed under the edges, terminals finished means groups finished, and the ready steps are the released ones in order |
| `SchedulerEquivalence.AgreeGroup` | internal/orch/plan_import.go:194-227 | the same for one group of any nesting |
| `PlanRuns.ReadySetsCoincide` | internal/orch/plan_import.go:178-185 | after every run of edge-ready completions the edges release exactly what DecomposeRefs releases, in the same order |
| `PlanRuns.UnannotatedPlansAgree` | internal/orch/plan_import.go:181-185 | for every unannotated plan the two readiness functions agree on the very same done-set |
| `PlanRuns.SameRuns` | internal/orch/plan_import.go:178-185 | the two schedulers admit exactly the same runs |
| `PlanRuns.RunsAreBounded` | internal/orch/plan_import.go:164-230 | no run is longer than the plan; a run of that length has finished every step |
| `PlanRuns.RunsAreNeverStuck` | internal/orch/plan_import.go:164-230 | a run can be continued, and something is released, exactly while a step is unfinished |
| `PlanRuns.ReachableIffClosed` | internal/orch/plan_import.go:178-230 | the done-sets of runs are exactly the sets of plan steps closed under the edges |
| `PlanDoneSets.PositionsReleaseSupported` | internal/orch/plan_import.go:178-230 | on every done-set of a plan the positions release exactly the unfinished steps all of whose transitive dependencies are finished, in walk order |
| `PlanDoneSets.ReleasedAreEdgeReady` | internal/orch/plan_import.go:178-230 | on every done-set what the positions release is edge-ready |
| `PlanDoneSets.SchedulersAgreeWhen` | internal/orch/orchestrator.go:1348-1365 | for every plan and every done-set the two schedulers release the same steps exactly when every edge-ready step has all it transitively waits for finished |
| `PlanDoneSets.ClosedIsEnough` | internal/orch/plan_import.go:178-230 | a done-set closed under the edges meets that condition |
| `PlanImport.CollectIDs` | internal/orch/plan_import.go:92-104 | task ids are collected exactly when they are distinct; a duplicate names both places |
| `PlanImport.AcceptedWhen` | internal/orch/plan_import.go:92-121 | a plan is accepted exactly when it has steps, no two are called alike, and every stated dependency is what some step is called: its declared id, or its position if it declares none |
| `PlanImport.UnknownIsUncalled` | internal/orch/plan_import.go:113-121 | an unknown-dependency error names a task that states a dependency no step of the plan is called by |
| `PlanImport.GraphSpecs` | internal/orch/plan_import.go:77-159 | the specs are one per step, each called by the id its metadata declares or else by its dotted position, with stated or document-order edges; every error is justified, and a dependency is unknown only when no step is called so |
| `PlanImport.IndexPlanSteps` | internal/orch/dispatch_graph.go:122-146 | the index maps every name a step is called by to the last step called so, and holds nothing else |
| `PlanImport.ImportThenResolve` | internal/orch/dispatch_graph.go:122-146 | each imported task id, declared or positional, resolves to the step it was made from, and every dependency names a task of the plan |
| `ImportedRuns.ImportForDispatch` | internal/orch/plan_import.go:77-159 | for an accepted plan that states no dependencies, after any run of ready completions the ready tasks are, in order, those of the steps the positional scheduler releases |
| `LineStream.ResultsOfRecords` | internal/agent/output.go:147-241 | the reference results are one per newline-delimited record, kept or discarded, or up to the first oversize one |
| `LineStream.RecordsCoverStream` | internal/agent/output.go:199-207 | cutting into records loses and moves no byte |
| `LineStream.RecordsOfBytes` | internal/agent/output.go:154-187 | the records of a stream with one end of output are the pieces between its newlines |
| `LineStream.PrefixIsFirstBytes` | internal/agent/output.go:243-263 | from a limit of 4095 bytes on, the exposed prefix is the record's first 4096 bytes |
| `LineReader.AppendWithinCap` | internal/agent/output.go:331-354 | appends what the cap leaves room for, tells whether all of it fitted, never exceeds the cap in length or capacity |
| `LineReader.DiscardedPrefixOf` | internal/agent/output.go:243-263 | the prefix is the first bytes of the record seen so far, cut at 4096 |
| `LineReader.OversizeTestIsExact` | internal/agent/output.go:209-226 | the oversize test decides exactly whether the bytes seen can still be a kept record, whatever the reads, and exposes a true prefix |
| `LineReader.Terminate` | internal/agent/output.go:170-184 | one trailing CR dropped and a newline added, within the cap; the second length test can never fire |
| `LineReader.OutputLineReader.ReadMore` | internal/agent/output.go:265-311 | one read changes nothing of what remains to be delivered, or fails with exactly the failure the source's answer calls for; observed bytes exceed the ceiling by at most one |
| `LineReader.OutputLineReader.NextSegment` | internal/agent/output.go:199-207 | takes the buffered bytes up to a newline, or all, and leaves the rest |
| `LineReader.OutputLineReader.NextLine` | internal/agent/output.go:147-241 | its result is a function of what the source still delivers, bytes, ends and errors, and leaves the reader where the next one starts |
| `LineReader.ReadAll` | internal/agent/output.go:80-129 | repeated calls yield the reference results up to the first error, with a true prefix for each discarded record, also from a source that goes on after an end of output |
| `Chunking.ChunkingIsIrrelevant` | internal/agent/output.go:147-241 | a healthy source within the ceiling gives the results of its records in both modes, however its reads are cut; beyond it, those of a prefix that ends where a permitted read can cross |
| `Chunking.EarlierResultsStand` | internal/agent/output.go:147-311 | for every source, also stopped, failing, endlessly empty or crossing ones: every result before the last is the undisturbed reader's at the same place, and the last too unless it is that stop, failure or crossing |
| `Chunking.OfferOfBytes` | internal/agent/output.go:147-241 | the undisturbed results of a source with one end are those of its bytes |
| `Chunking.ReadsDoNotMatterWhen` | internal/agent/output.go:265-292 | all healthy sources of the same bytes agree exactly when there is no ceiling, or it is not reached, or nothing between the earliest and latest crossing makes a difference, in both modes |
| `Chunking.CutsAgreeWhen` | internal/agent/output.go:281-286 | delivering further bytes before the ceiling makes no difference exactly when they complete no record and, in reject mode, start none that is too long, or the reader has failed already |
| `StreamEnds.EndStandsFor` | internal/agent/output.go:147-311 | every stream ends at the first read the reader does not go past, and the error is what stands in that read: stop for its close, a crossing for the ceiling, a failure for an overfull read, another error or the hundredth empty read in a row, the end of output for an end of file of either kind or of the source; before it lie exactly the bytes read |
| `LineReader.WorkIsBounded` | internal/agent/output.go:265-292 | however long the reader asks, at most one byte beyond the ceiling is read, none is delivered, and the error means exactly that |
| `LineReader.EmptyReadsEnd` | internal/agent/output.go:303-309 | one hundred empty reads in a row end in an error |
| `OutputRetention.Options.Normalize` | internal/agent/output_retention.go:67-95 | writes the default back, accepts exactly the budgets that hold one line, returns the floor inverse, and tells the errors apart |
| `OutputRetention.PaysForExactly` | internal/agent/output_retention.go:55-65 | a derived budget is accepted and pays for exactly the length it was derived from |
| `OutputRetention.NormalizeInvertsBudget` | internal/agent/output_retention.go:58-95 | normalizing the budget derived for a line length gives that length back |
| `OutputRetention.BudgetRange` | internal/agent/output_retention.go:36-65 | the default pays for lines of exactly 1 MiB and the maximum for lines of exactly 8 MiB; no budget is derived for a length out of range |
| `OutputRetention.RetentionStaysInBudget` | internal/agent/output_retention.go:39-46 | for every accepted budget and every interleaving of reads, copies, handoffs and callbacks, retained bytes stay within the budget |
| `OutputRetention.EveryByteIsCounted` | internal/agent/output_retention.go:39-46 | in every sequence of steps the retained bytes grow by exactly what a step allocates and shrink by exactly what it lets go; a handoff moves them to the next owner and overwrites none |
| `OutputRetention.LineIsDelivered` | internal/agent/output.go:118-128 | from any point of any sequence of steps the line being built can come to the callback in the array it was built in |
| `OutputRetention.PrefixIsDelivered` | internal/agent/output.go:103-115 | likewise the prefix of a discarded record, whose line is let go |
| `OutputRetention.SegmentIsTaken` | internal/agent/output.go:331-354 | until a record is found oversize its line takes any segment that fits, whatever the later owners hold |
| `OutputRetention.ThirdSlotIsNeededWhen` | internal/agent/output.go:13-22 | a budget one prefix slot smaller can be overrun exactly for line limits up to 1362 bytes |
| `Lifecycle.ProcessLifecycle.ClaimTermination` | internal/agent/lifecycle.go:54-114 | makes no raw operation outside Running; otherwise the first conclusive answer decides between natural exit, ownership and failure after three refusals; errors are joined in order |
| `Lifecycle.ClaimIsDetermined` | internal/agent/lifecycle.go:64-114 | the system's answers determine the claim and the number of raw operations |
| `Lifecycle.ErrorsAreKept` | internal/agent/lifecycle.go:64-114 | a claim reports every error of the probes and cleanups it made, in order, and no other |
| `Lifecycle.ProcessLifecycle.ClaimNatural` | internal/agent/lifecycle.go:131-140 | takes ownership exactly in Running; a failed cleanup is reported and does not withhold it |
| `Lifecycle.ProcessLifecycle.Finish` | internal/agent/lifecycle.go:142-151 | records a wait status once, and only for an owner |
| `Lifecycle.ProcessLifecycle.ExitError` | internal/agent/lifecycle.go:153-160 | reports a status exactly for a finished child that was not forced |
| `LifecycleProtocol.RawOperationsPrecedeReaping` | internal/agent/lifecycle.go:36-46 | in every interleaving a raw operation is under way only in Running, before any wait, one at a time, with no owner |
| `LifecycleProtocol.SingleReaper` | internal/agent/agent.go:354-402 | cmd.Wait is called at most once, by a single owner; phases, terminal and done say which steps have happened; a natural owner finds the child exited |
| `LifecycleProtocol.NobodyStranded` | internal/agent/agent.go:332-402 | while terminal is open, an owner can take its next step towards closing it, or the observer is at work and it or the lock holder can move |
| `LifecycleProtocol.OwnerCloses` | internal/agent/agent.go:362-401 | once the child has exited the owner alone closes terminal in at most four steps |
| `LifecycleProtocol.TerminalDrains` | internal/agent/output.go:62-71 | after terminal closes each of the agent's own threads can always step and is nearer its end after each step; when all have ended done is closed |
| `LifecycleProtocol.ExitCloses` | internal/agent/agent.go:332-402 | from any point of any run after the child's exit some one thread closes terminal in at most eight steps of its own |
| `LifecycleProtocol.EverybodyReturns` | internal/agent/agent.go:332-477 | from any point of any run after the child's exit terminal and done can be closed, every goroutine of the agent end and every caller of Kill, TerminateAndWait and Wait return |
| `LifecycleProtocol.AskingSignals` | internal/agent/agent.go:324-346 | from any point of any run at which nobody holds the lock of a running child, a caller of Kill or TerminateAndWait, the end of the context, a failing reader and a failing observer each come to the signal by acts of their own, and to the next ones while they are refused; the child need not have exited |
| `LifecycleProtocol.DeliveredSignalForces` | internal/agent/lifecycle.go:83-108 | there, a signal that is delivered after any permitted number of refusals leaves the phase reaping, the end forced and the wait to the sender |
| `LifecycleProtocol.RefusedTerminationFails` | internal/agent/agent.go:378-396 | there, when every attempt is refused the same thread closes terminal in the phase failed, nothing reaped and nothing forced; Kill returns, TerminateAndWait goes on to wait, the agent's own threads go their way |
| `LifecycleProtocol.SeenExitIsReaped` | internal/agent/agent.go:332-370 | an exit the observer sees is cleaned up, reaped and published by the observer alone, whether or not the cleanup succeeds, and is not taken for a forced end |
| `LifecycleProtocol.WaitReturnsAfterReclaim` | internal/agent/agent.go:472-477 | Wait returns only when control is settled, done is closed and the agent's threads are gone |
| `LifecycleProtocol.TerminationReturnsAfterTerminal` | internal/agent/agent.go:375-402 | a caller comes out of its request for termination only with terminal closed, whoever closed it |
| `LifecycleProtocol.ForcedWhenSignalled` | internal/agent/lifecycle.go:83-108 | after any run the end counts as forced exactly when a signal was delivered in it |
| `LifecycleProtocol.CancellerStays` | internal/agent/agent.go:324-330 | the canceller ends only with terminal closed, so no end of the context before that is missed |
| `LifecycleProtocol.ClaimIsPlayed` | internal/agent/lifecycle.go:54-114 | playing the system's answers one raw operation at a time ends where the class's method ends |
| `Watchdog.NewestReadIsNeverLost` | internal/agent/output.go:363-381 | the newest read time is always with the watcher, in the slot or in the writer's hand, and the lease is never later than a read |
| `Watchdog.SignalsAreSound` | internal/agent/watchdog.go:118-211 | a stall was judged past its lease with no read missed but one in hand, and nothing follows a stall or an exit |
| `Watchdog.TimesAreOfRun` | internal/agent/watchdog.go:79-99 | the clock, the newest read and the end of the context are those of the run's own ticks, reads and cancellation |
| `Watchdog.LastLookMeansSilence` | internal/agent/watchdog.go:171-188 | whenever the watcher takes its last look, a whole timeout lies between the last read of the run up to when it found none pending and when it judged the lease, unless the writer was just then handing one over |
| `Watchdog.StallsComeOfLastLooks` | internal/agent/watchdog.go:189-208 | a stall only comes of a last look |
| `Watchdog.InputsAreReported` | internal/agent/watchdog.go:119-153 | in every run, until the context ends, each input the watcher was given has one signal, in order: a prompt for a matching line, plain progress for any other, discarded progress for a prefix, an exit for the close; after them at most a stall |
| `Watchdog.InputIsReported` | internal/agent/watchdog.go:154-208 | from any point of any run at which the watcher looks, its last look before a stall included, a waiting input is taken and reported in two of its steps, but for a prefix after the close of their channel was received |
| `Watchdog.ExpiredLeaseStalls` | internal/agent/watchdog.go:171-211 | from any point of any run at which the watcher waits on a lease that has run out with no read pending, five of its steps report the stall and end it |
| `Watchdog.ReadRenewsLease` | internal/agent/watchdog.go:154-166 | a read time in the slot renews the lease in two steps of the watcher, and the timer then is that lease's |
| `Watchdog.ReadReachesSlot` | internal/agent/output.go:363-381 | a noted read reaches the slot by the writer's own steps, one if it is free and three if an older time is in it, which is dropped |
| `Watchdog.WatchEndsWhen` | internal/agent/watchdog.go:112-211 | a watch whose context has not ended is over only after a stall or an exit was reported; the close of the prefixes is received at most once, reports nothing and takes the watcher back to its lease |
| `Watchdog.TimerIsTheLease` | internal/agent/watchdog.go:79-111 | whenever the watcher waits, its timer is ready exactly when the lease has run out; without a positive timeout never |
| `Watchdog.CancelledWatchEnds` | internal/agent/watchdog.go:112-117 | from any point of any run after the context has ended, at most six steps of the watcher alone end it, and it reports nothing more |
| `Watchdog.ReadInHandCanStall` | internal/agent/watchdog.go:171-210 | a read noted and still in the writer's hand at the last look does not prevent the stall |
| `DispatchLedger.Admission.AcquireDispatchSlot` | internal/orch/orchestrator.go:1293-1303 | takes a slot exactly when one is free or the semaphore is absent |
| `DispatchLedger.Admission.ReleaseDispatchSlot` | internal/orch/orchestrator.go:1305-1315 | returns a slot, after which every plan's next saturation is reported anew |
| `DispatchLedger.SaturationIsReportedOnce` | internal/orch/orchestrator.go:1248-1280 | between two returns of a slot a full pipeline is reported at most once for each plan |
| `DispatchLedger.SaturationIsReported` | internal/orch/orchestrator.go:1248-1280 | whenever a plan finds it full, it has been reported since the last return of a slot |
| `DispatchLedger.Admission.CheckSpendCap` | internal/orch/spend.go:58-90 | reserves exactly when no turn is in flight and spend is below the cap; a refusal reserves nothing and names its reason |
| `DispatchLedger.Admission.ReleaseSpendReservation` | internal/orch/spend.go:92-106 | drops one reservation of a capped provider |
| `DispatchLedger.SlotsAreConserved` | internal/orch/orchestrator.go:817-946 | in every run occupancy is the number of attempts that will still release a slot, at most maxParallel, zero when all are over; no release blocks |
| `DispatchLedger.ReservationsAreConserved` | internal/orch/orchestrator.go:970-1179 | at most one turn is reserved per ledger key, and unless the empty name is capped the ledger counts exactly the holders |
| `DispatchLedger.OverspendIsBounded` | internal/orch/spend.go:40-57 | on both launch paths recorded spend stays strictly below the cap plus the cost of the largest turn |
| `DispatchLedger.SpendIsRecorded` | internal/orch/spend.go:115-134 | after every run each account's recorded spend is its historic spend and the sum of the costs its turns settled with in that run |
| `DispatchLedger.CapDecides` | internal/orch/spend.go:58-90 | at any point of any run a resolved attempt is admitted exactly when its provider has no cap, or its account has no turn in flight and its historic and settled cost is below the cap; a refusal changes nothing |
| `DispatchLedger.ExitMoves` | internal/orch/orchestrator.go:2369-2439 | every pre-launch exit of either path leaves duties that release each held thing exactly once |
| `DispatchLedger.LaunchMoves` | internal/orch/orchestrator.go:1135-1159 | a launch hands slot and reservation to the goroutine without losing or doubling either |
| `DispatchLedger.SlotDecides` | internal/orch/orchestrator.go:1293-1303 | at any point of any run a new attempt gets a slot exactly while fewer than maxParallel attempts hold one |
| `DispatchLedger.ExitEnds` | internal/orch/orchestrator.go:970-1133 | from any point of any run an attempt that is refused or fails before its launch is over after at most four further steps of its own |
| `DispatchLedger.LaunchEnds` | internal/orch/orchestrator.go:1135-1179 | from any point of any run an admitted attempt keeps all it holds through its launch and, once its turn ends, settled or not, is over after at most four further steps of its own |
| `DispatchLedger.SpendKeysDiffer` | internal/orch/spend.go:108-113 | project ids without a NUL never share a ledger key |
| `DispatchLedger.SpendKeysCollide` | internal/orch/spend.go:108-113 | an account shares its key with another one exactly when a NUL occurs in its project id or provider name |
| `DispatchLedger.LedgerClearsWhen` | internal/orch/orchestrator.go:971-982 | for every configuration: every run leaves the ledger empty once all attempts are over exactly when the empty provider name is not capped |
| `DispatchPass.DispatchSteps` | internal/orch/orchestrator.go:884-946 | launches exactly the launchable candidates among those the scan reaches with budget left, faults exactly on a faulting one, and leaves nothing it reached behind while budget lasts |
| `DispatchPass.LaunchedExactlyWhen` | internal/orch/orchestrator.go:884-946 | a step is launched exactly when it would launch, everything before it launched, was refused, or is gated in a parallel group, and fewer than maxParallel workers launched before it |
| `DispatchPass.FaultsExactlyWhen` | internal/orch/orchestrator.go:893-941 | the scan errs exactly on a step it comes to so whose gate or launch fails |
| `DispatchPass.DispatchReadyGroup` | internal/orch/orchestrator.go:780-949 | a group is handed to one worker whole, counted as one however many tasks it runs, or scanned step by step |
| `DispatchPass.DispatchNext` | internal/orch/orchestrator.go:742-758 | a pass launches in order, each delegated group as one worker however many tasks it runs; it stops only with its workers used up or a faulting group, and otherwise leaves no launchable step of an undelegated group behind |
| `Policy.DecisionsAreValid` | internal/enforcement/policy.go:203-227 | every decision is a valid snapshot for the next request; a malformed request, and only one, is answered by an empty blocked snapshot |
| `Policy.ValidateRequest` | internal/enforcement/policy.go:320-399 | the loops accept exactly the requests whose policy, snapshot and event are well-formed |
| `Policy.AcceptanceSatisfied` | internal/enforcement/policy.go:310-318 | the loop accepts exactly results that observe and satisfy every predicate |
| `Policy.CompleteMeansAccepted` | internal/enforcement/policy.go:279-318 | COMPLETE is entered exactly from VERIFY on results that observe and satisfy every predicate |
| `Policy.TerminalStatesAbsorb` | internal/enforcement/policy.go:203-212 | COMPLETE is kept by exactly the well-formed events, BLOCKED by all |
| `Policy.OutOfTurnBlocks` | internal/enforcement/policy.go:213-258 | a well-formed report is an invalid transition exactly when its state does not allow it, and then blocks with the counts kept; a permitted wait is entered as asked |
| `Policy.WaitWindow` | internal/enforcement/policy.go:255-277 | a recheck before, inside and past the window waits, resumes and blocks, respectively and only then |
| `Policy.RunsStayValid` | internal/enforcement/policy.go:203-227 | feeding decisions back over any events keeps every snapshot valid |
| `Policy.RetriesAreBounded` | internal/enforcement/policy.go:302-308 | in any run at most RetryBudget + 1 observations use up a retry, and they are counted exactly until the run is blocked |
| `Policy.BudgetsDecide` | internal/enforcement/policy.go:228-308 | on an unfinished valid snapshot and a well-formed event a retry is exhausted exactly at RetryBudget and an idle observation exactly at NoProgressBudget; below them the run goes on in ACTIVE with one more counted, whatever state it was in |
| `Policy.ReasonsTellApart` | internal/enforcement/policy.go:228-308 | every other reason is given exactly for its own event and state |
| `Policy.RetryBudgetIsExact` | internal/enforcement/policy.go:302-308 | a run is blocked by its retry budget exactly at the observation that follows RetryBudget uses, never earlier |
| `Policy.IdlesAreBounded` | internal/enforcement/policy.go:232-240 | in any run at most NoProgressBudget + 1 observations of no progress follow the last of progress |
| `Policy.IdleBudgetIsExact` | internal/enforcement/policy.go:232-240 | likewise by its no-progress budget, counted since the last progress |
| `Policy.CompleteRuns` | internal/enforcement/policy.go:203-300 | a run ends COMPLETE exactly when it passed an accepted verification, or started so, and only well-formed events followed |
| `Policy.CompletionIsReachable` | internal/enforcement/policy.go:217-300 | from every valid snapshot that is not final, well-formed events lead to COMPLETE |
| `StrictJson.Decoder.CheckJSONValue` | internal/enforcement/json.go:22-63 | the token-consuming recursion computes the specified walk and consumes exactly its tokens |
| `StrictJson.Decoder.CheckObject` | internal/enforcement/json.go:33-52 | the member loop with its growing set computes the specified walk of an object |
| `StrictJson.Decoder.CheckArray` | internal/enforcement/json.go:53-59 | likewise for the elements of an array |
| `StrictJson.Decoder.ConsumeDelimiter` | internal/enforcement/json.go:65-75 | succeeds exactly on the expected closing delimiter |
| `StrictJson.CheckDecidesStrict` | internal/enforcement/json.go:11-63 | the walk accepts exactly the values in which no object at any depth repeats a name, and leaves exactly what follows the value |
| `StrictJson.CheckAcceptsExactly` | internal/enforcement/json.go:11-63 | for any tokens at all, the walk leaves a rest exactly when they are a value that repeats no name at any depth, followed by that rest |
| `IpcShutdown.SweptConnectionsAreClosed` | internal/ipc/server.go:244-278 | after closeConns every connection being served is closed but the one spared for its reply, and none can register any more |
| `IpcShutdown.SweepSparesRequester` | internal/ipc/server.go:266-286 | after any run the sweep closes exactly the connections being served other than that of the last stop request taken in the run |
| `IpcShutdown.RequesterKeepsItsConnection` | internal/ipc/server.go:263-286 | a handler serving the last stop request before the sweep finds its connection open through every later sweep until it closes it itself, and writing its reply cannot fail |
| `IpcShutdown.StopRequestIsTaken` | internal/ipc/server.go:280-286 | a stop request makes its connection the one to spare, whatever was recorded before, and its handler leaves once it has replied |
| `IpcShutdown.AcceptLoopStays` | internal/ipc/server.go:405-436 | after any run before a stop the listener is open and the accept loop at work, whatever errors Accept has returned |
| `IpcShutdown.ClientIsServed` | internal/ipc/server.go:405-454 | from any point of any run before a stop the next client to connect is registered and served within five steps of the accept loop and its handler |
| `IpcShutdown.StoppedLoopRetires` | internal/ipc/server.go:288-313 | from any point of any run after a stop the accept loop retires within two steps of its own, three from Accept; the connection in hand is closed and no handler started |
| `IpcShutdown.RetiredLoopClosesListener` | internal/ipc/server.go:345-372 | a caller of Stop that sees the loop retired closes the listener itself before it sweeps |
| `IpcShutdown.ListenerClosesIdle` | internal/ipc/server.go:301-313 | where Stop closes the listener itself, the accept loop has left Accept for good |
| `IpcShutdown.StopDrains` | internal/ipc/server.go:337-382 | when Stop returns the accept loop, the heartbeat and every handler have ended and every accepted connection is closed |
| `IpcShutdown.DoneIsCounted` | internal/ipc/server.go:405-454 | no goroutine's Done brings the wait group below zero |
| `IpcShutdown.NoClientHoldsStop` | internal/ipc/server.go:266-278 | from any point of any run after the sweep, every handler but the spared one ends by its own steps, without its client's help |
| `IpcShutdown.AcceptFinishes` | internal/ipc/server.go:405-454 | likewise the accept loop, once the listener is closed |
| `IpcShutdown.SweptServerDrains` | internal/ipc/server.go:374-382 | from any point of any run after the sweep, the server's own goroutines can all end and every caller waiting in Stop can return, with no client's help but the spared one's |
| `IpcShutdown.StopCanReturn` | internal/ipc/server.go:337-382 | from any point of any run any caller of Stop can return, whatever clients and accept loop have done, with no client's help but the spared one's, and without a second close unless one was near |
| `IpcShutdown.StopsPanicWhen` | internal/ipc/server.go:337-343 | from any point of any run the callers of Stop can close the channel twice exactly when two are before the close of an open one, or one is about to close a closed one |
| `IpcShutdown.PanicMustBeNear` | internal/ipc/server.go:337-343 | otherwise no continuation without a further call of Stop does, whatever the other goroutines do |
| `Rotation.BindingResolver.Resolve` | cmd/radioactive_ralph/binding_resolver.go:94-103 | a dispatch hands out the member under its project's cursor and advances only that cursor; a probe moves none |
| `Rotation.BindingResolver.ResolveMany` | cmd/radioactive_ralph/binding_resolver.go:55-103 | any number of dispatches, with any probes between them, hand out the rotation from the cursor on, the cursor starting over at 2^64 |
| `Rotation.BindingResolver.Rotate` | internal/orch/orchestrator.go:1513-1537 | the loop returns the first acceptable member in rotation order among those it searches, and refuses only when none of them is acceptable |
| `Rotation.SearchSeesAllWhen` | internal/orch/orchestrator.go:1500-1512 | a search looks at every member exactly when the pool has at most 17 and the cursor keeps the rotation throughout it |
| `Rotation.SearchIsComplete` | internal/orch/orchestrator.go:1500-1512 | then it refuses exactly when no member is acceptable |
| `Rotation.OtherwiseIncomplete` | internal/orch/orchestrator.go:1698-1701 | otherwise some acceptable member is refused |
| `Rotation.RotationIsFairWhen` | cmd/radioactive_ralph/binding_resolver.go:55-103 | any k whole turns of dispatch resolutions give each member exactly k if and only if the cursor keeps the rotation throughout or starts over just between two turns |
| `Rotation.TurnIsFairWhen` | cmd/radioactive_ralph/binding_resolver.go:94-103 | a turn gives each member exactly one dispatch if and only if the cursor keeps the rotation throughout it |
| `ProviderChoice.CheckAllowedProviders` | internal/provider/capabilities.go:134-158 | accepts exactly bindings named by alias or type, and restricts nothing when every entry is blank |
| `ProviderChoice.TrimIs` | internal/provider/capabilities.go:141-151 | trimming takes all the space around a name and nothing else |
| `ProviderChoice.StringSliceValue` | cmd/radioactive_ralph/binding_resolver.go:417-451 | accepts exactly non-empty lists of distinct non-blank names, trimmed; each error names what is wrong |
| `ProviderChoice.ResolveForStep` | internal/orch/orchestrator.go:984-1063 | the three searches in turn compute the specified choice; from every cursor it meets the restriction enforced last and none is made where some restriction cannot be met; away from 2^64, over at most 17 members, only then is it refused |
| `ProviderChoice.UnsatisfiableIsRefused` | internal/orch/orchestrator.go:984-1063 | for every pool and cursor, a restriction no member meets refuses the step |
| `ProviderChoice.IndependenceHolds` | internal/orch/orchestrator.go:1591-1665 | for every pool and cursor a step that demands independence runs on a known domain no peer ran on, and only once every peer's domain is known |
| `ProviderChoice.IndependenceRefusedWhen` | internal/orch/orchestrator.go:1591-1665 | away from 2^64, over at most 17 members, it is refused exactly when nobody is permitted, nobody has the pinned type, a peer's domain is not known, or nobody permitted has a known domain apart from the peers' |
| `ProviderChoice.CalmRefusal` | internal/orch/orchestrator.go:984-1063 | away from 2^64, over at most 17 members, the step is refused exactly when some restriction cannot be met by any member |
| `ProviderChoice.RefusedWhenUnsatisfiable` | internal/orch/orchestrator.go:984-1063 | over at most 17 members that holds of every cursor there is exactly when some restriction cannot be met or the last 50 cursors find a member too |
| `ProviderChoice.AllowListHoldsWhen` | internal/orch/orchestrator.go:1550-1574 | over at most 17 members the choice is permitted from every cursor exactly when from each permitted member the next pinned one is permitted, around the pool and at the last 33 cursors |
| `ProviderChoice.PinHoldsWhen` | internal/orch/orchestrator.go:1591-1665 | likewise a choice for independent review is of the pinned type from every cursor exactly when the search for independence does not lead away from it, around the pool and at the last 33 cursors |
| `Cooldowns.ProviderCooldowns.RecordFailure` | cmd/radioactive_ralph/provider_cooldowns.go:76-92 | the map stays the one the history of turns determines: streak length and end of pause of each failing provider |
| `Cooldowns.ProviderCooldowns.RecordSuccess` | cmd/radioactive_ralph/provider_cooldowns.go:94-100 | likewise after a success, which ends the streak |
| `Cooldowns.PausesExactly` | cmd/radioactive_ralph/provider_cooldowns.go:43-92 | after any history a provider refused n times in a row for its credentials, its request or its rate pauses for 1, 2, 4, 8 and from then on 24 hours after the last of them |
| `Cooldowns.UnrefusedIsAvailable` | cmd/radioactive_ralph/provider_cooldowns.go:76-100 | a provider with no such failure since it last succeeded is not pausing |
| `Cooldowns.ProviderCooldowns.Active` | cmd/radioactive_ralph/provider_cooldowns.go:102-117 | returns exactly the providers pausing by the history, with the end of each pause |
| `Cooldowns.ProviderCooldowns.EarliestExpiry` | cmd/radioactive_ralph/provider_cooldowns.go:119-139 | names a provider whose pause ends first among all tracked, or none when none pauses |
| `Cooldowns.ProviderCooldowns.FilterPool` | cmd/radioactive_ralph/binding_resolver.go:68-92 | rotates over the members not pausing, in order, with the two fallbacks |
| `Cooldowns.FilteredPoolIsUsable` | cmd/radioactive_ralph/binding_resolver.go:68-92 | the filtered pool is not empty and keeps names distinct; while a member is not pausing it is exactly those members |
| `Cooldowns.FilterStaysInPoolWhen` | cmd/radioactive_ralph/provider_cooldowns.go:119-139 | for every history and pool: whatever the filter may choose is in the pool exactly when the pool has at most one member, or one not pausing, or the pauses that end first are members' |
| `LeafFirst.IndexByPID` | internal/agent/session_cleanup_darwin.go:253-257 | the table holds the last member of each pid and nothing else, for every list of members |
| `LeafFirst.Depth` | internal/agent/session_cleanup_darwin.go:258-271 | the walk ends even on cyclic parents, having met each pid once, where the chain stops or repeats |
| `LeafFirst.AncestorsAreShallower` | internal/agent/session_cleanup_darwin.go:258-271 | where no process meets its own pid above it, every ancestor is strictly less deep |
| `LeafFirst.Compare` | internal/agent/session_cleanup_darwin.go:272-278 | the comparator's sign is the order by depth and pid, in both directions |
| `LeafFirst.ComparatorIsTotal` | internal/agent/session_cleanup_darwin.go:258-278 | every process has a depth, so any two are ordered one way or the other |
| `LeafFirst.ComparatorIsOrder` | internal/agent/session_cleanup_darwin.go:272-278 | that order is transitive, and antisymmetric on distinct pids |
| `LeafFirst.LeavesComeFirst` | internal/agent/session_cleanup_darwin.go:272-278 | where no process meets its own pid above it, any order the comparator allows has every process before all its ancestors |
| `LeafFirst.CyclesCannotBeOrdered` | internal/agent/session_cleanup_darwin.go:253-278 | with a cycle of parents no order of the members has every process before its ancestors |
| `LeafFirst.ChildrenFirstWhen` | internal/agent/session_cleanup_darwin.go:253-278 | for distinct pids the sorted order has every process before its ancestors exactly when no process is its own ancestor |
| `LeafFirst.EveryOrderWhen` | internal/agent/session_cleanup_darwin.go:253-278 | for every list, also one that names a pid twice: all orders the comparator allows have processes before their ancestors exactly when it puts each member strictly before its parent |
| `LeafFirst.SortLeafFirst` | internal/agent/session_cleanup_darwin.go:253-279 | index, depths and comparator together: a permutation, sorted, and children first wherever every sorted order is, for distinct pids exactly when the parents are acyclic |
| `Argv.ParseInvertsWrap` | internal/contain/contain_linux.go:122-135 | the helper recovers root, every extra path and the whole command, whatever their text |
| `Argv.ParsedIsWrapped` | internal/contain/contain_linux.go:168-183 | an accepted argument vector is a wrapped one, up to the spelling of its count |
| `Argv.WrappedIsParsed` | internal/contain/contain_linux.go:168-183 | and every argument vector of that shape is accepted as the invocation it was made from, however its count is spelled |
| `Argv.WrapIsInjective` | internal/contain/contain_linux.go:130-134 | different invocations are wrapped differently |
| `Argv.ParsePanicsWhen` | internal/contain/contain_linux.go:173-178 | the bounds check fails to guard the slice exactly for the five largest counts |
| `TaskPaths.ContainedInIsBeneath` | internal/orch/task_paths.go:188-195 | the text comparison is containment by components on clean paths, except under the file-system root |
| `TaskPaths.Reversed` | internal/orch/task_paths.go:180-186 | the element at each place is the one mirrored from the other end |
| `TaskPaths.ResolveThroughExistingAncestor` | internal/orch/task_paths.go:153-178 | the peeling loop ends for every file system and computes the specified resolution |
| `TaskPaths.ResolutionIsDeepest` | internal/orch/task_paths.go:142-178 | a resolution is that of the deepest existing ancestor with the missing suffix put back in order; errors name their cause |
| `TaskPaths.CleanThenWalk` | internal/orch/task_paths.go:92 | cleaning the declared path before joining it changes nothing |
| `TaskPaths.SplitInvertsJoined` | internal/orch/task_paths.go:92 | a declared path has the pieces it was joined from |
| `TaskPaths.JoinedInvertsSplit` | internal/orch/task_paths.go:92 | and every declared path is one joined from its pieces |
| `TaskPaths.NamesBeneath` | internal/orch/task_paths.go:92 | a declared path that climbs n levels and then names components names them under the n-th ancestor of the root, or under the file-system root past it |
| `TaskPaths.NamesSimplify` | internal/orch/task_paths.go:92 | an empty piece or a dot changes nothing and a component followed by ".." cancels, wherever they stand, so every declared path comes down to that form |
| `TaskPaths.RootedWhen` | internal/orch/task_paths.go:76-82 | a declared path is refused as rooted exactly when it starts with a separator of either kind or a drive letter and a colon |
| `TaskPaths.SecureProjectPath` | internal/orch/task_paths.go:75-104 | returns exactly the resolutions that lie in the resolved root by components, and tells an escape from a fault |

## Left out

- The SQLite store, Markdown parsing, provider runners, acceptance commands: their answers are environment choices. Store readiness is "not finished and every dependency finished".
- Cycle detection for stated `after` edges: not in the modelled files. For annotated plans only that every dependency names a task is claimed.
- The order in which ready partitions are grouped by path text, metadata JSON, inputs and outputs of a task spec.
- The GUI, terminal UI, onboarding, service installation, adapters and command wiring.
- Integer widths: nat and int are unbounded except where a width matters (the rotation cursor, the helper's count). Costs are integers of the smallest unit instead of floating point.
- LineReader.ReadAll: the callback on each read and the delivery selects of readLoop are not part of it.
- OutputRetention.RetentionStaysInBudget: counts the bytes each owner holds, not what the garbage collector has yet to free.
- The process-group, pidfd, sysctl, Landlock, pseudo-terminal and Windows parts: what they answer is a choice of the environment. A probe is assumed to report an exit only after it happened.
- LifecycleProtocol.TerminalDrains: a thread in the read loop may leave it at any time; that closing the pseudo-terminal makes it leave is not modelled.
- Lifecycle: the guarded accessors observe and pid, which only test for Running.
- LifecycleProtocol: with one-shot input cmd.Wait also waits for the goroutine that copies it to the child's stdin; here the wait ends with the child alone.
- Watchdog: which lines match a prompt pattern is an input; the JSON exemption and prompt kinds are not modelled.
- DispatchLedger: claims, worker rows and events are collapsed into the choice between going on and exiting, since no exit path depends on more.
- Policy: the text of an instant, and so its normalization to UTC.
- StrictJson: from text to tokens, and the struct decoding that follows.
- IpcShutdown: read and write deadlines, request decoding, what a handler does between its read and its reply, the unlinking of the socket, and a Stop before Start.
- Rotation: a pool that changes during a search, as the cooldown filter can make it; failures of the store during a search.
- Cooldowns: which failures fall into which category; both looks at the tracker see the same history.
- LeafFirst: the library's in-place sorting algorithm, for which insertion stands; any permutation sorted by the comparator is covered.
- Argv: argument vectors are shorter than the largest int64, as memory makes them.
- PlanTree.StepAtInvertsWalk: for plans in which a group carries steps or subgroups but not both, as the parser builds them.
- TaskPaths: hashing pinned inputs, Windows separators, and races after the check, which the source disclaims too.
