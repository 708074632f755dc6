# Turgon, modelled in Dafny

Turgon runs integrations: events leave source systems, are dispatched once each,
and drive a saga of approved writes. This project models the parts of it whose
promises span many steps, and proves those promises for every input, every run
or every interleaving. `dafny verify dfyconfig.toml` checks all of it.

| part | modules | form |
|---|---|---|
| Event delivery | `Delivery`, `DeliveryProof`, `DeliveryTheorems`, `DeliveryStream`, `DeliveryRuns`, `Dispatching` | a step system for any number of workers, and the code of one worker as methods over it |
| The saga | `Saga`, `SagaSignals`, `SagaSteps` | the interpreter as a method over arbitrary activities |
| Hot server swap | `Live`, `LiveClose`, `LiveProgress` | a step system over requests, swaps and closers |
| The appliance supervisor | `Appliance`, `ApplianceNames` | a class whose methods keep one invariant and state what each pass makes of each spec |
| The plugin boundary | `Abi`, `Utf8`, `AbiProof`, `AbiLayout`, `AbiResults`, `Plugin` | bytes in guest memory as functions, and an instance as a class |
| The plugin container | `Component` | the section parser as a method, against a grammar |
| Identity matching | `Jaro`, `JaroSymmetry`, `JaroValues`, `Matching`, `Pairs`, `Sorting` | loops over arrays and maps, against specifications |
| The audit log | `Audit`, `AuditHistory`, `AuditCodec` | a class, and histories of it |
| Metadata drift | `Meta`, `Drift`, `Learning` | the diff as a method, the meaning of its flags, and a class for a discovery under way |
| Write IDs | `WriteId` | a printer and its parser |

How the outside world enters:

- A store, a source or the starter of runs is one atomic step per call. A worker
  may stop between any two steps, and a call may fail with or without effect.
- Activities, policies and target systems of a saga are arbitrary functions that
  also see how many activities ran before.
- Clocks, readiness probes, file checks, random draws, for how many batches a
  caller's context lasts, and whether a write to disk succeeds are parameters.
- The guest's `cabi_realloc` is an arbitrary function of the guest's state; what
  it owes the host is stated as `AbiProof.Honest`, which a bump allocator meets.
- The audit hash is injective, the JSON encoding of an entry decodes to it, and
  neither a part of an encoding nor several parts on one line decode to anything;
  `AuditCodec.PlainIsLawful` exhibits a codec that meets this.
- Scores are exact reals.

## Where a promise turned out to need a condition

- **Ties lose events.** `drain` moves the cursor past each event it started, and
  the source's contract orders events by position without saying that positions
  differ. Every polled run is safe if and only if positions strictly increase and
  are above 0 (`DeliveryTheorems.SafeExactlyWhenIncreasing`), and so is every
  reconciling one (`DeliveryTheorems.ReconcileSafeExactlyWhenIncreasing`). What
  webhooks, subscriptions, the inbox and the starter promise does not depend on
  it.
- **The first subscription.** Without a stored position a subscription starts
  from now. With one subscriber at a time, a stream event is kept if and only if
  it came at or after the place where the subscription that stored the first
  position began, and before the stored position
  (`DeliveryStream.StreamedEventsExactly`); so a worker that stops before its
  first delivery is stored loses what arrived meanwhile
  (`DeliveryStream.FirstSubscriptionLosesEvents`).
- **A duplicate found at commit is compensated.** The interpreter keeps every
  commit that did not fail for compensation, also one that answered that the
  write was already there (`Saga.LateDuplicateIsUndone`). On targets that count
  their records a failing run ends one record short for each such commit, so it
  restores them if and only if there was none (`Saga.RestoresExactly`).
- **Close racing Swap.** A swap stores its server before it joins the wait group,
  so a Close that comes between may return while the earlier server is still open
  (`LiveClose.RacedCloseLeavesOpen`). A Close that has loaded a generation
  returns with all up to it closed, however the run goes on, if and only if every
  earlier one is closed already (`LiveClose.CloseClosesExactly`).
- **Requests and a closing server.** No swap drops a request: from every state
  there is a continuation without another swap in which every request is
  answered. It is served if and only if it is being served, holds the lock of an
  open generation, or finds one that is open and unlocked; otherwise it is told
  "shutting down", which only a Close that has come to the current generation
  can cause (`LiveProgress.NoneDropped`, `LiveProgress.ServedExactly`,
  `LiveProgress.ServedUnlessClosing`).
- **One server handed over twice.** Every interleaving of `Live` is safe if and
  only if no two generations share a server (`Live.SafeExactlyWhenDistinct`).
- **Long audit entries and failed writes.** `Record` writes a line of any length,
  `Verify` reads lines below 16 MiB, and a write that fails may leave some of its
  line. A history verifies, and can be reopened, if and only if all lines are
  shorter and its trail is not broken: no bytes followed bytes that a failed
  write left, unless those were a whole line that a reopening read first, and the
  last failed write did not leave only part of an entry
  (`AuditHistory.HistoryVerifies`). Deleting the last entry is the one deletion
  that is not detected (`Audit.DeletionDetected`).
- **Rounded scores.** `Suggest` compares an unrounded score with a rounded one, so
  the record kept for a master may be up to 0.001 worse than its best
  (`Matching.KeptIsNearlyBest`, `Matching.KeptMayNotBeBest`). It is the last of
  the candidates rounding to the maximum that was rounded down, or the first when
  none was, and it is the best if and only if none of those is better
  (`Matching.KeptIsBestExactly`). Its score is the maximum all the same.
- **Repeated field names.** The diff of a catalog with itself is empty if and only
  if no object has two fields of one name (`Drift.DiffOfItself`).
- **Breaking changes nobody can feel.** A change of the type, length or presence of
  a field that was read-only is flagged as breaking although no accepted write
  could send that field; but for those, and objects that accept no write at all,
  the flag is exact (`Drift.BreakingIsExact`).
- **A failed copy.** When the copy of a new version cannot be written, the unit
  still points at the version that was just stopped. If the file goes back to
  that version it is never promoted, and given up once its time is over
  (`Appliance.StrandedVersion`).
- **Shared copies.** Copies are named by shortened digests, and an existing copy is
  taken as it is. Every running worker has its own version's copy as long as no
  two verified versions share a path (`Appliance.RunsOwnCopy`), and for any two
  that do there is a run in which one's worker runs from the other's copy
  (`Appliance.SharedCopy`). Full digests share one exactly when they are of the
  same spec and begin with the same twelve digits
  (`ApplianceNames.SharePathExactly`).

## Model

| member | source | states |
|---|---|---|
| DeliveryProof.StepKeeps | pkg/engine/runtime.go:229-355 | every step of any worker, source, stream or run keeps the delivery invariant, whatever the source's positions (inbox rows are unique and ordered, run IDs are used once, stored inbox cursors cover only started events; cursors of sources without ties too) |
| DeliveryProof.ExecKeeps | pkg/engine/runtime.go:229-355 | so does every sequence of steps, stops included |
| DeliveryProof.RunIdInjective | pkg/engine/runtime.go:223-225 | a run ID determines the event for one workflow |
| DeliveryProof.BatchIsNext | pkg/connector/connector.go:41-46 | a batch is exactly the next events past a position, none skipped |
| DeliveryTheorems.PolledEventsStarted | pkg/engine/runtime.go:334-355 | in every reachable state, every source event at or below any cursor value ever stored has had its run started, even if a slow worker moved the cursor back |
| DeliveryTheorems.SafeExactlyWhenIncreasing | pkg/engine/runtime.go:334-355 | that promise holds in all runs exactly for sources whose positions strictly increase and are above 0 |
| DeliveryTheorems.LosesEvent | pkg/engine/runtime.go:344-352 | for every other source a run is constructed in which an event is passed over |
| DeliveryTheorems.AcknowledgedEventsKept | pkg/engine/webhook.go:55-76 | for any source, an event acknowledged to a provider is in the inbox exactly once, and started or past every stored inbox cursor |
| DeliveryTheorems.ReconciledEventsKept | pkg/engine/runtime.go:307-330 | so is every source event at or below any reconcile cursor ever stored, when positions do not tie |
| DeliveryTheorems.ReconcileSafeExactlyWhenIncreasing | pkg/engine/runtime.go:307-330 | reconciling holds what is at or below its cursors in all runs exactly for sources whose positions strictly increase and are above 0 |
| DeliveryTheorems.MissesEvent | pkg/engine/runtime.go:320-325 | for every other source a run is constructed in which a tie appended after a poll is never stored |
| DeliveryStream.StreamedEventsKept | pkg/engine/stream.go:93-109 | with any number of subscribers, so is every stream event before any resume position ever stored, from where the latest fresh subscription began |
| DeliveryStream.OneSubscriber | pkg/engine/stream.go:81-92 | with the lock, one worker at a time subscribes |
| DeliveryStream.OriginFixed | pkg/engine/stream.go:81-109 | the place where the subscription that stored the first position began never changes |
| DeliveryStream.StreamedEventsExactly | pkg/engine/stream.go:81-109 | with the lock, a stream event is kept exactly when it came at or after that place and before the stored position |
| DeliveryStream.FirstSubscriptionLosesEvents | pkg/engine/stream.go:93-97 | an instance: a worker stops before its first stored position and an event is lost |
| DeliveryTheorems.OneRunPerEvent | pkg/engine/temporal.go:41-58 | whatever mix of deliveries occurs, and whatever the source's positions, an event never has two runs of a workflow that are live or completed |
| DeliveryRuns.StartExactly | pkg/engine/temporal.go:38-58 | starting an event adds an attempt exactly when none is running or completed, one is afterwards, and no other event's attempts change |
| DeliveryRuns.RunsEnd | pkg/engine/temporal.go:38-58 | a running attempt can end either way; a failed event can be retried, a completed one never |
| DeliveryRuns.CompletedStays | pkg/engine/temporal.go:38-58 | delivering an event again starts another attempt after a failed one and never after a completed one |
| DeliveryRuns.StoredInOrder | pkg/engine/runtime.go:184-190 | a delivery adds the events not held, in the order in which they came, after those held |
| Dispatching.InterleavedKeeps | pkg/engine/runtime.go:172-190 | what other workers do between two calls leaves this worker's place and everything started and stored |
| Dispatching.ShortBatchCovers | pkg/engine/runtime.go:334-342 | a batch that is not full, with the started events, is everything the feed holds |
| Dispatching.Worker.Drain | pkg/engine/runtime.go:334-355 | the runs counted are started; an error-free pass with a short batch leaves every event there was at its beginning started (of the inbox always, of a source without ties); it fails exactly when one of its calls failed; each step is one of the protocol |
| Dispatching.Worker.Start | pkg/engine/runtime.go:346-348 | a start that succeeds has the event's run; one that fails may have started it or not, and the cursor stays before it |
| Dispatching.Worker.Reconcile | pkg/engine/runtime.go:307-330 | on success the inbox holds every event the source had when the call began, for a source without ties; it succeeds exactly when no call failed and the batches end with one that is not full, and fails when a call failed or the context lasted for full batches only |
| Dispatching.Worker.ReconcileBatch | pkg/engine/runtime.go:308-329 | one batch, stored before the cursor moves; it fails exactly when a call failed, an empty batch succeeds, and it is the last exactly when it is not full |
| Dispatching.Worker.StorePolled | pkg/engine/runtime.go:320-325 | success means every event of the batch is in the inbox and the poll cursor is at its end or past it, whatever other workers do; failure that a call failed |
| Dispatching.Worker.HandleDelivery | pkg/engine/webhook.go:26-79 | 200 exactly when every event of the delivery is stored and acknowledged, whatever other workers do between; 404, 413, 401, 400 and 503 acknowledge nothing, and 503 is answered exactly when the store failed |
| Dispatching.Worker.PollWorkflow | pkg/engine/runtime.go:251-292 | one workflow's turn: the count is of runs started, and an error-free turn that read all there was leaves every event there was started, those only the source had too when reconciling was due; each failed call is one error, a context that ended first is one, nothing else is, and a due turn without errors records the time |
| Dispatching.Worker.Poll | pkg/engine/runtime.go:229-295 | the same for a pass over all workflows; errors are exactly the failed calls and the turns that outlasted the context, and every other turn whose reconciliation was due records the time |
| Dispatching.Worker.TryLock | pkg/engine/stream.go:81-92 | the lock is taken only when no worker has it; when it is not, a worker had it or its store failed |
| Dispatching.Worker.Subscription | pkg/engine/stream.go:93-109 | a subscription begins at the position stored when it was read, or from now when none was, stores the source's batches in order until a call fails, and everything from its beginning to the last position it stored is then in the inbox; only a failed call keeps it from beginning or from storing what the stream had |
| Dispatching.Worker.KeepSubscribed | pkg/engine/stream.go:68-124 | taking the lock and reopening keep the protocol, the waits follow the backoff rule, and for each subscription that ended what it stored, from where it began, is in the inbox at the end; a try brings none only when the lock was held or its store failed, and every failed call is accounted for |
| Dispatching.BackoffDoubles | pkg/engine/stream.go:79-122 | after k subscriptions in a row without events the wait is the smallest doubled k times, within the bound |
| Saga.AwaitApproval | pkg/engine/workflow.go:245-273 | the decision is that of the first wake from here on that is a timeout or names this step and digest |
| Saga.DecisionUnique | pkg/engine/workflow.go:245-273 | a wait has one outcome |
| Saga.RunStep | pkg/engine/workflow.go:148-210 | each step relates the run before and after it by its activities, and a failed one leaves the document |
| Saga.RunWrite | pkg/engine/workflow.go:166-210 | prepare, decision if needed, commit with that very request and decision |
| SagaSteps.OutputReachesDocument | pkg/engine/workflow.go:166-230 | a write made or found puts its decoded result under its output field and leaves every other field; without an output, a readable result or success the document stays |
| SagaSteps.StepReachesDocument | pkg/engine/workflow.go:148-166 | a map or resolve step hands on its activity's document, or stops with its error |
| SagaSteps.DecidedExactly | pkg/engine/workflow.go:252-273 | a decision approves exactly when the wake it rests on is a signal that says approved, and names its actor or the timeout |
| SagaSteps.ReportExactly | pkg/engine/workflow.go:166-210 | the report lists in order exactly the writes made or found, with endpoint, operation, status and result |
| SagaSteps.OwnError | pkg/engine/workflow.go:91-120 | the error returned is the failing activity's own, with at most as many failed compensations as writes undone |
| SagaSteps.UndoneAreCommits | pkg/engine/workflow.go:91-120 | each write compensated is one the run committed, with its own step, request and result |
| Saga.Compensate | pkg/engine/workflow.go:91-120 | every write is compensated once, newest first, whatever fails |
| Saga.IntegrationWorkflow | pkg/engine/workflow.go:46-212 | the result is a finished run: steps in order up to the first failure, records of what was written or found, compensations and error |
| Saga.UndoesItsCommits | pkg/engine/workflow.go:91-120 | the compensations are exactly the run's own commits, newest first, never a write found at prepare; the step's own error is returned exactly when none failed |
| Saga.UnwindRestores | pkg/engine/workflow.go:91-120 | undoing the commits of any prefix of a run gives the targets back |
| Saga.FailedRunRestores | pkg/engine/workflow.go:91-120 | a failing run whose compensations succeed leaves the targets as they were |
| Saga.RestoresExactly | pkg/engine/workflow.go:91-120 | on targets that count their records it does so exactly when no commit found its write already there, and otherwise ends short by the number that did |
| Saga.LateDuplicateIsUndone | pkg/engine/workflow.go:166-210 | a run over lawful activities that undoes a write it did not make |
| Saga.ApprovedOnlyBySignal | pkg/engine/workflow.go:181-201 | an approved commit rests on a signal consumed during that step's wait that said approved and named the step and the digest of that request |
| Saga.SignalsDecideOnce | pkg/engine/workflow.go:181-201 | each signal decides at most one write |
| Saga.NeededApprovalsDecided | pkg/engine/workflow.go:181-201 | a write that needs approval carries a decision and no other does; a timeout is a rejection |
| Saga.OtherSignalsIgnored | pkg/engine/workflow.go:252-265 | one more signal for another step or request changes no wait's decision |
| SagaSignals.FinishedUnique | pkg/engine/workflow.go:46-212 | the interpreter has one result for given activities and wakes |
| SagaSignals.OtherSignalsChangeNothing | pkg/engine/workflow.go:46-273 | a whole run with one more signal, wherever it comes in, that is for nothing the run waits on when it reads it, has the same documents, events, decisions, records, error, compensations and targets |
| Live.StepKeeps | pkg/agent/live.go:36-78 | every step of a request, swap, retirement or close keeps the lock and closing invariant |
| Live.ExecKeeps | pkg/agent/live.go:25-78 | so does every interleaving |
| Live.NeverServedClosed | pkg/agent/live.go:51-78 | no request is served by a closed server, and each server is closed at most once |
| Live.ShuttingDownAfterClose | pkg/agent/live.go:60-71 | "shutting down" is answered only after a call of Close retired that generation |
| Live.RetriesBounded | pkg/agent/live.go:60-73 | a request retries at most once per swap since it arrived |
| LiveClose.CloseClosesExactly | pkg/agent/live.go:45-58 | a Close that has loaded a generation returns with all up to it closed, in every continuation, exactly when every earlier one is closed already |
| LiveClose.RetireCanFinish | pkg/agent/live.go:51-58 | a retirement that waits for its lock can finish with nothing changed but its generation |
| LiveClose.PreviousCanClose | pkg/agent/live.go:34-43 | the generation before any swap can be closed by the swap's goroutine, with nothing else changed |
| LiveClose.QuietCloseClosesAll | pkg/agent/live.go:45-49 | so a Close that no swap raced closes every generation in every continuation |
| LiveClose.CloseClosesAll | pkg/agent/live.go:45-49 | and has done so when it returns |
| LiveClose.RacedCloseLeavesOpen | pkg/agent/live.go:36-49 | an instance: a Close that a swap raced returns while the earlier server is still open |
| LiveProgress.NeverStuck | pkg/agent/live.go:60-78 | a request not yet answered can take its next step, or a retirement holds its generation's lock and can go on |
| LiveProgress.OwnStepNearer | pkg/agent/live.go:60-78 | each step of its own brings a request nearer its answer, and changes neither whether it can be served nor any other request |
| LiveProgress.NoneDropped | pkg/agent/live.go:9-13 | from every state there is a continuation without a swap in which every request is answered: served if it can be, "shutting down" otherwise |
| LiveProgress.ServedExactly | pkg/agent/live.go:60-78 | a request can be served without another swap exactly when it has been, is being, or finds a generation open and unlocked |
| LiveProgress.ServedUnlessClosing | pkg/agent/live.go:60-78 | while no Close has come to the current generation that is every request not told "shutting down" |
| LiveProgress.NewerServes | pkg/agent/live.go:65-73 | a request that found its generation closed can be served by a newer open one, and by no other |
| LiveProgress.SwapServes | pkg/agent/live.go:34-43 | after a swap every request not told "shutting down" can be served |
| Live.SafeExactlyWhenDistinct | pkg/agent/live.go:36-78 | every interleaving is safe exactly when no server is handed over twice |
| Live.ServesClosed | pkg/agent/live.go:36-44 | the interleaving that breaks it otherwise |
| Appliance.ServiceContinues | pkg/appliance/supervisor.go:110-184 | in any recorded run, a spec with a running current worker has one in every later state as long as every pass that could read the directory found its file |
| Appliance.Supervisor.Watch | pkg/appliance/supervisor.go:110-184 | any passes are such a recorded run; a served spec whose file they all find is served in every state they go through; and of a spec with the same valid file throughout at most one worker starts, none if its version was settled; each pass makes of each spec what its file says, as for one pass |
| Appliance.Supervisor.Run | pkg/appliance/supervisor.go:110-131 | passes are recorded until shutdown, each made of its files, and every worker then stops |
| Appliance.PortsSize | pkg/appliance/supervisor.go:361-377 | the units use at most two ports each |
| Appliance.Pigeonhole | pkg/appliance/supervisor.go:361-377 | so one of the next ports is free |
| Appliance.RunsOwnCopy | pkg/appliance/supervisor.go:311-340 | a running worker's copy exists, and holds its own version as long as no two verified versions with different digests share a path |
| Appliance.SharedCopy | pkg/appliance/supervisor.go:311-321 | for any two versions that do there is a run in which the second one's worker runs from the first one's copy |
| Appliance.StrandedVersion | pkg/appliance/supervisor.go:244-293 | after a failed copy, a file that goes back to the stopped version never gets it promoted, and it is given up after the timeout |
| Appliance.Supervisor.Port | pkg/appliance/supervisor.go:361-377 | the lowest port no worker uses, at most HealthBase plus twice the number of units |
| Appliance.Supervisor.Launch | pkg/appliance/process.go:82-119 | one worker is added on a port no live worker uses, from the copy of a verified version |
| Appliance.Supervisor.WriteCopy | pkg/appliance/supervisor.go:311-321 | an existing copy is kept as it is, a failed write changes nothing |
| Appliance.Supervisor.SetInvalid | pkg/appliance/supervisor.go:295-308 | a refused file touches no worker |
| Appliance.Supervisor.Promote | pkg/appliance/supervisor.go:265-293 | a running version that answers replaces the current one, which stops; a late one is stopped and remembered as failed; otherwise nothing changes, and only that answer is noted |
| Appliance.Supervisor.TryVersion | pkg/appliance/supervisor.go:244-262 | an unknown version is started exactly when its copy is there or can be written; its predecessor is stopped either way |
| Appliance.Supervisor.ReconcileOne | pkg/appliance/supervisor.go:200-263 | current is replaced only by the file's verified version, which was being tried, was running and answered in this look; a worker starts exactly for a version not known yet whose copy can be kept; every served spec stays served |
| Appliance.Supervisor.Reconcile | pkg/appliance/supervisor.go:153-184 | the units are those of the files, nothing happens when the directory cannot be read, a served spec whose file is there stays served through every state of the pass, a new current worker answered, only copies in use are left; each spec found once has the unit and workers of its file's case: current kept, next promoted, waited for or given up, a worker started exactly for a version not known whose copy can be kept, a refusal noted and its workers untouched |
| Appliance.StartsExactly | pkg/appliance/supervisor.go:222-262 | so of a verified file a pass starts a worker exactly when its version is not running, tried or given up and its copy can be kept |
| ApplianceNames.Remembers | pkg/appliance/supervisor.go:210-262 | the unit then knows the file's digest, is invalid exactly when its copy could not be kept, and remembers a version given up until the file changes |
| ApplianceNames.SharePathExactly | pkg/appliance/supervisor.go:311-321 | versions with full digests share a copy exactly when they are of one spec and begin with the same twelve digits |
| ApplianceNames.ValidNameExactly | pkg/appliance/supervisor.go:77-77 | the names looked at are those of the regular expression |
| Appliance.Supervisor.Remove | pkg/appliance/supervisor.go:169-182 | removed specs are forgotten and their workers stopped, the others stay served |
| Appliance.Supervisor.StopAll | pkg/appliance/supervisor.go:343-358 | every worker ever started is stopped |
| Appliance.Supervisor.PruneCopies | pkg/appliance/supervisor.go:324-341 | exactly the copies no unit's worker runs from are deleted |
| AbiProof.BumpIsHonest | pkg/plugin/wasm.go:324-338 | the allocator contract the theorems assume is met by a bump allocator |
| AbiProof.PutHolds | pkg/plugin/wasm.go:324-338 | bytes put in a guest are there, in memory that was not in use, and nothing in use changed; it fails only if the allocator traps, and the pointer to no bytes is unreadable only in a guest without memory |
| AbiProof.HeadersWritten | pkg/plugin/wasm.go:521-544 | a written list holds the first 64 headers, in new memory only |
| AbiProof.HeadersRoundTrip | pkg/plugin/wasm.go:500-544 | reading what was written gives back the first 64 headers exactly when their strings are valid UTF-8 within the limit, and an invalid-string fault otherwise |
| Utf8.ValidExactly | pkg/plugin/wasm.go:470-476 | a string passes the validity test exactly when it encodes a sequence of Unicode scalar values |
| AbiLayout.RequestExactly | pkg/plugin/wasm.go:431-441 | a request is read exactly when method, URL, headers and body are bytes in memory, valid and within their limits, and it is those, field by field |
| AbiLayout.FaultExactly | pkg/plugin/wasm.go:431-441 | otherwise the call stops with the first fault: method or URL, too many headers, the first bad header, the body |
| AbiLayout.LoadsExactly | pkg/plugin/wasm.go:546-581 | a plugin loads the answer its memory holds byte by byte, and traps exactly when it holds none |
| AbiLayout.SeenExactly | pkg/plugin/wasm.go:521-569 | it sees the host's own answer but for an unavailable service in 0.1.0 and headers past the 64th |
| AbiResults.ErrorArrives | pkg/plugin/wasm.go:564-573 | an error-code result is loaded as that error |
| AbiResults.ResponseArrives | pkg/plugin/wasm.go:443-453 | a response result is loaded with its status, first 64 headers and body |
| AbiResults.ResultRoundTrip | pkg/plugin/wasm.go:554-581 | whatever the host answered, the plugin loads exactly that in its version's words, and nothing else in use is changed; the write fails only on a trap or a host failure |
| AbiResults.OldPluginsSeeInvalid | pkg/plugin/wasm.go:564-569 | a 0.1.0 plugin loads an unavailable service as invalid with the same words, never as discriminant 3 |
| Plugin.Instance.Begin | pkg/plugin/wasm.go:478-488 | a call goes on exactly while fewer than 64 were made |
| Plugin.Instance.Put | pkg/plugin/wasm.go:324-338 | refines the placing of bytes, with its empty and faulty cases |
| Plugin.Instance.ReadHeaders | pkg/plugin/wasm.go:500-518 | the loop reads every record, wrap-around of addresses included, or stops at the first fault |
| Plugin.Instance.WriteHeaders | pkg/plugin/wasm.go:521-544 | the loop writes every record of the first 64, or stops at the first fault |
| Plugin.Instance.WriteResult | pkg/plugin/wasm.go:556-581 | refines the result encoding for every kind of answer |
| Plugin.Instance.Send | pkg/plugin/wasm.go:431-455 | the host is asked at most 64 times, exactly the request whose bytes the plugin passed, if it passed a valid one, and the plugin's memory then holds the answer; otherwise the call stops with the first fault |
| Component.Uvarint | pkg/plugin/component.go:29-32 | decodes exactly the LEB128 integers below 2^64 |
| Component.LebPrefix | pkg/plugin/component.go:29-34 | an integer depends only on its own bytes |
| Component.DecodeEncode | pkg/plugin/component.go:29-32 | decoding an encoded integer gives it back, whatever follows |
| Component.CoreModules | pkg/plugin/component.go:19-51 | on every byte string the answer is the one of the grammar: the module, the ID-1 bodies of the sections that tile the input, a nested component, or malformed |
| Component.TilingUnique | pkg/plugin/component.go:27-41 | bytes have at most one division into sections |
| Component.ParsedUnique | pkg/plugin/component.go:19-51 | so the grammar has one answer for every byte string |
| Component.RoundTrip | pkg/plugin/component.go:19-51 | encoding any sections and parsing gives the bodies of those with ID 1, each in its place, when there is one and all are modules; otherwise the fault says which of the two fails |
| Jaro.JaroWinkler | pkg/identity/identity.go:281-328 | computes the score, without running past either string |
| Jaro.MarkMatches | pkg/identity/identity.go:293-304 | marks both arrays as the greedy matching does and counts it |
| Jaro.CountDiffering | pkg/identity/identity.go:308-320 | counts the pairs of matched characters, in order, that differ |
| Jaro.MoreMarks | pkg/identity/identity.go:313-315 | the inner scan always has a mark ahead |
| Jaro.SameCounts | pkg/identity/identity.go:293-304 | equally many positions are marked in both strings |
| Jaro.Exchange | pkg/identity/identity.go:295-304 | the greedy choice costs any other matching at most one pair |
| Jaro.MatchesIsMaximum | pkg/identity/identity.go:293-304 | no matching within the window is larger than the greedy one |
| Jaro.MatchesSymmetric | pkg/identity/identity.go:293-304 | the number of matches is the same with the arguments swapped |
| Jaro.ScoreInRange | pkg/identity/identity.go:280-328 | the similarity is in [0, 1] |
| Jaro.OneExactlyWhenEqual | pkg/identity/identity.go:280-328 | it is 1 exactly on equal strings |
| JaroSymmetry.Stable | pkg/identity/identity.go:295-304 | of two near equal characters the scan does not pair, one has an earlier partner |
| JaroSymmetry.MarksMirror | pkg/identity/identity.go:293-304 | scanning either string marks the same characters |
| JaroSymmetry.ScoreSymmetric | pkg/identity/identity.go:280-328 | the similarity is the same with the arguments swapped |
| JaroValues.ScoreOfScan | pkg/identity/identity.go:280-328 | the score from any account of what the scan within half the longer length finds: the mean of the three shares, lifted by a tenth of what is missing for each of up to four agreeing characters in front |
| JaroValues.KnownValues | pkg/identity/identity_test.go:87-98 | the exact values of the three well-known pairs the tests use |
| Matching.Suggest | pkg/identity/identity.go:240-265 | the first suggestions of the ranking of each master's best |
| Matching.Match | pkg/engine/activities.go:176-178 | with at least two suggestions kept, a master is linked exactly when it reaches the threshold, is ahead of all others and every other is below one half |
| Matching.SuggestedScoreIsMaximum | pkg/identity/identity.go:241-250 | each master's score is the maximum rounded score of its candidates with a reason, and a master is suggested exactly when it has one |
| Matching.KeptIsNearlyBest | pkg/identity/identity.go:247-249 | the kept candidate is within 0.001 of the best |
| Matching.KeptIsChoice | pkg/identity/identity.go:241-250 | the kept candidate is the last of those rounding to the maximum that was rounded down, or the first if none was |
| Matching.KeptIsBestExactly | pkg/identity/identity.go:238-250 | it is the master's best-matching record exactly when no other of those is better |
| Matching.KeptMayNotBeBest | pkg/identity/identity.go:247-249 | an instance in which it is not |
| Matching.RankingUnique | pkg/identity/identity.go:251-260 | the ranking does not depend on the order in which the map is walked |
| Matching.TruncationKeepsDecision | pkg/identity/identity.go:261-278 | keeping two or more suggestions changes no decision; keeping one changes it exactly when the runner-up made it ambiguous |
| Matching.DecidesOnlyUnambiguous | pkg/identity/identity.go:270-278 | Decide over all masters links exactly the certain one |
| Pairs.GroupsAreFirst | pkg/identity/train.go:174-186 | each master keeps its first 50 records that have attributes |
| Pairs.PairCount | pkg/identity/train.go:203-203 | n records have n(n-1)/2 pairs |
| Pairs.PairAtPosition | pkg/identity/train.go:189-212 | the pair of any two records stands in the list |
| Pairs.PositionUnique | pkg/identity/train.go:189-212 | at a position no other pair has |
| Pairs.PositionTaken | pkg/identity/train.go:189-212 | and every position is some pair's |
| Pairs.MatchingApart | pkg/identity/train.go:190-198 | matching pairs lie within one master |
| Pairs.TrainingPairs | pkg/identity/train.go:173-221 | if all pairs fit the bound, every unordered pair of kept records once, labelled by equality of masters; otherwise all matching pairs once and, of as many draws as the bound, those of different masters |
| Sorting.Sort | pkg/meta/meta.go:266-274 | an ordered permutation, for any strict weak order |
| Sorting.BeforeExactly | pkg/meta/meta.go:266-274 | strings are ordered by the first character in which they differ, beginnings first |
| Sorting.SortUnique | pkg/meta/meta.go:266-274 | there is only one when all elements compare |
| Audit.Verify | pkg/audit/audit.go:151-171 | accepts exactly the files that are a readable chain, and returns its last entry |
| Audit.OpenFile | pkg/audit/audit.go:102-117 | opens exactly the files that verify, and continues their chain |
| Audit.Log.Record | pkg/audit/audit.go:123-140 | appends the sealed next entry, or, when the write fails, any first part of its line that the log does not count; the entry says who did what, when to the microsecond, and commits to the one before |
| Audit.NextSeals | pkg/audit/audit.go:48-55 | no other entry says that in its place |
| AuditHistory.HistoryVerifies | pkg/audit/audit.go:102-171 | after any records, failed writes that left any bytes, and reopenings, the file verifies and can be reopened exactly when every line is shorter than 16 MiB and its trail is not broken |
| AuditHistory.HistoryCounts | pkg/audit/audit.go:102-140 | the number is the number of records, and of failed writes whose whole entry a reopening found |
| AuditHistory.CleanHistory | pkg/audit/audit.go:102-171 | without bytes left by failed writes the trail is clean and the number is the number of records |
| AuditHistory.WriteBreaks | pkg/audit/audit.go:123-140 | bytes after anything but whole lines the log knows spoil the file for good |
| Audit.SameHeadSameLog | pkg/audit/audit.go:38-79 | two chains with the same head hash hold the same entries |
| AuditCodec.PlainIsLawful | pkg/audit/audit.go:38-66 | the laws assumed of the hash and the encoding can be met |
| Audit.DeletionDetected | pkg/audit/audit.go:69-79 | a deleted entry is detected unless it was the last |
| Audit.EditDetected | pkg/audit/audit.go:69-79 | a changed entry is detected unless it was the last and is sealed anew |
| Meta.Diff | pkg/meta/meta.go:204-276 | lists every change exactly as often as it is found, by object, field and kind, whatever the order of the maps |
| Meta.DiffObject | pkg/meta/meta.go:220-259 | the changes of one object, with repeated new names compared once |
| Drift.LastObject | pkg/meta/meta.go:206-213 | of objects of one name the last is compared |
| Drift.LastField | pkg/meta/meta.go:220-224 | of old fields of one name the last is compared |
| Drift.ObjectCountExact | pkg/meta/meta.go:220-259 | with unique field names a change is listed once, exactly when the fields by name differ so |
| Drift.ListedExactly | pkg/meta/meta.go:204-276 | the listing holds exactly the differences, kind by kind, each once; a field a sample did not show is listed as not seen, and not breaking; they stand by object, field and kind |
| Drift.DecimalReads | pkg/meta/meta.go:246-248 | lengths are listed as their decimal numerals |
| Drift.OrderIrrelevant | pkg/meta/meta.go:204-276 | the listing depends only on what the catalogs hold, not on the order of maps, objects or fields |
| Drift.ShuffledSame | pkg/meta/meta.go:103-120 | reordering objects and fields of unique names changes nothing a catalog holds |
| Drift.DiffOfItself | pkg/meta/meta.go:204-276 | a catalog differs from itself in nothing exactly when no object repeats a field name |
| Drift.BrokenWrite | pkg/meta/meta.go:225-259 | for every breaking change that can be felt there is a write the old object takes and the new one refuses |
| Drift.BreakingIsExact | pkg/meta/meta.go:204-276 | every write a declared object took is still taken exactly when no change listed about it is breaking, unwritable fields and objects aside |
| Learning.Discovery.KeepRequired | pkg/meta/learn.go:46-75 | each object becomes what the known required fields of its name make of it, in place, and no other |
| Learning.Discovery.Learn | pkg/meta/learn.go:19-40 | the first sampled object of that name learns the field, and the answer tells whether anything changed |
| Learning.Discovery.Normalize | pkg/meta/meta.go:103-120 | the same objects and fields, in order |
| Learning.NormalUnique | pkg/meta/meta.go:101-120 | catalogs that differ only in order are equal once normalized, for unique names |
| Learning.LearnedIsKnown | pkg/meta/learn.go:19-40 | afterwards the field is known to be required exactly when a sampled object of that name exists; declared objects stay as they are |
| Learning.LearnedExactly | pkg/meta/learn.go:15-40 | only the first sampled object of the name changes: its first field of that name is required for the reason given unless it was before, or one field known by name and reason alone is added |
| Learning.CarriedExactly | pkg/meta/learn.go:46-75 | a sampled object then requires exactly what it did and what was known, and the latter in every occurrence |
| Learning.CarriedOnly | pkg/meta/learn.go:58-70 | nothing else changes: fields stay in place and differ only in being required, for the reason that was known, and each added field is a known one, carried whole |
| Learning.RequiredForever | pkg/meta/learn.go:42-75 | over any chain of discoveries a known required field stays required while its object stays present and sampled |
| Learning.NeverReportedLost | pkg/meta/meta.go:239-259 | so no diff to a later snapshot lists it as no longer required, not seen or removed |
| WriteId.AgentRoundTrip | pkg/agent/write.go:183-186 | an escaped agent has no colon or slash and unescapes to the agent |
| WriteId.EscapedExactly | pkg/agent/write.go:181-186 | an agent is escaped byte by byte and stays as it is exactly when all its bytes are safe |
| WriteId.OwnerRoundTrip | pkg/agent/write.go:177-199 | the owner of a write ID is its tool and agent exactly when both are nonempty and the tool has no slash; for every tool the text after the colon is the request ID |
| WriteId.WriteIdsDistinct | pkg/agent/write.go:177-181 | distinct requests never share a workflow |

## Left out

- Saga.FailedRunRestores: asks that no commit of the run answered that its write was already there; `Saga.RestoresExactly` shows that this is exact where targets count their records, but on arbitrary targets a compensation that happens to change nothing restores them anyway.
- DeliveryStream.StreamedEventsKept: with several subscribers at once it says what is kept, not what is not; `DeliveryStream.StreamedEventsExactly` says both when a lock keeps the subscription to one.
- DeliveryStream.StreamedEventsExactly: the lock is kept until its holder stops; a holder that goes on after the lock's store lost its connection is covered by `DeliveryStream.StreamedEventsKept` alone.
- Several triggers in one runtime, and switching a trigger between polling, webhooks and subscriptions: the model fixes one trigger and its mode, because the poll cursor's name is shared between modes.
- Inbox pruning after 30 days, metrics, notifications and logs: no effect on what is proved.
- Floating-point rounding, and how `Model.Compare` computes a score and its reasons: candidates come with both.
- Carriage returns at the end of audit lines, which the reader drops: no encoding has them.
- The Postgres stores, the write guard, the verifier and the compiler: used through the contracts their callers state.
- Approval and run search attributes, versions of running workflows, plugins run after a committed write, and payload encryption: bookkeeping of the workflow engine.
- The fixed wait of a subscriber that did not get the lock: only its tries are modelled.
- Restarts of a crashed worker process with backoff: a worker counts as running until it is stopped.
- The remaining host functions (`entities.get`, `entities.propose-change`, `events.publish`): the same reads and the same result encoding as `http.send`, and would only add easy members.
- The invocation of `handle` and its result, memory alignment, and time limits of plugins.
- Uses of fields, their annotation on changes, and fields learned from refusal texts: sorting and text matching around the diff.
- Training, evaluation and the blocking of candidates in identity matching: heuristics and statistics without a crisp promise.
