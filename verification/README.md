# A verified model of the Go RLM kernel and its host client

This project models the concurrent core of the Go RLM runtime and proves what it promises. Nothing in
it is executed: the results hold of the model, which follows the branches, order of operations and
constants of the Go code.

**The kernel protocol.** A reader parses request lines and routes them; an executor runs queued requests
one at a time; a table actor owns cancel functions and parked interrupts; a writer serialises events; a
client on the other end runs any number of concurrent `Execute` calls; a bridge correlates host calls
made by cells with their replies. They meet only in FIFO channels. The model (`Kernel`, `Host`,
`BridgeCalls`, `Scope`, `EditLocks`) is a set of labelled transition systems: a channel is the sequence
of everything sent into it and a count of what was received, every actor keeps its own locals, one step
is one channel operation, and any enabled actor may go next. Theorems about runs are proved by
invariants over every interleaving. The actors' own code is modelled as classes whose methods are proved
against the same specification functions, or shown to be paths of the transition system
(`KernelActors`), so that the theorems cover them.

**The sequential parts.** The source chunker, the snapshot planner with snapshot and restore, the Go
evaluator's cell with its import memo, NDJSON framing, and the exact-string edit.

| file | what it holds |
|---|---|
| `Frames`, `Prelude`, `Text`, `Sorting` | wire frames; small shared vocabulary; TrimSpace, Split and Join; sorted listings |
| `RequestTable` | the interrupt table as an actor and as a fold over command histories, and the history specification of interrupts |
| `Kernel`, `KernelAccounts`, `KernelDrain`, `KernelInterrupts`, `KernelOrder` | the kernel's transition system; done events; draining, and exactly when a shutdown loses a request; cross-channel order around the table; what a client can rely on |
| `KernelWire`, `KernelPaths` | what the wire shows in every run; what the kernel can always do next, up to stopping |
| `KernelActors`, `KernelCells`, `KernelGoRuns` | the kernel's methods; the evaluator inside it; the runs of the kernel with the Go evaluator |
| `Host`, `HostCalls`, `HostActors` | the client wired to the kernel; what `Execute` returns; the event reader |
| `HostShutdown`, `HostPaths`, `HostInterrupts` | shutting down as the callers see it; what a caller's line brings about; an Execute that is cut short |
| `Bridge`, `BridgeCalls`, `HostBridge` | the registry of host calls; calls, host and registry interleaved; the calls of cells with the project's own client |
| `Scope` | the namespace actor and its clients |
| `Chunker`, `ChunkTheorems`, `ChunkSpans`, `ChunkBalance` | the chunker's loop; losslessness and idempotence; where the chunks of any source begin and end; balanced sources |
| `Snapshot` | planner, snapshot, restore, round trip |
| `GoImports`, `GoEval` | import paths; import memo, one evaluator run, mapping of outcomes to events |
| `Framing` | the writer actor and a line scanner on the other end |
| `Edit`, `EditLocks` | one edit and its undo; edits of one path by many threads |

## Assumptions

They appear as named predicates or preconditions of the theorems that need them.

- Request ids are not empty and never reused (`KernelAccounts.UniqueIds`). The table overwrites the cancel
  function of a repeated id (rlm/dispatch.go:112) and reads an empty active id as idle
  (rlm/dispatch.go:129). `RequestTable.InterruptReachesLatest` says exactly which request an interrupt
  reaches without this, and `RequestTable.ReusedIdLosesInterrupt` gives a history that loses one. For the
  in-process client it is not assumed but proved (`HostCalls.ClientDiscipline`), given that generated ids
  are fresh (host/kernel.go:197).
- Generated host-call ids are fresh (rlm/harness.go:66).
- "Exactly one done" for every request, and "the executor leaves nothing queued", need a clean run
  (`Kernel.Clean`): no cancellation has closed the drain channel while enqueue stood between its check
  and its send, and the grace did not expire before the executor had exited (`Kernel.CleanIff`).
  Shutdown frames, the end of input, and every other cancellation, that of `KernelHost.Shutdown`
  included, keep a run clean. This is exact: a cancellation of a clean run can lose a request, with no
  expiry of the grace, if and only if it finds enqueue there (`KernelDrain.CancelLosesIff`,
  `HostShutdown.CancelStrandsIff`), and then it loses at most one (`KernelDrain.AtMostOneLost`). Of every
  run `KernelAccounts.AnsweredIff` and `HostCalls.ExecuteIsAnsweredIff` say which requests are answered
  and which calls can return.
- A host that answers only ids it saw on the wire (`guessed` is false in `BridgeCalls`) is needed only
  for "no reply is lost"; that replies are not crossed and the registry never blocks holds of any host.
  The project's own client is such a host (`HostCalls.RepliesAnswerRequests`), so with it no reply is lost
  (`HostBridge.EveryReplyArrives`).
- A cell terminates: each request's script of events is finite, and otherwise arbitrary.
- Brace balance of a source is at line boundaries and for braces only; the chunker does not count
  parentheses (rlm/chunk.go:39).
- Clients of the scope other than the request being handled are idle while snapshot and restore run.

## Where the code and its documentation differ

The model follows the code.

- `Write` is said to report the first write failure (rlm/frames.go:156-157); a later failure overwrites
  the stored one (rlm/frames.go:149-152). `Framing.SecondFailureReplaces` is such a run, and
  `Framing.FirstIsStoredIff` says when `Write` reports the first failure: if and only if no frame taken
  since has failed.
- `KernelHost.Shutdown` is said to ask the kernel to drain and stop (host/kernel.go:215-220), but it also
  cancels the kernel's context. `HostShutdown.ShutdownStrandsExecute` gives runs in which an `Execute` is
  stranded by it, `HostShutdown.StrandedNeverReturns` shows that it then never returns, and
  `HostShutdown.CancelStrandsIff` is the exact condition; otherwise it drains
  (`HostShutdown.CancelAnswersExecutes`).
- A cell whose value cannot be read, because reading it panics, fails after its names were mirrored
  (rlm/goeval.go:210-217): `GoEval.UnprintableCellMirrors`, and `GoEval.MirroredFailureIff` for the exact
  condition.
- A call of `Execute` whose pending was not registered when the event stream ended waits for ever
  (host/kernel.go:199-200); `HostShutdown.GoneReturnsIff` says that it is the only kind that then does.
- ARCHITECTURE.md calls the scope RWMutex-guarded and the writer locked; both are single-goroutine actors.
- The edit is said to return the number of replacements (skills/edit/skill.go:30-31); when the final rename
  fails it returns 1 together with the error, and the file is unchanged (skills/edit/skill.go:66):
  `EditLocks.FailedRenameCounts`, and `EditLocks.CountMisleadsIff` for the exact condition.
- A snapshot whose manifest path is its payload path overwrites the payload
  (rlm/snapshot.go:91-99). `Snapshot.SnapshotThenRestore` states the round trip with its exact condition.
- A new string that occurs once as the code counts need not make an edit undoable: an earlier occurrence
  can overlap the one put in (`Edit.OverlapBreaksUndo`); `Edit.UndoIff` is the exact condition.
- An edit of a text where the old string overlaps itself can succeed: `strings.Count` counts without
  overlap. The old string is then still in neither the part before nor the part after
  (`Edit.EditSucceedsIff`).

## Model

| member | source | states |
|---|---|---|
| RequestTable.TableActor.Process | rlm/dispatch.go:109-137 | each command changes active id, cancel functions, parked entries and called cancels as the fold over histories says, and an activate is answered with its cancel function and whether it was parked for |
| RequestTable.TableActor.Run | rlm/dispatch.go:104-139 | for any batch of commands the actor ends in the state of the history fold and has answered every activate accordingly |
| RequestTable.TableTracksHistory | rlm/dispatch.go:75-81 | after any well-formed history the table's fields are readable off the history: who runs, whose cancel function is held, whether a parked id-less interrupt waits |
| RequestTable.KeptUntilActivation | rlm/dispatch.go:122-128 | until a request is activated, an interrupt that names it is kept: parked before registration, in the cancelled context after; nothing else cancels it |
| RequestTable.ParkedIff | rlm/dispatch.go:122-128 | after any history, with no assumption, an interrupt is parked for x if and only if one that names x came while x was not registered and x has not been activated since |
| RequestTable.InterruptDelivery | rlm/dispatch.go:75-81 | for all histories: a request is interrupted if and only if an interrupt named it before its end, or an id-less one came during its run, or an id-less one came while nothing ran and it was next |
| RequestTable.InterruptIsolation | rlm/dispatch.go:122-136 | for all histories: taking out every interrupt that names x changes nothing but x's parked entry and contexts registered for x, so no other activation is answered differently |
| RequestTable.OthersUntouched | rlm/dispatch.go:122-136 | in a well-formed history whether any other request is interrupted, by its cancelled context or by what its activation is told, does not depend on the interrupts that name x |
| RequestTable.LateInterrupt | rlm/dispatch.go:122-128 | after x's registration an interrupt naming x cancels its context, unless x has ended; only then it parks, and x is never activated again |
| RequestTable.InterruptReachesLatest | rlm/dispatch.go:122-126 | with no assumption on ids: an interrupt naming a live id newly cancels a context if and only if it is the one last registered under that id |
| RequestTable.ReusedIdLosesInterrupt | rlm/dispatch.go:111-112 | a reused id makes the first request's cancel function unreachable |
| KernelAccounts.ReachedInv | rlm/dispatch.go:32-73 | the invariant of every run, with no assumption: each done event is tied to one frame read, dones of queued requests are in input order, what is queued, held or running is unanswered, and a clean shutdown leaves nothing behind |
| KernelAccounts.AtMostOneDone | rlm/cell.go:28-30 | in any run no id has two done events |
| KernelAccounts.AnsweredIff | rlm/dispatch.go:53-73 | in any run, forced shutdowns included, a request that was read has its done event if and only if it is not in the reader's hands, was not given up by enqueue, and was started by the executor if it was queued and is not still running |
| KernelAccounts.EveryRequestIsSomewhere | rlm/dispatch.go:55-73 | in any run every request read is answered, in the reader's hands, in the queue, or given up; one given up is none of the others, and a clean run has none |
| KernelAccounts.ExactlyOneDone | rlm/repl.go:116-129 | in a clean run, when the executor has exited, a request read has a done event if and only if the reader is not still at it, and never two |
| KernelAccounts.ReaderAnswers | rlm/dispatch.go:43-63 | what the reader answers itself: a shutdown with ok, a refused request with error |
| KernelAccounts.DonesInOrder | rlm/executor.go:8-9 | dones of queued requests come in acceptance order, which is that of the input |
| KernelAccounts.AnsweredIffStarted | rlm/executor.go:13-18 | of the requests accepted, a run leaves without an answer exactly those not started, or still running |
| Kernel.CleanIff | rlm/repl.go:116-129 | a run is clean if and only if no cancellation in it closed the drain channel while enqueue stood between its check and its send, and the grace did not expire before the executor had exited |
| KernelDrain.DrainMeasure | rlm/executor.go:13-28 | in any run, once intake is closed every executor step, whichever branch its selects take, decreases a well-founded measure that counts the requests past enqueue's check, and no other step raises it |
| KernelDrain.ExitPath | rlm/executor.go:10-29 | in any run, once intake is closed the executor can get to its exit by steps of its own and of the table |
| KernelDrain.LeavesNothingQueued | rlm/executor.go:19-26 | in a clean run the executor exits only with the queue empty and every accepted request answered |
| KernelDrain.AtMostOneLeftOver | rlm/dispatch.go:55-73 | in any run in which the grace does not cut the executor short, when it has exited, requests unstarted, given up or in enqueue's hands number at most one |
| KernelDrain.AtMostOneLost | rlm/dispatch.go:55-73 | so at most one request is lost |
| KernelDrain.CancelAnswersAll | rlm/repl.go:105-106 | after a cancellation of a clean run that does not find enqueue between its check and its send, and without expiry of the grace, every request read is answered when the executor exits, unless the reader is still at it |
| KernelDrain.CancelLosesIff | rlm/dispatch.go:55-73 | some continuation of a cancellation without expiry of the grace loses a request if and only if the cancellation finds enqueue between its check and its send |
| KernelDrain.OuterCancelStrandsRequest | rlm/dispatch.go:55-73 | a concrete run: outside cancellation between enqueue's check and its send leaves a request queued behind an exited executor |
| KernelPaths.StopPath | rlm/repl.go:105-129 | from any reachable state in which the input has ended, a shutdown frame was read, or the drain channel is closed, the kernel can stop by its own steps: the executor exits, in a clean run with nothing left queued, and the root context is cancelled |
| KernelPaths.ShutdownBegins | rlm/dispatch.go:43-47 | a shutdown frame that was read has closed the drain channel, or is just about to |
| KernelPaths.ReadAllPath | rlm/dispatch.go:15-29 | the reader can always read on until it has taken every line and is through with the last |
| KernelPaths.TableAllPath | rlm/dispatch.go:109-138 | the table can always handle everything it was sent |
| KernelPaths.NothingAcceptedLater | rlm/dispatch.go:53-65 | once the drain channel is closed and enqueue is through, no continuation accepts a request or gives one up |
| KernelPaths.GraceLosesTwo | rlm/repl.go:121-127 | a run in which the expiry of the grace leaves two requests behind |
| KernelWire.WireIsValid | rlm/repl.go:93-97 | in every run every event handed to the writer is of a kind it accepts, and the first, and no other, is the ready handshake |
| KernelWire.MalformedIsReported | rlm/dispatch.go:20-27 | in every run each malformed line read has exactly one protocol error without an id on the wire |
| KernelWire.InterruptsAreSent | rlm/dispatch.go:36-37 | in every run the table has been sent exactly the interrupts read, in order |
| KernelWire.RefusalIsExplained | rlm/dispatch.go:53-64 | in every run a request that the reader answers itself is answered after intake was closed, with an error that says so and then done:error |
| KernelWire.AnswerEndsScript | rlm/executor.go:31-66 | in every run the done event of a queued request ends the whole of its script, in order |
| KernelWire.ExecutorAnswers | rlm/executor.go:49-66 | list_names is answered with ok, snapshot, restore and execute with ok or error, and an unknown type by a protocol error that names it and then done:error |
| KernelInterrupts.ReachedInterruptInv | rlm/dispatch.go:66-73 | in every run the commands in the table's channel form a well-formed history, registration before activation, and the executor waits for at most one answer, which is coming |
| KernelInterrupts.ActivationFindsCancel | rlm/executor.go:34-47 | the answer to a request's activation always carries that request's own cancel function |
| KernelInterrupts.InterruptsReachTheirTarget | rlm/executor.go:32-47 | in every run, after its activation was answered, a request's context has been cancelled, by the table or by the executor for a parked interrupt, if and only if the history specification says so |
| KernelInterrupts.NamedRequestRunsCancelled | rlm/executor.go:45-47 | a running request that an interrupt has named runs with its context cancelled |
| KernelInterrupts.InterruptAfterRequest | rlm/dispatch.go:122-128 | an interrupt behind its request's registration cancels that request's context, or parks for ever if it has ended |
| KernelInterrupts.ExecutorNeverStuck | rlm/executor.go:10-29 | while there is work, or intake is closed, the executor or the table it waits for can take a step |
| KernelOrder.ReachedOrderInv | rlm/cell.go:78-87 | in every run every attributed event carries the id of a request already read, and an interrupt sent after its request follows that request's registration into the table's channel |
| KernelOrder.EndedNeverAgain | rlm/dispatch.go:119-128 | in no continuation is a request that has ended activated again |
| KernelOrder.TurnedAwayNeverAgain | rlm/dispatch.go:55-73 | in no continuation is a request that was refused or given up ever activated |
| KernelOrder.LateInterruptIsHarmless | rlm/dispatch.go:122-128 | with a client that interrupts only what it asked for, an interrupt cancels its own request, or finds it ended or refused and is parked under an id that no continuation activates |
| KernelActors.KernelProcess.Dispatch | rlm/dispatch.go:12-51 | one input line, end to end, is a path of the transition system and puts exactly the stated work, table commands and events into the three channels |
| KernelActors.KernelProcess.BeginShutdown | rlm/repl.go:118-120 | closes the drain channel, as a path of the transition system |
| KernelActors.KernelProcess.Enqueue | rlm/dispatch.go:55-73 | refuses with an error and an error done once intake is closed, else registers first and then queues, or gives the request up when the root context has ended |
| KernelActors.KernelProcess.RunRequest | rlm/executor.go:32-67 | activation, parked delivery, the request's events, deactivation: a path of the transition system that writes exactly the request's events |
| KernelActors.KernelProcess.Perform | rlm/executor.go:49-66 | a request's events reach the writer one by one, in order |
| KernelActors.KernelProcess.Turn | rlm/executor.go:13-28 | one turn of the loop, before the drain or in it: it takes a ready branch, as a path of the transition system, and runs the next request, turns to draining, or exits as that branch says |
| KernelActors.KernelProcess.Executor | rlm/executor.go:10-29 | once intake is closed the loop ends, whichever ready branch it takes, having run the queued requests in order, and all of them unless the root context has ended |
| KernelActors.PathsFromReachable | rlm/executor.go:10-67 | what these methods do to a reachable state leaves a reachable state, so every theorem about runs covers them |
| KernelCells.InterruptedCellFails | rlm/goeval.go:196-206 | in every run a Go cell that an interrupt was meant for in time, by name or not, mirrors no name and ends with an error event and done:error, with no result, whatever its code does |
| KernelCells.InterruptedCellOnTheWire | rlm/cell.go:53-75 | and however the run goes on, the wire never shows a result with that id, and the cell's done, when it is there, says error and has an error event with the id before it |
| KernelGoRuns.CellIsGoScript | rlm/goeval.go:202-206 | what runCell emits for a cell that is found cancelled when its context was cut off before it is a script of the kernel with the Go evaluator |
| KernelGoRuns.EarlyInterruptFails | rlm/executor.go:45-51 | in every run of the kernel with the Go evaluator, a cell for which an interrupt was waiting when it was activated never shows a result on the wire, and its done says error and has an error event before it; nothing is assumed of the cell |
| Host.FirstDone | host/kernel.go:143-147 | the first done event that carries an id |
| HostActors.Pending.constructor | host/kernel.go:197-198 | a new pending holds nothing and is open |
| HostActors.Pending.Close | host/kernel.go:143-147 | a pending is closed once |
| HostActors.EventReader.Register | host/kernel.go:107-109 | a registration adds that pending and no other |
| HostActors.EventReader.OnEvent | host/kernel.go:122-149 | an event changes at most the one pending it names, by what it says; a done closes it and takes it out; a host request is answered; nothing is closed twice |
| HostActors.EventReader.StreamEnd | host/kernel.go:110-116 | at the end of the stream every pending left is closed once and keeps what it holds |
| HostCalls.EventCall | host/kernel.go:122-149 | after one more event each call's pending holds exactly what the call is owed of the wire so far |
| HostCalls.ReachedSys | host/kernel.go:86-120 | the invariant of client and kernel together, over every interleaving; the kernel inside is in a state it reaches by itself |
| HostCalls.ClientDiscipline | host/kernel.go:196-213 | the lines this client puts on the wire satisfy what the kernel's theorems assume: ids not empty, not reused, interrupted only after being asked for |
| HostCalls.ExecuteReturnsItsOutput | host/kernel.go:195-213 | a returned call has exactly one done on the wire and returns exactly the non-empty stdout and stderr texts with its id before it, in wire order, the last result and the last error; nothing earlier is missed and nothing of another call is included |
| HostCalls.ExecuteAtStreamEnd | host/kernel.go:110-116 | if the stream ended first, wherever the scanner stopped, the call returns everything that was read for it |
| HostCalls.ExecuteIsAnsweredIff | host/kernel.go:204-212 | in any run, when the wire has been read, an Execute can return if and only if its request was read, was not given up, and was started by the executor, which is not still at it |
| HostInterrupts.CutShortInterrupts | host/kernel.go:207-209 | in every reachable state a call that is cut short has sent its interrupt behind its request, and interrupts are sent by such calls alone |
| HostInterrupts.CutShortArrives | host/kernel.go:207-209 | by writing, reading and handling lines alone, while the executor does not move, that interrupt gets to the table |
| HostInterrupts.CutShortCancels | host/kernel.go:207-210 | in every reachable state, once the table has come to it before the request's end, the request's own context is cancelled, unless the request was refused |
| HostInterrupts.CutShortReturnsError | host/kernel.go:195-212 | with the Go evaluator, a call whose interrupt was there when its request was activated returns an error and no result, whatever its code does |
| HostInterrupts.CutShortEarly | host/kernel.go:207-211 | so does a call that is cut short, when the table comes to its interrupt before its activation |
| HostCalls.CutShortIsHarmless | host/kernel.go:207-211 | any interrupt the table comes to cancels its own request, or finds it ended or refused, its id never to be activated again; it cannot poison a later cell |
| HostCalls.RepliesAnswerRequests | host/kernel.go:153-172 | every reply this client puts on the kernel's input answers a host request it read |
| HostShutdown.CleanShutdownAnswersAll | host/kernel.go:204-212 | in a clean run, when the executor has exited and the wire was read, every Execute whose request was read can return, but one the reader is still at |
| HostShutdown.ShutdownDrains | host/kernel.go:215-220 | whatever clients, reader and writer do meanwhile, once intake is closed every executor step brings it nearer to its exit and no other step takes it further away |
| HostShutdown.CancelAnswersExecutes | host/kernel.go:215-220 | after a cancellation that does not find enqueue between its check and its send, and without expiry of the grace, that holds of every Execute: the drain that Shutdown promises |
| HostPaths.ReturnPath | host/kernel.go:204-212 | an Execute whose request is through, cut short or not, can return as soon as the client has read the wire |
| HostPaths.ShutdownStops | host/kernel.go:215-218 | from any reachable state with the input open, the shutdown line alone, the writing of lines and the kernel's own steps get it to where the executor has exited and the root context is cancelled, in a clean run with nothing left queued |
| HostShutdown.CancelStrandsIff | host/kernel.go:215-220 | some continuation of a cancellation without expiry of the grace strands an Execute if and only if the cancellation finds enqueue between its check and its send |
| HostShutdown.AtMostOneStranded | host/kernel.go:215-220 | if the grace does not expire first, at most one Execute is stranded |
| HostShutdown.ShutdownStrandsExecute | host/kernel.go:215-220 | two runs in which the client's own Shutdown strands an Execute, in the queue or given up |
| HostShutdown.StrandedNeverReturns | host/kernel.go:207-211 | in no continuation does a stranded Execute return while its event stream is open |
| HostShutdown.GoneReturnsIff | host/kernel.go:199-212 | after the end of the event stream a call can ever return if and only if its pending was registered |
| HostShutdown.EndReturns | host/kernel.go:110-115 | the event stream can end at any time, and then a registered call can return |
| Bridge.ReplyChan.Send | rlm/harness.go:46 | a send into a channel of capacity one |
| Bridge.RegistryActor.Register | rlm/harness.go:41-42 | adds the call's channel, as one step of the registry's specification |
| Bridge.RegistryActor.Resolve | rlm/harness.go:43-47 | the reply goes into the channel of the call it names and nowhere else, and the send finds the channel empty |
| Bridge.RegistryActor.Drop | rlm/harness.go:48-49 | takes out that call and no other |
| Bridge.RegistryExact | rlm/harness.go:37-52 | for all histories: pending are exactly the calls registered, unanswered and not dropped; a channel gets at most one reply, sent for the id that owns it |
| Bridge.RepliesStay | rlm/harness.go:43-47 | what a channel got is never taken back or added to |
| Bridge.FirstReplyIsKept | rlm/harness.go:43-47 | the first reply to a registered call not dropped is in its channel for good |
| BridgeCalls.ReachedInv | rlm/harness.go:65-86 | the invariant of calls, host, reader and registry over every interleaving |
| BridgeCalls.RegisteredBefore | rlm/harness.go:3-6 | with a host that answers only ids it saw, a resolve always stands behind the registration it answers in the registry's channel |
| BridgeCalls.RepliesAreNotCrossed | rlm/harness.go:79-81 | a call that returns a reply returns one the host sent for its own id, whatever the host sends |
| BridgeCalls.RegistryNeverBlocks | rlm/harness.go:46 | each reply channel is sent to at most once, so a buffer of one never blocks the registry |
| BridgeCalls.PendingIsLive | rlm/harness.go:65-86 | a pending id belongs to a call not returned, or to one given up whose drop is still queued |
| BridgeCalls.QuiescentIsEmpty | rlm/harness.go:65-86 | when all calls have returned and the channel is empty nothing is pending |
| BridgeCalls.NoReplyIsLost | rlm/harness.go:3-6 | with such a host, the first reply to a call not dropped before it is in that call's channel once the registry has come to it |
| BridgeCalls.RoundTrip | rlm/harness.go:65-82 | a call can go out, be answered and return, with whatever the host answers |
| BridgeCalls.GivesUp | rlm/harness.go:72-85 | a call that cannot be written, or whose context ends, gives up and leaves nothing pending |
| HostBridge.ReachedJoint | rlm/harness.go:65-92 | the invariant of calls, kernel and the project's own client together, over every interleaving; each half is in a state it reaches by itself |
| HostBridge.RouteReady | rlm/dispatch.go:38-42 | every reply the reader takes is the next one the client sent, and is handed to the registry |
| HostBridge.AnswersEachOnce | host/kernel.go:153-172 | the client answers each host request it has read exactly once, in wire order |
| HostBridge.EveryReplyArrives | rlm/harness.go:3-6 | with the project's own client, every reply the registry has come to, for a call not dropped before it, is in that call's channel, alone and for good |
| Scope.HoldsStep | rlm/scope.go:33-40 | a command keeps the actor's map what the last writes say |
| Scope.TellsRight | rlm/scope.go:36-53 | an answer read off a map that holds what the last writes say is what they say |
| Scope.ScopeActor.Process | rlm/scope.go:32-54 | one command changes the map object and is answered from it; a map handed out is a new object |
| Scope.ScopeActor.Run | rlm/scope.go:30-55 | after any batch of commands the map holds what the last writes say, and every answer, each map handed out included, still says what was so when it was given |
| Scope.Keys | rlm/scope.go:42-46 | the names of the map, each once, in some order |
| Scope.CopyOf | rlm/scope.go:47-52 | the loop builds a new map object with the same entries |
| Scope.ReachedInv | rlm/scope.go:30-80 | the invariant of clients, actor and map objects over every interleaving: the actor's own map is what the commands handled make of the empty one, and no client holds it |
| Scope.ScopeIsAtomic | rlm/scope.go:3-5 | the channel is one order of all commands that agrees with each client's own, and every answer a client has, read at any later time, says what the last writes before its command say |
| Scope.AnswersArrive | rlm/scope.go:59-64 | once the actor has caught up, every waiting client has its answer |
| Scope.ActorCanGo | rlm/scope.go:32-54 | the actor can always handle the next command, whatever it is |
| Scope.AnswersStay | rlm/scope.go:75-80 | an answer never changes afterwards, and neither does the map object handed out by Entries |
| Text.TrimSpaceBlank | rlm/chunk.go:27-28 | trimming leaves nothing of exactly the blank strings |
| Text.TrimSpaceMeans | rlm/chunk.go:27 | trimming leaves the text without the space around it |
| Text.TrimSpaceUnique | rlm/chunk.go:27 | and that is the only such text |
| Text.IsSpaceIff | rlm/chunk.go:27 | the characters that are space |
| Text.SplitJoin | rlm/chunk.go:13-21 | splitting a join of lines gives the lines back |
| Text.JoinSplit | rlm/chunk.go:13-21 | joining the lines of a text gives the text back |
| Chunker.IsDeclIff | rlm/chunk.go:31-33 | a line begins a declaration if and only if after leading space it has one of the five keywords, one blank, and something more |
| Chunker.CountIsPositions | rlm/chunk.go:39 | the number of braces counted is that of the positions that hold one |
| Chunker.Flushed | rlm/chunk.go:18-25 | a flush appends the joined current lines; the source's test for a blank chunk never fails, because of how a chunk starts |
| Chunker.ScanLine | rlm/chunk.go:26-44 | the loop body over strings is one step of the scan over lines |
| Chunker.ChunkSource | rlm/chunk.go:12-47 | the loop computes the chunks of the scan, for every source |
| ChunkTheorems.Lossless | rlm/chunk.go:12-47 | every source is its chunks in order with only blank lines between them, and every chunk starts with a line that is not blank |
| ChunkTheorems.ChunkLinesAgain | rlm/chunk.go:26-44 | chunking the concatenated chunks gives the same chunks |
| ChunkTheorems.ChunkFixpoint | rlm/chunk.go:12-47 | chunk(join(chunk(src))) == chunk(src) for every source |
| ChunkSpans.ChunksAreSpans | rlm/chunk.go:12-47 | every source, balanced or not: its chunks are the declarations at depth zero, each up to the first line after which the depth is not positive, and what lies between two of them without its leading blank lines; the description does not mention the scan |
| ChunkSpans.SpansAreOne | rlm/chunk.go:12-47 | every source can be cut like that in one way at most |
| ChunkSpans.ChunkOfSpans | rlm/chunk.go:12-47 | so whatever cuts a source like that has found exactly the strings that chunk returns |
| ChunkBalance.BalancedIsCanonical | rlm/chunk.go:8-11 | on a balanced source the chunks are declarations, each ending where its depth is first zero again, and maximal statement runs between them |
| ChunkBalance.CanonicalIsUnique | rlm/chunk.go:8-11 | any such partition of a source is the one the scan finds |
| ChunkBalance.ChunkOfChunk | rlm/chunk.go:12-47 | a chunk of a balanced source, as lines, is its own only chunk |
| ChunkBalance.ChunkStandsAlone | rlm/chunk.go:12-47 | chunk(c) == [c] for every chunk c of a balanced source |
| ChunkBalance.ChunksBalancedIff | rlm/chunk.go:39-43 | every chunk is balanced if and only if the source is |
| ChunkBalance.DeclarationsStandAlone | rlm/chunk.go:31-43 | on a balanced source a line at depth zero that declares, by keyword and not by the source's test, opens its own chunk, which ends at the first line where the depth is zero again |
| ChunkBalance.RunsDeclareNothing | rlm/chunk.go:31-38 | on a balanced source a chunk that does not begin with such a line has none at depth zero |
| ChunkBalance.RunsAreMaximal | rlm/chunk.go:26-45 | on a balanced source no two statement runs are adjacent |
| Sorting.SortedNames | rlm/snapshot.go:38-42 | the strictly increasing list of exactly the given names, whatever order they are picked in |
| Sorting.ListingUnique | rlm/snapshot.go:35-42 | there is only one such list |
| Sorting.LessIff | rlm/snapshot.go:42 | one name comes before another exactly when at the first place where they differ it has ended or has the smaller character |
| Snapshot.PlanSnapshot | rlm/snapshot.go:37-68 | the loop computes a plan that depends on the entries and limits only, not on map order |
| Snapshot.PlanExact | rlm/snapshot.go:35-68 | saved, skipped and pruned are sorted, disjoint and cover all names; bytes is the sum of the saved sizes and at most max(0, maxTotal); saved sizes are within maxVar; exactly the oversized are pruned when pruning is on; nothing skipped for lack of room could still be added |
| Snapshot.PlanIsGreedy | rlm/snapshot.go:44-66 | in sorted order an entry is saved exactly when it can be marshalled, is within the limit for one variable, and there is room behind what was saved before it |
| Snapshot.PlanKeepsTo | rlm/snapshot.go:75-87 | in the terms of the request: nothing is pruned unless it says so, saved entries are within 262144 bytes and 8388608 in all unless it says otherwise, and nothing that would still fit is left out |
| Snapshot.Store.AtomicWrite | rlm/snapshot.go:155-173 | the file is replaced whole or not at all; an empty path fails |
| Snapshot.Store.Snapshot | rlm/snapshot.go:74-113 | prunes exactly the pruned names when both writes succeed and nothing when either fails, and never unless the request says so; the manifest is written only after the payload; the plan keeps to the limits of the request |
| Snapshot.Store.Prune | rlm/snapshot.go:105-109 | deletes exactly the given names |
| Snapshot.Store.Restore | rlm/snapshot.go:118-151 | a missing, unreadable or corrupt file changes nothing; otherwise the scope is overridden by exactly the entries that decode, and restored and failed are the sorted lists of both kinds |
| Snapshot.Store.ReadOne | rlm/snapshot.go:140-146 | one entry is set if it decodes |
| Snapshot.Store.ReadBack | rlm/snapshot.go:138-147 | the loop over the entries, in any order |
| Snapshot.SavedDecode | rlm/snapshot.go:45-66 | what a plan saved decodes to exactly the saved entries if and only if each of them reads back |
| Snapshot.SnapshotThenRestore | rlm/snapshot.go:70-151 | snapshot, any change of scope, restore: the later scope overridden by exactly the saved entries, all saved names restored and none failed, if and only if nothing was saved, or the manifest did not overwrite the payload and what was saved reads back |
| Edit.IndexFrom | skills/edit/skill.go:52 | the leftmost occurrence at or after a position |
| Edit.CountIsZeroIff | skills/edit/skill.go:45-48 | the count is zero exactly when there is no occurrence |
| Edit.CountIsReached | skills/edit/skill.go:45 | there are as many occurrences without overlap as are counted |
| Edit.CountIsMost | skills/edit/skill.go:45 | and there are never more |
| Edit.CountIsOneIff | skills/edit/skill.go:49-51 | the count is one exactly when nothing occurs behind the leftmost occurrence |
| Edit.EditSucceedsIff | skills/edit/skill.go:45-52 | an edit succeeds if and only if the old string is not empty and the text parts around one occurrence; the result is that occurrence replaced, with the old string in neither part that stays |
| Edit.RefusedIff | skills/edit/skill.go:33-51 | an edit is refused for an empty old string, for one that occurs nowhere, or with the largest number of occurrences apart when that is more than one, each exactly then |
| Edit.EditSplits | skills/edit/skill.go:52 | a successful edit is prefix + new + suffix around the leftmost occurrence |
| Edit.UndoIff | skills/edit/skill.go:45-52 | editing back restores the text if and only if the new string is not empty, is counted once, and first occurs where it was put |
| Edit.UniqueNewUndoes | skills/edit/skill.go:45-52 | it does when the new string occurs exactly once, overlaps counted |
| Edit.OverlapBreaksUndo | skills/edit/skill.go:45-52 | a concrete text where one counted occurrence is not enough |
| EditLocks.Editor.LockFor | skills/edit/skill.go:18-27 | a path's lock is made once and kept; different paths have different locks |
| EditLocks.Editor.Run | skills/edit/skill.go:32-67 | the file is replaced exactly when the edit succeeds and the write goes through, the lock is free again on every path, and the returned count and error are those of the code |
| EditLocks.CountMisleadsIff | skills/edit/skill.go:29-31 | the returned count differs from the replacements made if and only if the edit succeeds and the final rename fails; the error is set exactly when nothing was replaced |
| EditLocks.FailedRenameCounts | skills/edit/skill.go:66 | a run that returns 1 and leaves the file as it was |
| EditLocks.ReachedInv | skills/edit/skill.go:1-2 | the invariant of any number of concurrent runs |
| EditLocks.EditsAreSerial | skills/edit/skill.go:1-2 | concurrent edits of one path string leave the file as a sequential order of them does, each having seen what the one before it left |
| EditLocks.EveryEditIsInOrder | skills/edit/skill.go:1-2 | that order holds every run that is through with the file exactly once, and no other |
| EditLocks.OneAtATime | skills/edit/skill.go:36-38 | no two runs are inside the same path's critical section |
| EditLocks.AcquireIff | skills/edit/skill.go:36-38 | a run can take its path's lock if and only if no other run of that path is inside: every run that goes out lets the next one in |
| EditLocks.RunsGoOn | skills/edit/skill.go:32-67 | a run that does not wait for its lock can always go on, to its release |
| GoImports.PathCharIff | rlm/goeval.go:221 | the characters of a path |
| GoImports.ImportPathsMean | rlm/goeval.go:227-232 | an import chunk's paths are exactly the quoted runs of path characters in its trimmed text, left to right, and other chunks have none |
| GoImports.MatchesAreOne | rlm/goeval.go:231 | there is only one such list of quoted runs |
| GoImports.MatchesExist | rlm/goeval.go:231 | and there always is one |
| GoEval.ImportBound | rlm/goeval.go:223-248 | over any run of chunks the memo grows by exactly the paths seen, and no more import chunks are evaluated than there are distinct new paths |
| GoEval.SkippedIff | rlm/goeval.go:223-248 | a chunk is not evaluated if and only if it is an import with paths, each of them bound from the start or standing in an import chunk before it |
| GoEval.ExitMeans | rlm/goeval.go:186-195 | the loop ends with the last evaluated chunk's value if and only if no evaluated chunk fails, and then it has got to every chunk; otherwise with the first failure, and gets no further |
| GoEval.GoEvaluator.constructor | rlm/goeval.go:147-161 | the memo starts with the paths imported before any cell |
| GoEval.GoEvaluator.MarkImported | rlm/goeval.go:226-248 | a chunk is skipped if and only if it is an import with at least one path and all its paths are known; the memo gains exactly its paths |
| GoEval.GoEvaluator.EvalNext | rlm/goeval.go:187-195 | one turn of the loop: a known import is skipped, a value replaces the one before, a failure ends the loop |
| GoEval.GoEvaluator.EvalChunks | rlm/goeval.go:186-195 | how the loop ends, that the memo then holds the paths of exactly the chunks it got to, and how many import chunks it evaluated |
| GoEval.GoEvaluator.Run | rlm/goeval.go:173-219 | on every exit path, panic included, the slots end at the root context; the verdict, the memo and the count of evaluated imports are those of the code; names are mirrored if and only if no chunk fails and the context is alive; over all cells the bound on evaluated imports holds |
| GoEval.MirroredFailureIff | rlm/goeval.go:210-217 | a cell that fails has mirrored its names if and only if its context was alive and reading its value panicked |
| GoEval.UnprintableCellMirrors | rlm/goeval.go:210-217 | such a cell |
| GoEval.BootstrapIff | rlm/cell.go:9-26 | which codes are acked: those that after leading space begin with the first mark and have the second somewhere behind it |
| GoEval.CellShown | rlm/cell.go:53-76 | what a cell shows, by its evaluations and its context alone: each print with its newline; then for a first failure that is no context error "Error" with its message, for a context error or a cancelled context "KeyboardInterrupt", for a panic "Error" with its message, each with done:error and no name mirrored; otherwise the last value's text, if any, and done:ok, with the declared names mirrored |
| GoEval.RunCell | rlm/cell.go:31-76 | the cell shows that; the memo afterwards; and its events are a script the kernel's transition system allows; a Python bootstrap is acked without evaluation when so configured |
| GoEval.Print | rlm/cell.go:80-87 | printed texts become stdout events with the cell's id that end in a newline |
| GoEval.Conclude | rlm/cell.go:54-75 | the outcome as events: result if there is a value, KeyboardInterrupt, or Error, then one done |
| GoEval.ReportIsScript | rlm/cell.go:28-30 | these events are a script with exactly one done |
| GoEval.CancelledEventsFail | rlm/cell.go:53-75 | however its evaluation went, a cell with a cancelled context ends with an error event and done:error, emits no result and mirrors no name |
| GoEval.CancelledCellFails | rlm/goeval.go:196-206 | a cell with its context cancelled ends with an error event and done:error, emits no result and mirrors no name, whatever its code does |
| Framing.FramingIff | rlm/frames.go:141-154 | framed lines are read back by the scanner unchanged if and only if each is one line, does not end in a carriage return and fits the limit |
| Framing.ScanMeans | rlm/dispatch.go:13-15 | the scanner reads the lines of any text, without their final carriage returns, until one does not fit; what follows the last newline is a line unless it is empty |
| Framing.Writer.Write | rlm/frames.go:158-167 | an unknown kind or a stored failure queues nothing; otherwise exactly that frame is queued |
| Framing.Writer.TakeOne | rlm/frames.go:143-153 | the next frame leaves the channel and its bytes reach the output, whole or cut short; a failure is stored in place of any earlier one |
| Framing.BytesMean | rlm/frames.go:144-148 | the bytes that go out are the framed line, whole unless the disk says otherwise, and then as much of it as it says |
| Framing.StoredIsLast | rlm/frames.go:149-152 | for any frames taken: the stored failure is the last one, and there is none if none failed |
| Framing.FirstIsStoredIff | rlm/frames.go:156-164 | Write reports the first failure if and only if no frame taken since has failed, and its text if and only if the last that failed did so with that text |
| Framing.SecondFailureReplaces | rlm/frames.go:149-164 | a run of the writer in which a second failure replaces the first |
| Framing.OutputIsFramed | rlm/frames.go:143-153 | without a failure the output is the framed encodings of all frames taken, in order |
| Framing.WireReadsBack | rlm/frames.go:124-128 | without a failure, a scanner over the output reads exactly the encodings of the accepted frames, in acceptance order |

## Left out

- Yaegi evaluation, reflection, the standard library exports and the helpers bound into cells: one evaluation is an arbitrary value, error or panic.
- JSON: encoding and decoding are parameters; that saved values read back is part of the condition in `Snapshot.SnapshotThenRestore`, and one-line encodings are an assumption of `Framing.WireReadsBack`.
- Event payloads the proofs do not need: protocol version, runtime string, data, tracebacks, done extras on the wire, the text of parse and disk errors.
- KernelActors.KernelProcess.Executor: starts with intake closed; before that the loop need not end, and `Turn` is each of its turns.
- GoEval.GoEvaluator.Run: a panic is modelled where the interpreter is called and where the value is read, not inside the kernel's own callbacks; panics in other evaluators are not modelled.
- GoEval.ImportBound: says nothing about whether a memoised import is really bound; the path is recorded before its evaluation, and aliases are ignored.
- Write failures between kernel and wire in the kernel's transition system: there the writer's channel is the wire. They are modelled in `Framing`, and as failed calls in `BridgeCalls`.
- Channel capacities: `enqueue` blocks the reader once 1024 requests are queued (rlm/dispatch.go:69) and the client's reader blocks when `send` is full (host/kernel.go:171). Channels are unbounded here, which is enough for safety.
- Wall-clock time: the five-second grace is a step that may happen at any time after shutdown has begun, and is excluded where stated.
- The cancel call at the end of every request and the one when enqueue abandons a request (rlm/executor.go:39-43, rlm/dispatch.go:71): they are not interrupts and nothing observes them.
- Reuse of the scanner's buffer across the client's line channel (host/kernel.go:100): frames are immutable values.
- The handling of one host request by the host's service: it is instantaneous, with an arbitrary answer.
- KernelGoRuns.EarlyInterruptFails: for cells that are evaluated; a Python bootstrap that is acked without evaluation ignores its context (rlm/cell.go:37-41).
- Real files: temporary names, permissions, directories; a path is its string, so two spellings of one file are two files, in edits as in the source.
- Snapshot of a scope that a background goroutine changes at the same time: entries and deletions are taken as one step.
- Values that a cell changes in place after putting them into the scope: values are immutable here, map objects are not.
- int64 overflow of encoded sizes, which a process's memory excludes.
- `declaredNames`: its result is a parameter. Its branch for grouped var blocks has no lines to read, since the chunker flushes the `var (` line alone (rlm/chunk.go:39-43).
- Attribution of prints by goroutines left behind under Yaegi, which go to the most recent cell (rlm/goeval.go:42-44); the kernel model lets background output carry the id of any started request.
- `CallHost` (rlm/harness.go:94-104), which turns a reply that is not ok into an error for the cell: the reply itself is modelled.
- Bytes that are not UTF-8: texts are sequences of characters.
- host/manager.go, host/prompt.go, host/skills.go, host/gotool.go, cmd/goprime, rlm/skill.go, rlm/agents_doc.go and the op DSL: wiring, prompt text, directory scans and lookups, with no state shared with the rest.
