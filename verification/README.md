# AstroBox command-queueing engine, modelled in Dafny

This project models the engine behind AstroBox's command-based printer protocols, in
`src/astroprint/plugin/printer_comms/commands.py`. The engine has four parts:

- **Command and Signal values.** A `Command` holds a raw instruction, an encoding cached
  the first time it is computed, and `received`/`completed` flags. Commands compare equal
  when their raw payloads are equal, and a `Signal`'s payload is `None`. The
  firmware-specific overrides (`doEncodeCommand`, `onBeforeCommandAddToQueue`,
  `onBeforeCommandSend`, `onResponse`) are a `Hooks` record of pure functions, passed in
  as a parameter.
- **The `CommandSender`.** It keeps a send queue (a deque), a list of pending commands
  (sent but not yet completed), a pause snapshot and the `readyToSend`, wake-event and
  `stopped` flags. Each public operation and each iteration of its worker loop is one
  transition of an immutable `Sender` record. The deque is a sequence: index 0 is the
  deque's left end, where normal commands enter, and the worker pops the last element.
  `SendOrder(q)`, the reverse of `q`, is the order in which the worker would take the
  queue.
- **Response correlation.** A response line is decoded as ASCII and stripped, then
  offered to the pending commands from the most recently sent onward. The first command
  whose `onResponse` accepts the line consumes it. A completed consumer leaves the
  pending list through `list.remove`, exactly as the code does it
  (`CommandSender.OnCommandResponse`). The intended transition, which removes the
  consumer itself, is modelled next to it (`CommandSender.OnCommandResponseCorrected`),
  and the two agree whenever no two pending commands share a raw instruction.
- **The `JobWorker` read burst and the `CommandsComms` orchestrator.** One burst reads
  file lines, translates them and queues them until the file ends or a command budget is
  reached. The orchestrator guards every operation on the presence of a sender and of a
  print job.

Several behaviours of the code are easy to misread; in each case the model follows the
code:

- **The wake event after a command.** The worker clears the event after sending a
  Command, even when more is queued, and leaves it set after a Signal (`commands.py`,
  lines 783-794).
  It then waits for `sendNext` (a completed queued command), or for an `addCommand`
  made while the sender is ready to send or the queue is empty (lines 877-879); an add
  to a non-empty queue of a sender that is not ready does not wake it. See
  `SenderProperties.WorkerWaitsAfterEachCommand` and
  `SenderProperties.SignalLeavesWorkerAwake`.
- **Pause and resume.** Resume does not restore the queue as it was. `restoreCommands`
  pushes each snapshot element onto the deque's left end, which reverses the snapshot.
  It also places the snapshot behind anything queued during the pause, so that work is
  sent first. See `SenderProperties.PauseThenResumeReversesSendOrder` and
  `SenderProperties.PauseAddResume`.
- **Priority commands.** Commands queued with `sendNext` are appended at the pop end, so
  among themselves they are sent last-in first-out (`SenderProperties.InterleavedAddsOrder`).
- **Empty snapshots.** An empty snapshot is falsy, so resuming after pausing an empty
  queue leaves the snapshot in place (`SenderProperties.EmptyPauseLeavesAnEmptySnapshot`).
- **Stopped prints.** `stopPrint` clears the queue but not the snapshot. A print stopped
  while paused therefore hands its queued commands to the next job's resume
  (`CommandsComms.SnapshotOutlivesStoppedJob`).

One more modelling choice: `readCommandsFromFile(count)` sets the worker's budget and
releases one burst. The model merges the two into one transition,
`CommandsComms.ReadCommandsFromFile`.

## Model

| member | source | states |
|---|---|---|
| `Commands.DefaultHooks` | src/astroprint/plugin/printer_comms/commands.py:271-294 | The base class encodes a command as its raw instruction and never vetoes adding or sending it |
| `Commands.SignalsAreAllEqual` | src/astroprint/plugin/printer_comms/commands.py:314-316 | A Signal's payload is `None`, so it equals every other Signal and no command |
| `Commands.SameCommand` | src/astroprint/plugin/printer_comms/commands.py:221-222 | `Command.__eq__`: two commands are equal exactly when their raw instructions are, and a command never equals a Signal |
| `Commands.InQueue` | src/astroprint/plugin/printer_comms/commands.py:882 | `c in queue` holds exactly when some queued command has the same raw instruction as `c`; for `None` or a Signal it holds exactly when a Signal is queued; an item literally in the queue is always found |
| `Commands.NewCommand` | src/astroprint/plugin/printer_comms/commands.py:214-219 | A new command carries its raw instruction as the payload that equality compares, has no cached encoding (so its first encoding is computed from the raw instruction), and is neither queued, received nor completed |
| `Commands.EncodedCommand` | src/astroprint/plugin/printer_comms/commands.py:234-239 | Returns the cached encoding when there is one. Otherwise it returns the encoder's result and caches it, and nothing else about the command changes |
| `Commands.EncodingIsComputedOnce` | src/astroprint/plugin/printer_comms/commands.py:234-239 | After the first read, the encoding is fixed: a later read, with any encoder, returns the same string and changes nothing |
| `Commands.DefaultEncodingIsRaw` | src/astroprint/plugin/printer_comms/commands.py:271-272 | With the default `doEncodeCommand`, what is written is the raw instruction |
| `Commands.MarkQueued` | src/astroprint/plugin/printer_comms/commands.py:872-874 | Queueing keeps the payload, sets `isQueued` and re-encodes a command (`encode()`); a Signal is left as it is |
| `Commands.Admitted` | src/astroprint/plugin/printer_comms/commands.py:864-865 | Keeps only items `onBeforeCommandAddToQueue` lets in, never lengthens the list, and keeps the whole list when it refuses none |
| `Commands.AdmittedKeepsExactlyTheAdmitted` | src/astroprint/plugin/printer_comms/commands.py:864-865 | Each admitted item is kept exactly as often as it occurs in the list, and each refused item is dropped |
| `Commands.AdmittedConcat` | src/astroprint/plugin/printer_comms/commands.py:864-865 | Filtering a concatenation is concatenating the filtered parts, so admitted items keep their relative order |
| `Correlation.Strip` | src/astroprint/plugin/printer_comms/commands.py:825 | The stripped line is a slice of the input with only whitespace cut from each end, and it neither starts nor ends with whitespace |
| `Correlation.StripIsIdempotent` | src/astroprint/plugin/printer_comms/commands.py:825 | Stripping an already stripped line changes nothing |
| `Correlation.Offer` | src/astroprint/plugin/printer_comms/commands.py:828 | `onResponse` can change only a command's received/completed flags, never its instruction, encoding or queued mark |
| `Correlation.Scan` | src/astroprint/plugin/printer_comms/commands.py:824-835 | The first pending command that accepts the line consumes it, and every command up to it has been offered the line. It leaves the list exactly when it reports itself completed, and it triggers `sendNext` exactly when it is completed and came from the queue |
| `Correlation.OnlyTheCompletedConsumerLeaves` | src/astroprint/plugin/printer_comms/commands.py:827-835 | A response removes at most one pending command, and it removes one exactly when the consumer reports completion |
| `Correlation.RemoveFirstEqual` | src/astroprint/plugin/printer_comms/commands.py:830 | `list.remove` drops exactly one element: the first with the same raw instruction |
| `Correlation.ScanAsWrittenFrom` | src/astroprint/plugin/printer_comms/commands.py:827-835 | The loop as written picks the first command from the current position that accepts the line, and the list shrinks by one exactly when that command completes; `sendNext` is triggered exactly when it completes and came from the queue |
| `Correlation.ScanAsWritten` | src/astroprint/plugin/printer_comms/commands.py:826-835 | The loop as written picks the same consumer as the intended scan, shrinks the list and triggers `sendNext` under the same conditions. It offers the line to every command up to the consumer and, when the consumer completes, removes the first command with the consumer's raw instruction |
| `Correlation.AsWrittenAgreesOnDistinctPayloads` | src/astroprint/plugin/printer_comms/commands.py:827-835 | When no two pending commands share a raw instruction, the loop as written gives exactly the intended result |
| `Correlation.AsWrittenDropsTheWrongCommand` | src/astroprint/plugin/printer_comms/commands.py:829-830 | With two pending copies of one instruction, the loop as written removes the copy that did not complete and keeps the completed one |
| `CommandSender.NewSenderIsValid` | src/astroprint/plugin/printer_comms/commands.py:754-767 | The constructor's state (empty queue and pending list, no snapshot, ready to send, not woken, not stopped) satisfies the sender invariant |
| `CommandSender.AddCommand` | src/astroprint/plugin/printer_comms/commands.py:863-879 | A missing or refused command changes nothing. An admitted one enters marked at the pop end when `sendNext` is set and at the other end otherwise. The worker is woken when the sender was ready or the queue was empty, `readyToSend` ends up false, and nothing else changes |
| `CommandSender.AddCommandIfNotExists` | src/astroprint/plugin/printer_comms/commands.py:881-883 | Nothing changes when an equal command is queued (for `None`, any Signal). Otherwise it behaves like `addCommand`, and a queue without duplicates stays without them |
| `CommandSender.AddCommands` | src/astroprint/plugin/printer_comms/commands.py:440-442 | Queueing a list puts the admitted, marked items in front of the old queue, reversed, for normal adds, and behind it, in order, for priority adds. With nothing admitted nothing changes; otherwise the worker is woken when the sender was ready or the queue was empty, and `readyToSend` ends up false. Pending list, snapshot and stop flag are untouched |
| `CommandSender.StoreCommands` | src/astroprint/plugin/printer_comms/commands.py:842-845 | The queue moves into the snapshot unchanged and the queue becomes empty |
| `CommandSender.PrependEach` | src/astroprint/plugin/printer_comms/commands.py:849-850 | Pushing each snapshot item onto the left end yields the reversed snapshot followed by the queue |
| `CommandSender.RestoreCommands` | src/astroprint/plugin/printer_comms/commands.py:847-852 | A missing or empty snapshot changes nothing. Otherwise the reversed snapshot goes in front of the current queue and the snapshot is dropped |
| `CommandSender.ClearCommandQueue` | src/astroprint/plugin/printer_comms/commands.py:885-887 | Only the queue is emptied; snapshot, pending list and flags survive |
| `CommandSender.SendNext` | src/astroprint/plugin/printer_comms/commands.py:854-858 | Wakes the worker when anything is queued, and otherwise marks the sender ready to send |
| `CommandSender.SetReadyToSend` | src/astroprint/plugin/printer_comms/commands.py:860-861 | Only `readyToSend` changes, to true |
| `CommandSender.Stop` | src/astroprint/plugin/printer_comms/commands.py:837-840 | Pending commands are abandoned and the worker is woken and stopped; queue and snapshot remain |
| `CommandSender.SendCommand` | src/astroprint/plugin/printer_comms/commands.py:799-819 | A veto changes nothing. A successful write sends the cached or freshly computed encoding and puts the command, encoding cached, at the front of the pending list. A failed write is reported as `unable_to_send` with the raw instruction and loses the command |
| `CommandSender.RunStep` | src/astroprint/plugin/printer_comms/commands.py:769-797 | A stopped worker exits and one that was not woken blocks. A woken worker with an empty queue clears the wake flag. Otherwise it pops the pop-end item: a Signal is dispatched and the flag stays up; a command goes through `sendCommand` and the flag is cleared |
| `CommandSender.OnCommandResponse` | src/astroprint/plugin/printer_comms/commands.py:821-835 | Empty data changes nothing and non-ASCII data raises. Otherwise the stripped line goes to the same consumer as the intended transition, with the same wake-up and the same change in length, and a completed consumer is removed by `list.remove`: the first pending command with its raw instruction leaves. Queue, snapshot and stop flag are untouched, and the sender invariant is kept |
| `CommandSender.OnCommandResponseCorrected` | src/astroprint/plugin/printer_comms/commands.py:821-835 | The intended transition: the consuming command itself leaves when it completes, matched as `Correlation.Scan` states, followed by `sendNext` when it came from the queue. Empty data changes nothing and non-ASCII data raises |
| `CommandSender.AsWrittenResponseAgreesOnDistinctPayloads` | src/astroprint/plugin/printer_comms/commands.py:827-835 | When no two pending commands share a raw instruction, the code as written and the intended transition give the same result |
| `SenderProperties.AddOneSendOrder` | src/astroprint/plugin/printer_comms/commands.py:867-870 | One add puts a normal item last in send order and a priority item first |
| `SenderProperties.InterleavedAddsOrder` | src/astroprint/plugin/printer_comms/commands.py:863-879 | For any mix of adds, send order is the priority items (last added first), then the earlier queue, then the normal items in the order added |
| `SenderProperties.PauseThenResumeReversesSendOrder` | src/astroprint/plugin/printer_comms/commands.py:842-852 | Pause then resume with nothing in between reverses the send order of a non-empty queue and drops the snapshot |
| `SenderProperties.ResumedItemsFollowPauseTimeItems` | src/astroprint/plugin/printer_comms/commands.py:847-852 | After resume, everything queued during the pause is sent before the snapshot, and the snapshot's items follow in head-to-tail order |
| `SenderProperties.PauseAddResume` | src/astroprint/plugin/printer_comms/commands.py:842-852 | After pause, adds and resume, the send order is the priority adds, then the normal adds, then the pre-pause queue reversed; an empty pre-pause queue leaves only the adds |
| `SenderProperties.EmptyPauseLeavesAnEmptySnapshot` | src/astroprint/plugin/printer_comms/commands.py:848 | Pausing an empty queue leaves an empty snapshot that resume does not clear |
| `SenderProperties.IfNotExistsIsIdempotent` | src/astroprint/plugin/printer_comms/commands.py:881-883 | A second `addCommandIfNotExists` of the same command changes nothing |
| `SenderProperties.QueueCountTracksTheQueue` | src/astroprint/plugin/printer_comms/commands.py:889-891 | `commandsInQueue` follows the queue: an admitted add counts one more and a refused one nothing, clearing and pausing give zero, resuming adds the snapshot's length, and a worker step that takes an item counts one less |
| `SenderProperties.StepTakesTheNextInSendOrder` | src/astroprint/plugin/printer_comms/commands.py:777-778 | A woken, running worker takes exactly the head of the send order, and the rest of the send order is unchanged |
| `SenderProperties.WorkerWaitsAfterEachCommand` | src/astroprint/plugin/printer_comms/commands.py:788-794 | After the worker sends a command, its next iteration blocks even if more is queued |
| `SenderProperties.SignalLeavesWorkerAwake` | src/astroprint/plugin/printer_comms/commands.py:784-786 | After a Signal is dispatched the wake flag is still raised |
| `SenderProperties.SendNextLetsTheWorkerGoOn` | src/astroprint/plugin/printer_comms/commands.py:854-856 | After `sendNext` on a non-empty queue, the worker's next iteration takes the head of the send order |
| `SenderProperties.ReadyToSendWakesOnNextAdd` | src/astroprint/plugin/printer_comms/commands.py:877-879 | After `setReadytoSend`, the next admitted add wakes the worker and clears `readyToSend` |
| `SenderProperties.StoppedWorkerExits` | src/astroprint/plugin/printer_comms/commands.py:770-773 | After `stop`, the worker's next iteration exits without change |
| `SenderProperties.QueuedCommandIsSentAsEncodedWhenQueued` | src/astroprint/plugin/printer_comms/commands.py:803-804 | A queued command is written with the encoding computed when it was queued, and it enters the pending list marked as queued |
| `SenderProperties.TwoCommandScenario` | src/astroprint/plugin/printer_comms/commands.py:821-835 | With firmware whose commands complete on `ok`: queue A then B on a fresh sender. A is written and the worker blocks. The response `ok` with its line ending completes A, empties the pending list and wakes the worker, and then B is written |
| `JobWorker.BurstLengthIsFirstHit` | src/astroprint/plugin/printer_comms/commands.py:666-687 | Counted from any line reached without hitting the budget, a burst reads up to the first later line at which the running count reaches `maxCommands`, or to the end of the file when no line does |
| `JobWorker.ReadBurst` | src/astroprint/plugin/printer_comms/commands.py:665-687 | A burst stops at the first line whose commands bring the count to `maxCommands`, or at the end of the file if no line does. It queues every command of the lines read, in file order, and reports each line whose translation raised |
| `JobWorker.ReadBurstLoop` | src/astroprint/plugin/printer_comms/commands.py:665-687 | The counter-and-break loop computes exactly `ReadBurst` |
| `JobWorker.SkippedAndFailedLinesAddNothing` | src/astroprint/plugin/printer_comms/commands.py:674-681 | A line that yields `None` or raises adds no command, never reaches the budget, and so never ends the burst |
| `JobWorker.ProducedSplits` | src/astroprint/plugin/printer_comms/commands.py:665-687 | The file's commands are those of the lines read so far followed by those of the remaining lines, so successive bursts queue the file in file order |
| `JobWorker.TwoLineFileScenario` | src/astroprint/plugin/printer_comms/commands.py:665-687 | A two-line file (one command, then a skipped line) is read in one burst with a budget of 2, and in two bursts with a budget of 1 |
| `CommandsComms.CommandsInQueue` | src/astroprint/plugin/printer_comms/commands.py:420-421 | The count is zero without a sender and the queue length otherwise |
| `CommandsComms.QueueCountGrowsByAdmitted` | src/astroprint/plugin/printer_comms/commands.py:440-449 | With a sender, `queueCommands` raises the count by exactly the number of admitted items |
| `CommandsComms.StartSender` | src/astroprint/plugin/printer_comms/commands.py:521-524 | A fresh sender is started only when none exists; a running sender is kept |
| `CommandsComms.StopSender` | src/astroprint/plugin/printer_comms/commands.py:529-532 | The sender is dropped and the job is untouched |
| `CommandsComms.OnLinkOpened` | src/astroprint/plugin/printer_comms/commands.py:630-632 | Once the link is open a sender exists: a fresh one when none existed, and otherwise the existing one, kept |
| `CommandsComms.QueueCommand` | src/astroprint/plugin/printer_comms/commands.py:447-449 | A no-op without a sender, for `None` or for a refused item; with a sender it is `addCommand`. An admitted item raises the count by one and goes first in send order when `sendNext` is set and last otherwise; the worker is woken when the sender was ready or the queue was empty, `readyToSend` is cleared, and pending list, snapshot and stop flag are untouched |
| `CommandsComms.QueueCommands` | src/astroprint/plugin/printer_comms/commands.py:440-442 | A no-op without a sender; with one it is `CommandSender.AddCommands`. Normal items are sent after everything already queued, in list order, and priority items before it, last first. With nothing admitted nothing changes; otherwise the worker is woken when the sender was ready or the queue was empty and `readyToSend` is cleared. Pending list, snapshot, stop flag and job are untouched |
| `CommandsComms.QueueSignal` | src/astroprint/plugin/printer_comms/commands.py:461-463 | A no-op without a sender; with one it is `addCommand` of the Signal: it is sent after everything already queued, the worker is woken when the sender was ready or the queue was empty, `readyToSend` is cleared, and pending list, snapshot and job are untouched |
| `CommandsComms.QueueCommandIfNotExists` | src/astroprint/plugin/printer_comms/commands.py:468-470 | A no-op without a sender or when an equal command is already queued; otherwise the same as `queueCommand`; a queue without duplicates stays without duplicates |
| `CommandsComms.SendCommand` | src/astroprint/plugin/printer_comms/commands.py:454-456 | A no-op without a sender; with one it is the sender's `sendCommand`: the command is written exactly when it is not vetoed and the write succeeds, what is written is its cached or computed encoding, it then becomes pending, and the queue and snapshot are untouched |
| `CommandsComms.SendNextCommandInQueue` | src/astroprint/plugin/printer_comms/commands.py:481-483 | A no-op without a sender; with one, the worker is woken exactly when something is queued, an empty queue arms `readyToSend` instead, and queue, pending list and snapshot are untouched |
| `CommandsComms.SetReadyToSend` | src/astroprint/plugin/printer_comms/commands.py:488-490 | A no-op without a sender; with one, only its `readyToSend` flag changes, to true |
| `CommandsComms.StartPrint` | src/astroprint/plugin/printer_comms/commands.py:544-547 | A job starts only when none is running |
| `CommandsComms.ReadCommandsFromFile` | src/astroprint/plugin/printer_comms/commands.py:554-556 | A no-op without a job. Otherwise one burst's commands go through `queueCommands` as normal commands, so they are sent after everything already queued, in file order, with pending list, snapshot and stop flag untouched. The job ends at the end of the file and otherwise advances past exactly the lines read |
| `CommandsComms.StopPrint` | src/astroprint/plugin/printer_comms/commands.py:561-566 | A no-op without a job. Otherwise the job ends and the sender's queue is cleared (`clearCommandQueue`), while pending commands, the pause snapshot and the sender's flags survive |
| `CommandsComms.PausePrintJob` | src/astroprint/plugin/printer_comms/commands.py:571-573 | Stores the queue only when both a job and a sender exist |
| `CommandsComms.ResumePrintJob` | src/astroprint/plugin/printer_comms/commands.py:578-580 | Restores the snapshot only when both a job and a sender exist |
| `CommandsComms.OnEndOfFile` | src/astroprint/plugin/printer_comms/commands.py:592-594 | The job ends and the sender is untouched |
| `CommandsComms.CloseLink` | src/astroprint/plugin/printer_comms/commands.py:371-377 | Afterwards there is neither a print job nor a sender |
| `CommandsComms.DeliverResponses` | src/astroprint/plugin/printer_comms/commands.py:617-619 | A single response is handed to `onCommandResponse`, and one that raises changes nothing. Handling never touches queue, snapshot or job, and never lengthens the pending list |
| `CommandsComms.ResponsesAreHandledInTurn` | src/astroprint/plugin/printer_comms/commands.py:617-619 | Decodable responses are handled one after another: delivering a batch and then more is delivering them all |
| `CommandsComms.UndecodableResponseEndsTheLoop` | src/astroprint/plugin/printer_comms/commands.py:614-621 | The first response that fails to decode ends the loop: the responses after it are dropped and the effects of those before it stay |
| `CommandsComms.OnDataReceived` | src/astroprint/plugin/printer_comms/commands.py:614-621 | A parse failure or a missing sender changes nothing; otherwise every parsed response is delivered in turn (`DeliverResponses`). A single response is handed to `onCommandResponse`. Responses never touch queue, snapshot or job, and never lengthen the pending list |
| `CommandsComms.JobOperationsNeedAJob` | src/astroprint/plugin/printer_comms/commands.py:544-580 | Without a job, stop, pause, resume and read are no-ops, and start installs the job |
| `CommandsComms.QueueOperationsNeedASender` | src/astroprint/plugin/printer_comms/commands.py:440-490 | Without a sender, every queueing and sending operation is a no-op and the queue count is zero |
| `CommandsComms.SnapshotOutlivesStoppedJob` | src/astroprint/plugin/printer_comms/commands.py:561-580 | Pause, stop, then start a new print: the new job starts with an empty queue, but resuming it brings back the stopped job's queued commands, reversed |
| `CommandsComms.PrintingFollowsTheJob` | src/astroprint/plugin/printer_comms/commands.py:413-414 | `printing` is true after `startPrint` and false after `stopPrint`, the end of the file or `closeLink`; pausing and resuming keep it; a burst ends it exactly when it reached the end of the file |

## Left out

- Threads, locks, events and `time`: each operation is one atomic transition. The wake
  event is the `wake` flag, and a wait is the `Blocked` step.
- `StatusPoller` and the orchestrator's poller methods: a timer thread, outside the
  queueing engine.
- Progress reporting, file opening and file position: file I/O. The print file is the
  sequence of its unread lines.
- The transport: opening, closing and writing the link. Whether a write succeeds is the
  `writeOk` parameter. The listener callbacks (`onDataSent`, `onSignalReceived`,
  `onJobError`) are reported as outcomes or events, not called.
- The `onLinkOpened` notification to the listener (line 632 of `commands.py`) is not
  modelled. Only its ordering matters to the engine: the sender is started first
  (line 631), and `CommandsComms.OnLinkOpened` ensures a sender exists afterwards, so
  commands queued in response to the notification take effect.
- Serial logging: it has no effect on state.
- `translateCommand`: nothing in the engine calls it.
- `onCommandAddedToQueue` and `onCommandSent`: the base class's hooks do nothing.
- Firmware semantics: `onResponse`, `doEncodeCommand` and `onFileLineRead` are supplied
  as pure functions. A hook that raises is not modelled, except a raising
  `onFileLineRead`, which is.
- The worker's branch that logs an item that is neither Command nor Signal: the queue's
  type rules out such items.
- `CommandSender.SendCommand`: an exception raised inside `onCommandSent` after a
  successful write is not distinguished from a failed write. Since `onCommandSent` does
  nothing by default, only the write can fail. An encoder that returns `None` is not
  modelled either (the encoder returns a string): the code then skips the write
  (line 496 of `commands.py`) but still puts the command into the pending list.
- `CommandsComms.StopSender`: models dropping the sender. The stopped sender's own state
  (`CommandSender.Stop`) is no longer reachable through the orchestrator.
- `CommandsComms.OnDataReceived`: the listener's parsing of raw data into responses is a
  parameter. `None` stands for a parse that raised or returned nothing iterable.
- `JobWorker.ReadBurst`: `None` entries inside a translated list are not modelled.
- A Signal's encoding (`None`) is not recorded: a Signal is never written to the link.
- Object identity: commands are values. The code mutates a command object in place when
  it is queued (`isQueued` and `encode()`, lines 872-874 of `commands.py`) and when it
  answers a response (`onResponse`, line 828). One object queued twice, or queued while
  it is also pending, would share those changes between its places. The model assumes
  each queued or pending command is a distinct object.

## Findings

| source | as written | input that shows it | evidently intended | confidence | as-written member | corrected member |
|---|---|---|---|---|---|---|
| src/astroprint/plugin/printer_comms/commands.py:830 | The completed consumer is removed with `list.remove(c)`. `Command.__eq__` compares raw instructions, so this removes the first pending command with the same instruction, which may be a newer copy that declined the line | Pending `[newer, older]`, two copies of `M105` where only `older` has been received. Line `ok`: `older` accepts it and completes, but `newer` is removed and the completed `older` stays in the pending list | Remove the consuming command itself, by position | medium, not executed | `CommandSender.OnCommandResponse`, `Correlation.ScanAsWritten`, `Correlation.AsWrittenDropsTheWrongCommand` | `CommandSender.OnCommandResponseCorrected`, `Correlation.Scan` |
