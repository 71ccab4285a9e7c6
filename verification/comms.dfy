/** The `CommandsComms` orchestrator's bookkeeping: which sender and which
    print job exist, and the guards that turn every operation into a no-op
    when the part it needs is missing. The transport, the status poller and
    the listener's notifications are not modelled. */
module CommandsComms {
  import opened Optional
  import opened Sequences
  import opened Commands
  import opened Correlation
  import opened CommandSender
  import opened JobWorker
  import opened SenderProperties

  /** An active print job: the lines of its file not yet read. */
  datatype Job = Job(remaining: seq<string>)

  /** The sender (started when the link opens) and the print job, each
      possibly absent. */
  datatype Comms = Comms(sender: Option<Sender>, job: Option<Job>)

  /** `printing`. */
  predicate Printing(c: Comms) {
    c.job.Some?
  }

  /** `commandsInQueue`: zero when there is no sender. */
  function CommandsInQueue(c: Comms): (n: nat)
    ensures c.sender.None? ==> n == 0
    ensures c.sender.Some? ==> n == |c.sender.value.q|
  {
    if c.sender.Some? then CommandSender.CommandsInQueue(c.sender.value) else 0
  }

  ghost predicate Valid(c: Comms) {
    c.sender.Some? ==> CommandSender.Valid(c.sender.value)
  }

  /** `startSender`: a fresh sender unless one is already running. */
  function StartSender(c: Comms): (r: Comms)
    ensures c.sender.Some? ==> r == c
    ensures c.sender.None? ==> r == c.(sender := Some(NewSender()))
    ensures Valid(c) ==> Valid(r)
  {
    NewSenderIsValid();
    if c.sender.None? then c.(sender := Some(NewSender())) else c
  }

  /** `stopSender`: the sender is stopped and dropped. */
  function StopSender(c: Comms): (r: Comms)
    ensures r.sender.None? && r.job == c.job
  {
    c.(sender := None)
  }

  /** `onLinkOpened`: the sender is started before the listener hears of the
      link, so commands queued from that notification are not lost. */
  function OnLinkOpened(c: Comms): (r: Comms)
    ensures r.sender.Some? && r.job == c.job
    ensures c.sender.Some? ==> r == c
    ensures c.sender.None? ==> r.sender == Some(NewSender())
    ensures Valid(c) ==> Valid(r)
  {
    StartSender(c)
  }

  /** `queueCommand`: `addCommand` on the sender, if there is one. A missing
      or refused command changes nothing; an admitted one is counted and is
      sent first (priority) or after everything already queued (normal). */
  function QueueCommand(c: Comms, h: Hooks, cmd: Option<Item>, sendNext: bool): (r: Comms)
    ensures c.sender.None? || cmd.None? || !Admits(h, cmd.value) ==> r == c
    ensures c.sender.Some? ==> r == c.(sender := Some(AddCommand(c.sender.value, h, cmd, sendNext)))
    ensures c.sender.Some? && cmd.Some? && Admits(h, cmd.value) ==>
      && r.sender.Some? && r.job == c.job
      && r.sender.value.wake == (c.sender.value.wake || c.sender.value.readyToSend || c.sender.value.q == [])
      && !r.sender.value.readyToSend
      && r.sender.value.stopped == c.sender.value.stopped
      && CommandsInQueue(r) == CommandsInQueue(c) + 1
      && SendOrder(r.sender.value.q) == (if sendNext then [MarkQueued(h, cmd.value)] + SendOrder(c.sender.value.q)
                                        else SendOrder(c.sender.value.q) + [MarkQueued(h, cmd.value)])
      && r.sender.value.pending == c.sender.value.pending
      && r.sender.value.stored == c.sender.value.stored
    ensures Valid(c) ==> Valid(r)
  {
    match c.sender
    case None => c
    case Some(s) =>
      if cmd.Some? && Admits(h, cmd.value) then
        AddOneSendOrder(s, h, cmd.value, sendNext);
        c.(sender := Some(AddCommand(s, h, cmd, sendNext)))
      else c.(sender := Some(AddCommand(s, h, cmd, sendNext)))
  }

  /** `queueCommands`: `queueCommand` for each item in order. Normal items are
      sent after everything already queued, in list order. */
  function QueueCommands(c: Comms, h: Hooks, cmds: seq<Item>, sendNext: bool): (r: Comms)
    ensures c.sender.None? ==> r == c
    ensures c.sender.Some? ==> r == c.(sender := Some(AddCommands(c.sender.value, h, cmds, sendNext)))
    ensures c.sender.Some? ==>
      && r.sender.Some? && r.job == c.job
      && r.sender.value.pending == c.sender.value.pending
      && r.sender.value.stored == c.sender.value.stored
      && r.sender.value.stopped == c.sender.value.stopped
    ensures c.sender.Some? && Admitted(h, cmds) == [] ==> r == c
    ensures c.sender.Some? && Admitted(h, cmds) != [] ==>
      && r.sender.value.wake == (c.sender.value.wake || c.sender.value.readyToSend || c.sender.value.q == [])
      && !r.sender.value.readyToSend
    ensures c.sender.Some? && !sendNext ==>
      SendOrder(r.sender.value.q) == SendOrder(c.sender.value.q) + MarkAll(h, Admitted(h, cmds))
    ensures c.sender.Some? && sendNext ==>
      SendOrder(r.sender.value.q) == Reverse(MarkAll(h, Admitted(h, cmds))) + SendOrder(c.sender.value.q)
    ensures Valid(c) ==> Valid(r)
  {
    match c.sender
    case None => c
    case Some(s) =>
      var s' := AddCommands(s, h, cmds, sendNext);
      var added := MarkAll(h, Admitted(h, cmds));
      ReverseConcat(Reverse(added), s.q);
      ReverseConcat(s.q, added);
      ReverseReverse(added);
      c.(sender := Some(s'))
  }

  /** `queueSignal`: a Signal queued like a normal command. */
  function QueueSignal(c: Comms, h: Hooks, signalType: string, data: Option<string>): (r: Comms)
    ensures c.sender.None? ==> r == c
    ensures c.sender.Some? ==>
      && r == c.(sender := Some(AddCommand(c.sender.value, h, Some(Signal(signalType, data)), false)))
      && r.sender.Some? && r.job == c.job
      && SendOrder(r.sender.value.q) == SendOrder(c.sender.value.q) + [Signal(signalType, data)]
      && r.sender.value.wake == (c.sender.value.wake || c.sender.value.readyToSend || c.sender.value.q == [])
      && !r.sender.value.readyToSend
      && r.sender.value.pending == c.sender.value.pending
      && r.sender.value.stored == c.sender.value.stored
      && r.sender.value.stopped == c.sender.value.stopped
    ensures Valid(c) ==> Valid(r)
  {
    match c.sender
    case None => c
    case Some(s) =>
      ReverseCons(Signal(signalType, data), s.q);
      c.(sender := Some(AddCommand(s, h, Some(Signal(signalType, data)), false)))
  }

  /** `queueCommandIfNotExists`: nothing changes without a sender or when an
      equal command is already queued; otherwise it is `queueCommand`. A
      queue without duplicates keeps none. */
  function QueueCommandIfNotExists(c: Comms, h: Hooks, cmd: Option<Item>, sendNext: bool): (r: Comms)
    ensures c.sender.None? || InQueue(c.sender.value.q, cmd) ==> r == c
    ensures c.sender.Some? && !InQueue(c.sender.value.q, cmd) ==> r == QueueCommand(c, h, cmd, sendNext)
    ensures c.sender.Some? && UniquePayloads(c.sender.value.q) ==> UniquePayloads(r.sender.value.q)
    ensures Valid(c) ==> Valid(r)
  {
    match c.sender
    case None => c
    case Some(s) => c.(sender := Some(AddCommandIfNotExists(s, h, cmd, sendNext)))
  }

  /** `sendCommand`: sent at once, bypassing the queue, if there is a sender.
      The queue is not touched, and the command becomes pending exactly when
      it was written. */
  function SendCommand(c: Comms, h: Hooks, cmd: Command, writeOk: bool): (r: (Comms, Option<SendOutcome>))
    ensures c.sender.None? ==> r == (c, None)
    ensures c.sender.Some? ==>
      var sent := CommandSender.SendCommand(c.sender.value, h, cmd, writeOk);
      r == (c.(sender := Some(sent.0)), Some(sent.1))
    ensures c.sender.Some? ==>
      && r.1.Some? && r.0.sender.Some? && r.0.job == c.job
      && (r.1.value.Written? <==> h.beforeSend(cmd) && writeOk)
      && (r.1.value.Written? ==> r.1.value.data == EncodedCommand(cmd, h.encode).0)
      && r.0.sender.value.q == c.sender.value.q
      && r.0.sender.value.stored == c.sender.value.stored
      && (r.1.value.Written? ==> r.0.sender.value.pending == [cmd.(encoded := Some(r.1.value.data))] + c.sender.value.pending)
      && (!r.1.value.Written? ==> r.0 == c)
      && (r.1.value == Suppressed <==> !h.beforeSend(cmd))
    ensures Valid(c) ==> Valid(r.0)
  {
    match c.sender
    case None => (c, None)
    case Some(s) =>
      var (s', out) := CommandSender.SendCommand(s, h, cmd, writeOk);
      (c.(sender := Some(s')), Some(out))
  }

  /** `sendNextCommandInQueue`: with a sender, the worker is woken exactly
      when something is queued, and the queue itself is not touched. */
  function SendNextCommandInQueue(c: Comms): (r: Comms)
    ensures c.sender.None? ==> r == c
    ensures c.sender.Some? ==>
      && r.sender.Some? && r.job == c.job
      && r.sender.value.q == c.sender.value.q
      && r.sender.value.wake == (c.sender.value.wake || c.sender.value.q != [])
      && r.sender.value.readyToSend == (c.sender.value.readyToSend || c.sender.value.q == [])
      && r.sender.value.pending == c.sender.value.pending
      && r.sender.value.stored == c.sender.value.stored
      && r.sender.value.stopped == c.sender.value.stopped
    ensures Valid(c) ==> Valid(r)
  {
    match c.sender
    case None => c
    case Some(s) => c.(sender := Some(SendNext(s)))
  }

  /** `setReadytoSend`: with a sender, only its ready-to-send flag changes,
      and it is raised. */
  function SetReadyToSend(c: Comms): (r: Comms)
    ensures c.sender.None? ==> r == c
    ensures c.sender.Some? ==>
      && r.job == c.job
      && r.sender == Some(c.sender.value.(readyToSend := true))
    ensures Valid(c) ==> Valid(r)
  {
    match c.sender
    case None => c
    case Some(s) => c.(sender := Some(CommandSender.SetReadyToSend(s)))
  }

  /** `startPrint`: one job at a time; a second start is ignored. */
  function StartPrint(c: Comms, lines: seq<string>): (r: Comms)
    ensures c.job.Some? ==> r == c
    ensures c.job.None? ==> r == c.(job := Some(Job(lines)))
  {
    if c.job.None? then c.(job := Some(Job(lines))) else c
  }

  /** `readCommandsFromFile(count)` together with the read burst it releases.
      Without a job nothing happens. Otherwise the burst's commands are queued
      as normal commands, so they are sent after what is already queued, in
      file order; the job advances past the lines read, or ends at the end of
      the file. */
  function ReadCommandsFromFile(c: Comms, h: Hooks, tr: string -> Translation, count: int): (r: (Comms, Option<Burst>))
    ensures c.job.None? ==> r == (c, None)
    ensures c.job.Some? ==>
      var lines := c.job.value.remaining;
      && r.1 == Some(ReadBurst(lines, tr, count))
      && var b := r.1.value;
      && (b.end == EndOfFile ==> r.0.job.None?)
      && (b.end == BudgetReached ==> r.0.job == Some(Job(lines[b.consumed..])))
      && (c.sender.None? ==> r.0.sender.None?)
      && (c.sender.Some? ==>
            && r.0.sender == Some(AddCommands(c.sender.value, h, b.enqueued, false))
            && SendOrder(r.0.sender.value.q) == SendOrder(c.sender.value.q) + MarkAll(h, Admitted(h, b.enqueued))
            && r.0.sender.value.stopped == c.sender.value.stopped
            && r.0.sender.value.pending == c.sender.value.pending
            && r.0.sender.value.stored == c.sender.value.stored)
    ensures Valid(c) ==> Valid(r.0)
  {
    match c.job
    case None => (c, None)
    case Some(job) =>
      var b := ReadBurst(job.remaining, tr, count);
      var queued := QueueCommands(c, h, b.enqueued, false);
      var job' := if b.end == EndOfFile then None else Some(Job(job.remaining[b.consumed..]));
      (queued.(job := job'), Some(b))
  }

  /** `stopPrint`: without a job nothing happens. Otherwise the job ends and
      the send queue is cleared; in-flight commands stay pending and a pause
      snapshot survives. */
  function StopPrint(c: Comms): (r: Comms)
    ensures c.job.None? ==> r == c
    ensures c.job.Some? ==>
      && r.job.None?
      && (c.sender.None? ==> r.sender.None?)
      && (c.sender.Some? ==>
            && r.sender == Some(ClearCommandQueue(c.sender.value))
            && r.sender.value.q == []
            && r.sender.value.pending == c.sender.value.pending
            && r.sender.value.stored == c.sender.value.stored)
    ensures Valid(c) ==> Valid(r)
  {
    match c.job
    case None => c
    case Some(_) =>
      match c.sender
      case None => c.(job := None)
      case Some(s) => Comms(Some(ClearCommandQueue(s)), None)
  }

  /** `pausePrintJob`: only with both a job and a sender; stores the queue. */
  function PausePrintJob(c: Comms): (r: Comms)
    ensures c.job.None? || c.sender.None? ==> r == c
    ensures c.job.Some? && c.sender.Some? ==>
      && r.job == c.job
      && r.sender == Some(StoreCommands(c.sender.value))
    ensures Valid(c) ==> Valid(r)
  {
    if c.job.Some? && c.sender.Some? then c.(sender := Some(StoreCommands(c.sender.value))) else c
  }

  /** `resumePrintJob`: only with both a job and a sender; restores the queue. */
  function ResumePrintJob(c: Comms): (r: Comms)
    ensures c.job.None? || c.sender.None? ==> r == c
    ensures c.job.Some? && c.sender.Some? ==>
      && r.job == c.job
      && r.sender == Some(RestoreCommands(c.sender.value))
    ensures Valid(c) ==> Valid(r)
  {
    if c.job.Some? && c.sender.Some? then c.(sender := Some(RestoreCommands(c.sender.value))) else c
  }

  /** `onEndOfFle`, called by the job worker at the end of the file. */
  function OnEndOfFile(c: Comms): (r: Comms)
    ensures !Printing(r) && r.sender == c.sender
  {
    c.(job := None)
  }

  /** `closeLink`: a running print is stopped first, then the sender. */
  function CloseLink(c: Comms): (r: Comms)
    ensures !Printing(r) && r.sender.None?
  {
    var stopped := if Printing(c) then StopPrint(c) else c;
    StopSender(stopped)
  }

  /** The sender's handling of the parsed responses of one `onDataReceived`,
      in order, until the first that fails to decode. A single response is
      handed to `onCommandResponse`, and its raising leaves everything as it
      was. */
  function DeliverResponses(c: Comms, h: Hooks, responses: seq<string>): (r: Comms)
    ensures c.sender.None? ==> r == c
    ensures c.sender.Some? && |responses| == 1 ==>
      match OnCommandResponse(c.sender.value, h, responses[0])
      case DecodeError => r == c
      case Handled(s') => r == c.(sender := Some(s'))
    ensures r.job == c.job && (r.sender.Some? <==> c.sender.Some?)
    ensures c.sender.Some? ==>
      && r.sender.value.q == c.sender.value.q
      && r.sender.value.stored == c.sender.value.stored
      && |r.sender.value.pending| <= |c.sender.value.pending|
    ensures Valid(c) ==> Valid(r)
    decreases |responses|
  {
    if responses == [] || c.sender.None? then c
    else
      var s := c.sender.value;
      match OnCommandResponse(s, h, responses[0])
      case DecodeError => c
      case Handled(s') =>
        OnlyTheCompletedConsumerLeaves(h, s.pending, Strip(responses[0]));
        DeliverResponses(c.(sender := Some(s')), h, responses[1..])
  }

  /** `onDataReceived`: the listener parses the raw data into responses (`None`
      when it returned nothing iterable or raised, which is caught and logged),
      and each is handed to the sender. Responses never touch the send queue,
      the snapshot or the job, and can only shrink the pending list. */
  function OnDataReceived(c: Comms, h: Hooks, responses: Option<seq<string>>): (r: Comms)
    ensures responses.None? || c.sender.None? ==> r == c
    ensures responses.Some? ==> r == DeliverResponses(c, h, responses.value)
    ensures responses.Some? && |responses.value| == 1 && c.sender.Some? ==>
      match OnCommandResponse(c.sender.value, h, responses.value[0])
      case DecodeError => r == c
      case Handled(s') => r == c.(sender := Some(s'))
    ensures r.job == c.job && (r.sender.Some? <==> c.sender.Some?)
    ensures c.sender.Some? ==>
      && r.sender.value.q == c.sender.value.q
      && r.sender.value.stored == c.sender.value.stored
      && |r.sender.value.pending| <= |c.sender.value.pending|
    ensures Valid(c) ==> Valid(r)
  {
    match responses
    case None => c
    case Some(rs) => DeliverResponses(c, h, rs)
  }

  /** Responses are handled one after another: delivering a batch of
      decodable responses and then more is delivering them all at once. */
  lemma {:induction false} ResponsesAreHandledInTurn(c: Comms, h: Hooks, a: seq<string>, b: seq<string>)
    requires forall k :: 0 <= k < |a| ==> IsAscii(a[k])
    ensures DeliverResponses(c, h, a + b) == DeliverResponses(DeliverResponses(c, h, a), h, b)
    decreases |a|
  {
    if a != [] && c.sender.Some? {
      assert (a + b)[0] == a[0] && (a + b)[1..] == a[1..] + b;
      var s' := OnCommandResponse(c.sender.value, h, a[0]).sender;
      ResponsesAreHandledInTurn(c.(sender := Some(s')), h, a[1..], b);
    } else if a == [] {
      assert a + b == b;
    }
  }

  /** The first response that fails to decode ends the loop: what follows it
      is dropped, and what the responses before it did stays. */
  lemma {:induction false} UndecodableResponseEndsTheLoop(c: Comms, h: Hooks, ok: seq<string>, bad: string, rest: seq<string>)
    requires bad != [] && !IsAscii(bad)
    ensures DeliverResponses(c, h, ok + [bad] + rest) == DeliverResponses(c, h, ok)
    decreases |ok|
  {
    if c.sender.Some? {
      if ok == [] {
        assert ok + [bad] + rest == [bad] + rest;
      } else {
        assert (ok + [bad] + rest)[0] == ok[0];
        assert (ok + [bad] + rest)[1..] == ok[1..] + [bad] + rest;
        match OnCommandResponse(c.sender.value, h, ok[0])
        case DecodeError =>
        case Handled(s') =>
          UndecodableResponseEndsTheLoop(c.(sender := Some(s')), h, ok[1..], bad, rest);
      }
    }
  }

  /** Without a job, every job operation is a no-op, and `startPrint` starts one. */
  lemma JobOperationsNeedAJob(c: Comms, h: Hooks, tr: string -> Translation, count: int, lines: seq<string>)
    requires c.job.None?
    ensures StopPrint(c) == c && PausePrintJob(c) == c && ResumePrintJob(c) == c
    ensures ReadCommandsFromFile(c, h, tr, count) == (c, None)
    ensures StartPrint(c, lines).job == Some(Job(lines))
  {
  }

  /** Without a sender, every queueing and sending operation is a no-op, and
      the queue counts as empty. */
  lemma QueueOperationsNeedASender(c: Comms, h: Hooks, cmd: Option<Item>, cmds: seq<Item>,
                                   sendNext: bool, signalType: string, data: Option<string>,
                                   direct: Command, writeOk: bool)
    requires c.sender.None?
    ensures QueueCommand(c, h, cmd, sendNext) == c
    ensures QueueCommands(c, h, cmds, sendNext) == c
    ensures QueueSignal(c, h, signalType, data) == c
    ensures QueueCommandIfNotExists(c, h, cmd, sendNext) == c
    ensures SendCommand(c, h, direct, writeOk) == (c, None)
    ensures SendNextCommandInQueue(c) == c && SetReadyToSend(c) == c
    ensures CommandsInQueue(c) == 0 && PausePrintJob(c) == c && ResumePrintJob(c) == c
  {
  }

  /** A print stopped while paused keeps its snapshot, so resuming the next
      print job without pausing it first brings back the stopped job's queued
      commands, reversed. */
  lemma SnapshotOutlivesStoppedJob(c: Comms, lines: seq<string>)
    requires c.job.Some? && c.sender.Some? && c.sender.value.q != []
    ensures var next := StartPrint(StopPrint(PausePrintJob(c)), lines);
            var resumed := ResumePrintJob(next);
            && next.sender.value.q == []
            && resumed.sender.value.q == Reverse(c.sender.value.q)
  {
  }

  /** `printing` is true exactly while a print job exists: starting a print
      makes it true, stopping one or reaching the end of the file makes it
      false, pausing and resuming keep it, and a burst ends it exactly when it
      reached the end of the file. */
  lemma PrintingFollowsTheJob(c: Comms, h: Hooks, tr: string -> Translation, count: int, lines: seq<string>)
    ensures Printing(StartPrint(c, lines))
    ensures !Printing(StopPrint(c)) && !Printing(OnEndOfFile(c)) && !Printing(CloseLink(c))
    ensures Printing(PausePrintJob(c)) == Printing(c) && Printing(ResumePrintJob(c)) == Printing(c)
    ensures var (r, b) := ReadCommandsFromFile(c, h, tr, count);
            Printing(c) ==> (Printing(r) <==> b.value.end == BudgetReached)
  {
  }

  /** `commandsInQueue` counts what `queueCommands` let in: with a sender, the
      count grows by exactly the number of admitted items. */
  lemma QueueCountGrowsByAdmitted(c: Comms, h: Hooks, cmds: seq<Item>, sendNext: bool)
    requires c.sender.Some?
    ensures CommandsInQueue(QueueCommands(c, h, cmds, sendNext))
         == CommandsInQueue(c) + |Admitted(h, cmds)|
  {
    var r := QueueCommands(c, h, cmds, sendNext);
    assert r.sender.value == AddCommands(c.sender.value, h, cmds, sendNext);
  }
}
