/** The `CommandSender` worker as a sequential state machine: every public
    operation and every iteration of the worker loop is one transition of an
    immutable state record. Threads, locks and the wait on the wake event are
    abstracted away; `wake` is the event's flag. */
module CommandSender {
  import opened Optional
  import opened Sequences
  import opened Commands
  import opened Correlation

  /** The sender's state:
      - q: the send queue; index 0 is the deque's left end, where normal
        commands enter, and the worker pops the LAST element;
      - pending: commands written to the link and not yet completed, the most
        recently sent at index 0;
      - stored: the snapshot taken by `storeCommands`;
      - readyToSend, wake, stopped: the flags of the same names (wake is
        the send event). */
  datatype Sender = Sender(
    q: seq<Item>,
    pending: seq<Command>,
    stored: Option<seq<Item>>,
    readyToSend: bool,
    wake: bool,
    stopped: bool)

  /** The state the constructor sets up. */
  function NewSender(): Sender {
    Sender([], [], None, true, false, false)
  }

  /** The order in which the worker would take the queued items. */
  function SendOrder(q: seq<Item>): seq<Item> {
    Reverse(q)
  }

  /** `commandsInQueue`. */
  function CommandsInQueue(s: Sender): nat {
    |s.q|
  }

  /** What every reachable state satisfies: queued commands (also those in the
      snapshot) are marked queued and carry their encoding, and a stopped
      sender has its wake flag raised so the worker observes the stop. */
  ghost predicate Valid(s: Sender) {
    && (forall k :: 0 <= k < |s.q| ==> Queued(s.q[k]))
    && (s.stored.Some? ==> forall k :: 0 <= k < |s.stored.value| ==> Queued(s.stored.value[k]))
    && (s.stopped ==> s.wake)
  }

  lemma NewSenderIsValid()
    ensures Valid(NewSender())
  {
  }

  /** `addCommand(command, sendNext)`. Nothing changes for a missing command or
      one whose `onBeforeCommandAddToQueue` refuses. Otherwise the marked
      command enters at the tail (the pop end) when `sendNext` is set and at
      the head otherwise; the worker is woken when the sender was ready or the
      queue had been empty, and `readyToSend` always ends up cleared. */
  function AddCommand(s: Sender, h: Hooks, c: Option<Item>, sendNext: bool): (r: Sender)
    ensures c.None? || !Admits(h, c.value) ==> r == s
    ensures c.Some? && Admits(h, c.value) ==>
      && |r.q| == |s.q| + 1
      && r.q == (if sendNext then s.q + [MarkQueued(h, c.value)] else [MarkQueued(h, c.value)] + s.q)
      && r.wake == (s.wake || s.readyToSend || s.q == [])
      && !r.readyToSend
      && r.pending == s.pending && r.stored == s.stored && r.stopped == s.stopped
    ensures Valid(s) ==> Valid(r)
  {
    if c.None? || !Admits(h, c.value) then s
    else
      var item := MarkQueued(h, c.value);
      var q := if sendNext then s.q + [item] else [item] + s.q;
      if s.readyToSend || |q| == 1 then s.(q := q, wake := true, readyToSend := false)
      else s.(q := q)
  }

  /** `addCommandIfNotExists`: no change when an equal command (same raw
      payload) is already queued; otherwise `addCommand`. Queues without
      duplicates stay without duplicates. */
  function AddCommandIfNotExists(s: Sender, h: Hooks, c: Option<Item>, sendNext: bool): (r: Sender)
    ensures InQueue(s.q, c) ==> r == s
    ensures !InQueue(s.q, c) ==> r == AddCommand(s, h, c, sendNext)
    ensures UniquePayloads(s.q) ==> UniquePayloads(r.q)
    ensures Valid(s) ==> Valid(r)
  {
    if InQueue(s.q, c) then s
    else
      AddingAFreshPayloadKeepsUnique(s, h, c, sendNext);
      AddCommand(s, h, c, sendNext)
  }

  lemma AddingAFreshPayloadKeepsUnique(s: Sender, h: Hooks, c: Option<Item>, sendNext: bool)
    requires !InQueue(s.q, c)
    ensures UniquePayloads(s.q) ==> UniquePayloads(AddCommand(s, h, c, sendNext).q)
  {
    if c.Some? && Admits(h, c.value) && UniquePayloads(s.q) {
      var m := MarkQueued(h, c.value);
      assert forall k :: 0 <= k < |s.q| ==> Payload(s.q[k]) != Payload(m);
      FreshPayloadKeepsUnique(s.q, m);
    }
  }

  lemma FreshPayloadKeepsUnique(q: seq<Item>, m: Item)
    requires UniquePayloads(q)
    requires forall k :: 0 <= k < |q| ==> Payload(q[k]) != Payload(m)
    ensures UniquePayloads(q + [m]) && UniquePayloads([m] + q)
  {
    var back := q + [m];
    forall i, j | 0 <= i < j < |back|
      ensures Payload(back[i]) != Payload(back[j])
    {
      assert back[i] == q[i];
      if j < |q| {
        assert back[j] == q[j];
      }
    }
    var front := [m] + q;
    forall i, j | 0 <= i < j < |front|
      ensures Payload(front[i]) != Payload(front[j])
    {
      assert front[j] == q[j - 1];
      if 0 < i {
        assert front[i] == q[i - 1];
      }
    }
  }

  /** `queueCommands`: `addCommand` for each item in order. Normal items end up
      ahead of the old queue in reverse, so they are sent in list order after
      it; priority items end up behind it in list order, so they are sent
      before it, the last first. Refused items are dropped. */
  function AddCommands(s: Sender, h: Hooks, items: seq<Item>, sendNext: bool): (r: Sender)
    ensures !sendNext ==> r.q == Reverse(MarkAll(h, Admitted(h, items))) + s.q
    ensures sendNext ==> r.q == s.q + MarkAll(h, Admitted(h, items))
    ensures r.pending == s.pending && r.stored == s.stored && r.stopped == s.stopped
    ensures Admitted(h, items) == [] ==> r == s
    ensures Admitted(h, items) != [] ==> r.wake == (s.wake || s.readyToSend || s.q == []) && !r.readyToSend
    ensures Valid(s) ==> Valid(r)
    decreases |items|
  {
    if items == [] then s
    else
      var s1 := AddCommand(s, h, Some(items[0]), sendNext);
      var r := AddCommands(s1, h, items[1..], sendNext);
      AddCommandsStep(s, h, items, sendNext, s1, r);
      AdmittedHead(h, items);
      r
  }

  /** One item more: how the first `addCommand` of `queueCommands` composes
      with the rest. */
  lemma AddCommandsStep(s: Sender, h: Hooks, items: seq<Item>, sendNext: bool, s1: Sender, r: Sender)
    requires items != [] && s1 == AddCommand(s, h, Some(items[0]), sendNext)
    requires !sendNext ==> r.q == Reverse(MarkAll(h, Admitted(h, items[1..]))) + s1.q
    requires sendNext ==> r.q == s1.q + MarkAll(h, Admitted(h, items[1..]))
    ensures !sendNext ==> r.q == Reverse(MarkAll(h, Admitted(h, items))) + s.q
    ensures sendNext ==> r.q == s.q + MarkAll(h, Admitted(h, items))
  {
    AdmittedHead(h, items);
    var rest := MarkAll(h, Admitted(h, items[1..]));
    var all := MarkAll(h, Admitted(h, items));
    if !Admits(h, items[0]) {
      assert s1 == s;
      assert all == rest;
    } else {
      var m := MarkQueued(h, items[0]);
      assert all == [m] + rest;
      if sendNext {
        AppendThenAppend(s.q, m, rest, all, r.q);
      } else {
        ReverseCons(m, rest);
        PrependBehindReverse(s.q, m, rest, all, r.q);
      }
    }
  }

  /** Sequence regrouping, kept out of `AddCommandsStep`'s context: inlined,
      the step's proof exceeds the resource limit. */
  lemma AppendThenAppend<T>(q: seq<T>, m: T, rest: seq<T>, all: seq<T>, rq: seq<T>)
    requires all == [m] + rest && rq == (q + [m]) + rest
    ensures rq == q + all
  {
  }

  lemma PrependBehindReverse<T>(q: seq<T>, m: T, rest: seq<T>, all: seq<T>, rq: seq<T>)
    requires Reverse(all) == Reverse(rest) + [m] && rq == Reverse(rest) + ([m] + q)
    ensures rq == Reverse(all) + q
  {
  }

  /** How the first item of a list contributes to the marked admitted items. */
  lemma AdmittedHead(h: Hooks, items: seq<Item>)
    requires items != []
    ensures var rest := MarkAll(h, Admitted(h, items[1..]));
            var m := MarkQueued(h, items[0]);
            && (Admits(h, items[0]) ==>
                  MarkAll(h, Admitted(h, items)) == [m] + rest
                  && Reverse(MarkAll(h, Admitted(h, items))) == Reverse(rest) + [m])
            && (!Admits(h, items[0]) ==> MarkAll(h, Admitted(h, items)) == rest)
  {
    var rest := MarkAll(h, Admitted(h, items[1..]));
    if Admits(h, items[0]) {
      var m := MarkQueued(h, items[0]);
      assert Admitted(h, items) == [items[0]] + Admitted(h, items[1..]);
      assert MarkAll(h, [items[0]] + Admitted(h, items[1..])) == [m] + rest;
      ReverseCons(m, rest);
    } else {
      assert Admitted(h, items) == Admitted(h, items[1..]);
    }
  }

  /** `storeCommands`: the queue moves into the snapshot, in head-to-tail order. */
  function StoreCommands(s: Sender): (r: Sender)
    ensures r.q == [] && r.stored == Some(s.q)
    ensures r.pending == s.pending && r.readyToSend == s.readyToSend
    ensures r.wake == s.wake && r.stopped == s.stopped
    ensures Valid(s) ==> Valid(r)
  {
    s.(q := [], stored := Some(s.q))
  }

  /** The restore loop: each snapshot element in turn is pushed onto the head
      end of the queue, which reverses the snapshot. */
  function PrependEach(items: seq<Item>, q: seq<Item>): (r: seq<Item>)
    ensures r == Reverse(items) + q
  {
    if items == [] then q
    else PrependEach(items[1..], [items[0]] + q)
  }

  /** `restoreCommands`. With no snapshot, or an empty one (which Python treats
      as false), nothing changes, not even the snapshot. Otherwise the
      snapshot lands, reversed, at the head end of the queue, in front of
      whatever was queued meanwhile, and is dropped. */
  function RestoreCommands(s: Sender): (r: Sender)
    ensures s.stored.None? || s.stored.value == [] ==> r == s
    ensures s.stored.Some? && s.stored.value != [] ==>
      && r.q == Reverse(s.stored.value) + s.q
      && r.stored.None?
      && r.pending == s.pending && r.readyToSend == s.readyToSend
      && r.wake == s.wake && r.stopped == s.stopped
    ensures Valid(s) ==> Valid(r)
  {
    if s.stored.None? || s.stored.value == [] then s
    else s.(q := PrependEach(s.stored.value, s.q), stored := None)
  }

  /** `clearCommandQueue`: only the queue is emptied; the snapshot survives. */
  function ClearCommandQueue(s: Sender): (r: Sender)
    ensures r.q == [] && r.stored == s.stored && r.pending == s.pending
    ensures r.readyToSend == s.readyToSend && r.wake == s.wake && r.stopped == s.stopped
    ensures Valid(s) ==> Valid(r)
  {
    s.(q := [])
  }

  /** `sendNext`: wakes the worker when something is queued, and otherwise
      records that the next command added may be sent at once. */
  function SendNext(s: Sender): (r: Sender)
    ensures r.wake == (s.wake || s.q != [])
    ensures r.readyToSend == (s.readyToSend || s.q == [])
    ensures r.q == s.q && r.pending == s.pending && r.stored == s.stored && r.stopped == s.stopped
    ensures Valid(s) ==> Valid(r)
  {
    if |s.q| > 0 then s.(wake := true) else s.(readyToSend := true)
  }

  /** `setReadytoSend`. */
  function SetReadyToSend(s: Sender): (r: Sender)
    ensures r.readyToSend && r == s.(readyToSend := true)
    ensures Valid(s) ==> Valid(r)
  {
    s.(readyToSend := true)
  }

  /** `stop`: in-flight commands are abandoned, the worker is woken so that it
      sees the stop; the queue and the snapshot are left as they are. */
  function Stop(s: Sender): (r: Sender)
    ensures r.pending == [] && r.wake && r.stopped
    ensures r.q == s.q && r.stored == s.stored && r.readyToSend == s.readyToSend
    ensures Valid(s) ==> Valid(r)
  {
    s.(pending := [], wake := true, stopped := true)
  }

  /** What `sendCommand` did: vetoed by `onBeforeCommandSend`, wrote the given
      encoding to the link, or failed to write (reported to the listener as
      link error 'unable_to_send' with the raw instruction). */
  datatype SendOutcome = Suppressed | Written(data: string) | LinkError(raw: string)

  /** `sendCommand`. A veto changes nothing. Otherwise the command's encoding
      (the cached one if any) is written; when the write succeeds the command,
      with its encoding cached, goes to the front of the pending list, and when
      it fails the command is lost. Nothing but the pending list changes. */
  function SendCommand(s: Sender, h: Hooks, c: Command, writeOk: bool): (r: (Sender, SendOutcome))
    ensures !h.beforeSend(c) ==> r == (s, Suppressed)
    ensures h.beforeSend(c) && !writeOk ==> r == (s, LinkError(c.raw))
    ensures h.beforeSend(c) && writeOk ==>
      && r.1 == Written(if c.encoded.Some? then c.encoded.value else h.encode(c.raw))
      && r.0 == s.(pending := [c.(encoded := Some(r.1.data))] + s.pending)
    ensures Valid(s) ==> Valid(r.0)
  {
    if !h.beforeSend(c) then (s, Suppressed)
    else
      var (data, c') := EncodedCommand(c, h.encode);
      if writeOk then (s.(pending := [c'] + s.pending), Written(data))
      else (s, LinkError(c.raw))
  }

  /** What one iteration of the worker loop did. */
  datatype StepEvent =
    | Exited                                      // the loop saw the stop flag
    | Blocked                                     // waiting on the wake event
    | QueueEmpty                                  // woken with nothing queued
    | Dispatched(signalType: string, data: Option<string>) // a Signal went to the listener
    | Sent(cmd: Command, outcome: SendOutcome)     // a command went to `sendCommand`

  /** One iteration of the worker loop (`run`). A stopped sender exits and a
      sender without the wake flag blocks, both without change. A woken sender
      with an empty queue clears the flag. Otherwise it pops the tail item: a
      Signal is dispatched and the flag stays raised; a command is sent and
      the flag is cleared, so the worker then waits for `sendNext` or
      `addCommand` even if more is queued. */
  function RunStep(s: Sender, h: Hooks, writeOk: bool): (r: (Sender, StepEvent))
    ensures s.stopped ==> r == (s, Exited)
    ensures !s.stopped && !s.wake ==> r == (s, Blocked)
    ensures !s.stopped && s.wake && s.q == [] ==> r == (s.(wake := false), QueueEmpty)
    ensures !s.stopped && s.wake && s.q != [] ==>
      var top := s.q[|s.q| - 1];
      var rest := s.q[..|s.q| - 1];
      && r.0.q == rest
      && r.0.stored == s.stored && r.0.stopped == s.stopped && r.0.readyToSend == s.readyToSend
      && (top.Signal? ==> r == (s.(q := rest), Dispatched(top.signalType, top.data)))
      && (top.Cmd? ==>
            && r.1 == Sent(top.cmd, SendCommand(s, h, top.cmd, writeOk).1)
            && r.0.pending == SendCommand(s, h, top.cmd, writeOk).0.pending
            && !r.0.wake)
    ensures Valid(s) ==> Valid(r.0)
  {
    if s.stopped then (s, Exited)
    else if !s.wake then (s, Blocked)
    else if s.q == [] then (s.(wake := false), QueueEmpty)
    else
      var top := s.q[|s.q| - 1];
      var s1 := s.(q := s.q[..|s.q| - 1]);
      match top
      case Signal(t, d) => (s1, Dispatched(t, d))
      case Cmd(c) =>
        var (s2, outcome) := SendCommand(s1, h, c, writeOk);
        (s2.(wake := false), Sent(c, outcome))
  }

  /** Result of `onCommandResponse`: the new state, or a decoding failure, an
      exception that ends the caller's loop over the remaining responses. */
  datatype Response = Handled(sender: Sender) | DecodeError

  /** `onCommandResponse(data)` as the code runs it. Empty data changes
      nothing; data that is not ASCII raises. Otherwise the stripped line goes
      to the same consumer as the intended transition, with the same wake-up
      and the same change in length, but a completed consumer is taken out by
      `list.remove`, which drops the first pending command with its raw
      instruction (see `Correlation.AsWrittenLeaves`). The queue and snapshot
      are never touched. */
  function OnCommandResponse(s: Sender, h: Hooks, data: string): (r: Response)
    ensures data == [] ==> r == Handled(s)
    ensures data != [] && !IsAscii(data) ==> r == DecodeError
    ensures data != [] && IsAscii(data) ==>
      var line := Strip(data);
      var m := Scan(h, s.pending, line);
      && r.Handled?
      && r.sender == OnCommandResponseCorrected(s, h, data).sender.(pending := r.sender.pending)
      && |r.sender.pending| == |m.pending|
      && AsWrittenLeaves(h, s.pending, line, Match(r.sender.pending, m.matched, m.triggerNext))
    ensures r.Handled? ==> r.sender.q == s.q && r.sender.stored == s.stored && r.sender.stopped == s.stopped
    ensures r.Handled? && Valid(s) ==> Valid(r.sender)
  {
    if data == [] then Handled(s)
    else if !IsAscii(data) then DecodeError
    else
      var m := ScanAsWritten(h, s.pending, Strip(data));
      var s1 := s.(pending := m.pending);
      Handled(if m.triggerNext then SendNext(s1) else s1)
  }

  /** `onCommandResponse(data)` as evidently intended: the consuming command
      itself leaves the pending list when it completes. Empty data changes
      nothing; data that is not ASCII raises. Otherwise the stripped line is
      offered to the pending list (see `Consumed`), and `sendNext` runs when
      the consuming command was completed and had come from the queue. */
  function OnCommandResponseCorrected(s: Sender, h: Hooks, data: string): (r: Response)
    ensures data == [] ==> r == Handled(s)
    ensures data != [] && !IsAscii(data) ==> r == DecodeError
    ensures data != [] && IsAscii(data) ==>
      var m := Scan(h, s.pending, Strip(data));
      && r.Handled?
      && Consumed(h, s.pending, Strip(data), m)
      && r.sender.pending == m.pending
      && r.sender == (if m.triggerNext then SendNext(s) else s).(pending := m.pending)
    ensures r.Handled? ==> r.sender.q == s.q && r.sender.stored == s.stored && r.sender.stopped == s.stopped
    ensures r.Handled? && Valid(s) ==> Valid(r.sender)
  {
    if data == [] then Handled(s)
    else if !IsAscii(data) then DecodeError
    else
      var m := Scan(h, s.pending, Strip(data));
      var s1 := s.(pending := m.pending);
      Handled(if m.triggerNext then SendNext(s1) else s1)
  }

  /** While no two pending commands share a raw instruction, the code as
      written and the intended transition agree. */
  lemma AsWrittenResponseAgreesOnDistinctPayloads(s: Sender, h: Hooks, data: string)
    requires forall i, j :: 0 <= i < j < |s.pending| ==> s.pending[i].raw != s.pending[j].raw
    ensures OnCommandResponse(s, h, data) == OnCommandResponseCorrected(s, h, data)
  {
    if data != [] && IsAscii(data) {
      AsWrittenAgreesOnDistinctPayloads(h, s.pending, Strip(data));
    }
  }
}
