/** Properties of the sender that relate several operations: send order
    under interleaved normal and priority adds, pause and resume, duplicate
    suppression, and how the worker loop makes progress. */
module SenderProperties {
  import opened Optional
  import opened Sequences
  import opened Commands
  import opened Correlation
  import opened CommandSender

  /** One `addCommand(item, sendNext)` call. */
  datatype Add = Add(item: Item, priority: bool)

  /** A run of `addCommand` calls, in order. */
  function ApplyAdds(s: Sender, h: Hooks, adds: seq<Add>): Sender
    decreases |adds|
  {
    if adds == [] then s
    else ApplyAdds(AddCommand(s, h, Some(adds[0].item), adds[0].priority), h, adds[1..])
  }

  /** The items of a run of calls that were added with priority, in call order. */
  function PriorityItems(adds: seq<Add>): seq<Item> {
    if adds == [] then []
    else (if adds[0].priority then [adds[0].item] else []) + PriorityItems(adds[1..])
  }

  /** The items of a run of calls that were added normally, in call order. */
  function NormalItems(adds: seq<Add>): seq<Item> {
    if adds == [] then []
    else (if adds[0].priority then [] else [adds[0].item]) + NormalItems(adds[1..])
  }

  /** One admitted add: a priority item becomes the first to be sent, a normal
      item the last. */
  lemma AddOneSendOrder(s: Sender, h: Hooks, item: Item, priority: bool)
    requires Admits(h, item)
    ensures var r := AddCommand(s, h, Some(item), priority);
            && SendOrder(r.q) == (if priority then [MarkQueued(h, item)] + SendOrder(s.q)
                                  else SendOrder(s.q) + [MarkQueued(h, item)])
            && r.stored == s.stored && r.pending == s.pending
  {
    var m := MarkQueued(h, item);
    if priority {
      ReverseConcat(s.q, [m]);
    } else {
      ReverseCons(m, s.q);
    }
  }

  lemma SplitPriority<T>(x: seq<T>, r: seq<T>, m: T, so: seq<T>, n: seq<T>, rp: seq<T>)
    requires x == r + ([m] + so) + n && rp == r + [m]
    ensures x == rp + so + n
  {
  }

  lemma SplitNormal<T>(x: seq<T>, r: seq<T>, m: T, so: seq<T>, n: seq<T>, mn: seq<T>)
    requires x == r + (so + [m]) + n && mn == [m] + n
    ensures x == r + so + mn
  {
  }

  /** For any interleaving of normal and priority adds, the worker will take
      every priority item first, the most recently added first; then what was
      queued before; then the normal items in the order they were added.
      The pending list and the snapshot are not touched. */
  lemma {:induction false} InterleavedAddsOrder(s: Sender, h: Hooks, adds: seq<Add>)
    requires forall k :: 0 <= k < |adds| ==> Admits(h, adds[k].item)
    ensures SendOrder(ApplyAdds(s, h, adds).q)
         == Reverse(MarkAll(h, PriorityItems(adds))) + SendOrder(s.q) + MarkAll(h, NormalItems(adds))
    ensures ApplyAdds(s, h, adds).stored == s.stored
    ensures ApplyAdds(s, h, adds).pending == s.pending
    decreases |adds|
  {
    if adds != [] {
      var a := adds[0];
      var s1 := AddCommand(s, h, Some(a.item), a.priority);
      assert Admits(h, adds[0].item);
      AddOneSendOrder(s, h, a.item, a.priority);
      var tail := adds[1..];
      assert forall k :: 0 <= k < |tail| ==> tail[k] == adds[k + 1];
      InterleavedAddsOrder(s1, h, tail);
      var x := SendOrder(ApplyAdds(s, h, adds).q);
      assert ApplyAdds(s, h, adds) == ApplyAdds(s1, h, tail);
      var P := MarkAll(h, PriorityItems(tail));
      var N := MarkAll(h, NormalItems(tail));
      var m := MarkQueued(h, a.item);
      if a.priority {
        assert PriorityItems(adds) == [a.item] + PriorityItems(tail);
        MarkAllCons(h, a.item, PriorityItems(tail));
        ReverseCons(m, P);
        assert NormalItems(adds) == NormalItems(tail);
        SplitPriority(x, Reverse(P), m, SendOrder(s.q), N, Reverse(MarkAll(h, PriorityItems(adds))));
      } else {
        assert NormalItems(adds) == [a.item] + NormalItems(tail);
        MarkAllCons(h, a.item, NormalItems(tail));
        assert PriorityItems(adds) == PriorityItems(tail);
        SplitNormal(x, Reverse(P), m, SendOrder(s.q), N, MarkAll(h, NormalItems(adds)));
      }
    }
  }

  /** Pausing and resuming with nothing added in between reverses the order in
      which the queued commands will be sent, and drops the snapshot. */
  lemma PauseThenResumeReversesSendOrder(s: Sender)
    requires s.q != []
    ensures var r := RestoreCommands(StoreCommands(s));
            && SendOrder(r.q) == Reverse(SendOrder(s.q))
            && r.stored.None?
            && r.pending == s.pending
  {
    var r := RestoreCommands(StoreCommands(s));
    assert r.q == Reverse(s.q) + [];
    ReverseReverse(s.q);
  }

  /** Resuming puts the snapshot at the head end, so everything queued while
      paused is sent first and the snapshot's items follow, head to tail. */
  lemma ResumedItemsFollowPauseTimeItems(s: Sender)
    requires s.stored.Some? && s.stored.value != []
    ensures SendOrder(RestoreCommands(s).q) == SendOrder(s.q) + s.stored.value
  {
    ReverseConcat(Reverse(s.stored.value), s.q);
    ReverseReverse(s.stored.value);
  }

  /** The whole pause cycle: pause, any admitted adds, resume. The worker then
      takes the priority items added while paused, then the normal ones, and
      only then the pre-pause queue, in reverse of its pre-pause send order.
      An empty queue leaves a falsy snapshot, which resume ignores. */
  lemma PauseAddResume(s: Sender, h: Hooks, adds: seq<Add>)
    requires forall k :: 0 <= k < |adds| ==> Admits(h, adds[k].item)
    ensures SendOrder(RestoreCommands(ApplyAdds(StoreCommands(s), h, adds)).q)
         == Reverse(MarkAll(h, PriorityItems(adds))) + MarkAll(h, NormalItems(adds)) + Reverse(SendOrder(s.q))
  {
    var paused := StoreCommands(s);
    var added := ApplyAdds(paused, h, adds);
    var rp := Reverse(MarkAll(h, PriorityItems(adds)));
    var n := MarkAll(h, NormalItems(adds));
    InterleavedAddsOrder(paused, h, adds);
    assert paused.q == [];
    assert Reverse<Item>([]) == [];
    DropEmptyMiddle(SendOrder(added.q), rp, SendOrder(paused.q), n);
    assert added.stored == Some(s.q);
    if s.q == [] {
      assert RestoreCommands(added) == added;
      assert SendOrder(s.q) == [];
    } else {
      ResumedItemsFollowPauseTimeItems(added);
      ReverseReverse(s.q);
    }
  }

  lemma DropEmptyMiddle<T>(x: seq<T>, a: seq<T>, e: seq<T>, b: seq<T>)
    requires e == [] && x == a + e + b
    ensures x == a + b
  {
  }

  /** Pausing an empty queue leaves an empty snapshot that resuming does not
      clear. */
  lemma EmptyPauseLeavesAnEmptySnapshot(s: Sender)
    requires s.q == []
    ensures RestoreCommands(StoreCommands(s)).stored == Some([])
  {
  }

  /** `commandsInQueue` follows the queue through every operation: an admitted
      add counts one more, clearing and pausing count zero, resuming a
      non-empty snapshot adds its length, and a worker step that takes an item
      counts one less. */
  lemma QueueCountTracksTheQueue(s: Sender, h: Hooks, i: Item, sendNext: bool, writeOk: bool)
    ensures CommandsInQueue(AddCommand(s, h, Some(i), sendNext))
         == CommandsInQueue(s) + (if Admits(h, i) then 1 else 0)
    ensures CommandsInQueue(ClearCommandQueue(s)) == 0 && CommandsInQueue(StoreCommands(s)) == 0
    ensures s.stored.Some? ==>
      CommandsInQueue(RestoreCommands(s)) == CommandsInQueue(s) + |s.stored.value|
    ensures !s.stopped && s.wake && s.q != [] ==>
      CommandsInQueue(RunStep(s, h, writeOk).0) == CommandsInQueue(s) - 1
  {
  }

  /** `addCommandIfNotExists` twice with the same command adds it at most once. */
  lemma IfNotExistsIsIdempotent(s: Sender, h: Hooks, c: Option<Item>, first: bool, second: bool)
    ensures var s1 := AddCommandIfNotExists(s, h, c, first);
            AddCommandIfNotExists(s1, h, c, second) == s1
  {
    var s1 := AddCommandIfNotExists(s, h, c, first);
    if !InQueue(s.q, c) && c.Some? && Admits(h, c.value) {
      var m := MarkQueued(h, c.value);
      if first {
        assert s1.q[|s.q|] == m;
      } else {
        assert s1.q[0] == m;
      }
      assert InQueue(s1.q, c);
    }
  }

  /** The item a worker iteration took off the queue, if any. */
  function Popped(ev: StepEvent): Option<Item> {
    match ev
    case Dispatched(t, d) => Some(Signal(t, d))
    case Sent(c, _) => Some(Cmd(c))
    case _ => None
  }

  /** A woken, running worker takes exactly the first item of the send order,
      and the rest of the send order is left as it was. */
  lemma StepTakesTheNextInSendOrder(s: Sender, h: Hooks, writeOk: bool)
    requires !s.stopped && s.wake && s.q != []
    ensures var (r, ev) := RunStep(s, h, writeOk);
            Popped(ev).Some? && SendOrder(s.q) == [Popped(ev).value] + SendOrder(r.q)
  {
    var n := |s.q|;
    assert s.q == s.q[..n - 1] + [s.q[n - 1]];
    ReverseConcat(s.q[..n - 1], [s.q[n - 1]]);
  }

  /** After sending a command the worker waits, even with more queued, until
      `sendNext` or `addCommand` raises the wake flag again. */
  lemma WorkerWaitsAfterEachCommand(s: Sender, h: Hooks, writeOk: bool, nextWriteOk: bool)
    requires !s.stopped && s.wake && s.q != [] && s.q[|s.q| - 1].Cmd?
    ensures var r := RunStep(s, h, writeOk).0;
            RunStep(r, h, nextWriteOk) == (r, Blocked)
  {
  }

  /** A dispatched Signal leaves the wake flag raised: the worker goes on. */
  lemma SignalLeavesWorkerAwake(s: Sender, h: Hooks, writeOk: bool)
    requires !s.stopped && s.wake && s.q != [] && s.q[|s.q| - 1].Signal?
    ensures RunStep(s, h, writeOk).0.wake
  {
  }

  /** `sendNext` with something queued lets the worker take the next item. */
  lemma SendNextLetsTheWorkerGoOn(s: Sender, h: Hooks, writeOk: bool)
    requires !s.stopped && s.q != []
    ensures Popped(RunStep(SendNext(s), h, writeOk).1) == Some(SendOrder(s.q)[0])
  {
    StepTakesTheNextInSendOrder(SendNext(s), h, writeOk);
  }

  /** After `setReadytoSend` the next admitted command wakes the worker, however
      much is queued. */
  lemma ReadyToSendWakesOnNextAdd(s: Sender, h: Hooks, i: Item, sendNext: bool)
    requires Admits(h, i)
    ensures var r := AddCommand(SetReadyToSend(s), h, Some(i), sendNext);
            r.wake && !r.readyToSend
  {
  }

  /** After `stop` the worker loop ends at its next iteration. */
  lemma StoppedWorkerExits(s: Sender, h: Hooks, writeOk: bool)
    ensures RunStep(Stop(s), h, writeOk) == (Stop(s), Exited)
  {
  }

  /** A command taken from the queue is written with the encoding computed when
      it was queued (never re-encoded), and enters the pending list marked as
      queued, so that its completion will trigger the next send. */
  lemma QueuedCommandIsSentAsEncodedWhenQueued(s: Sender, h: Hooks)
    requires Valid(s) && !s.stopped && s.wake && s.q != []
    requires s.q[|s.q| - 1].Cmd? && h.beforeSend(s.q[|s.q| - 1].cmd)
    ensures var c := s.q[|s.q| - 1].cmd;
            var (r, ev) := RunStep(s, h, true);
            && ev == Sent(c, Written(c.encoded.value))
            && r.pending == [c] + s.pending
            && r.pending[0].isQueued
  {
    assert Queued(s.q[|s.q| - 1]);
  }

  /** The base class's hooks with a firmware whose commands consume and
      complete on an `ok` line. */
  function OkFirmware(): (h: Hooks)
    ensures forall c :: h.onResponse(c, "ok") == Reaction(true, true, true)
  {
    DefaultHooks((c: Command, line: string) => Reaction(line == "ok", line == "ok", line == "ok"))
  }

  /** The request/response cycle with two normal commands A then B on a fresh
      sender: the worker writes A and waits; the response line `ok` (with its
      line ending) completes A, which came from the queue, so the worker is
      woken and writes B. */
  lemma TwoCommandScenario(rawA: string, rawB: string)
    ensures
      var h := OkFirmware();
      var a := Command(rawA, Some(rawA), true, false, false);
      var b := Command(rawB, Some(rawB), true, false, false);
      var s1 := AddCommand(AddCommand(NewSender(), h, Some(Cmd(NewCommand(rawA))), false),
                           h, Some(Cmd(NewCommand(rawB))), false);
      var (s2, ev2) := RunStep(s1, h, true);
      var (s3, ev3) := RunStep(s2, h, true);
      var s4 := OnCommandResponse(s3, h, "ok\r\n");
      && ev2 == Sent(a, Written(rawA))
      && s2.pending == [a]
      && ev3 == Blocked
      && s4.Handled? && s4.sender.pending == [] && s4.sender.wake
      && RunStep(s4.sender, h, true).1 == Sent(b, Written(rawB))
  {
    var h := OkFirmware();
    var a := Command(rawA, Some(rawA), true, false, false);
    var b := Command(rawB, Some(rawB), true, false, false);
    assert MarkQueued(h, Cmd(NewCommand(rawA))).cmd == a;
    assert MarkQueued(h, Cmd(NewCommand(rawB))).cmd == b;
    QueueTwoOnFreshSender(h, rawA, rawB);
    WorkerSendsTail(h, [Cmd(b)], a, []);
    StripOk();
    var m := Scan(h, [a], "ok");
    assert Consumed(h, [a], "ok", m);
    assert m == Match([], Some(0), true);
    WorkerSendsTail(h, [], b, []);
  }

  lemma StripOk()
    ensures IsAscii("ok\r\n") && Strip("ok\r\n") == "ok"
  {
    assert LeadingSpaces("ok\r\n") == 0;
    assert TrailingSpaces("ok\r") == 1;
    assert TrailingSpaces("ok\r\n") == 2;
  }

  lemma QueueTwoOnFreshSender(h: Hooks, rawA: string, rawB: string)
    requires h.beforeAdd(NewCommand(rawA)) && h.beforeAdd(NewCommand(rawB))
    ensures var a := MarkQueued(h, Cmd(NewCommand(rawA))).cmd;
            var b := MarkQueued(h, Cmd(NewCommand(rawB))).cmd;
            AddCommand(AddCommand(NewSender(), h, Some(Cmd(NewCommand(rawA))), false),
                       h, Some(Cmd(NewCommand(rawB))), false)
            == Sender([Cmd(b), Cmd(a)], [], None, false, true, false)
  {
  }

  lemma WorkerSendsTail(h: Hooks, rest: seq<Item>, c: Command, pending: seq<Command>)
    requires h.beforeSend(c) && c.encoded.Some?
    ensures RunStep(Sender(rest + [Cmd(c)], pending, None, false, true, false), h, true)
         == (Sender(rest, [c] + pending, None, false, false, false), Sent(c, Written(c.encoded.value)))
  {
    assert (rest + [Cmd(c)])[..|rest|] == rest;
  }
}
