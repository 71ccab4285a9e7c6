/** The `JobWorker` read burst: after `read(maxCommands)` the worker reads
    lines, hands each to the listener's `onFileLineRead`, and queues what comes
    back, until the file ends or the running count of queued commands reaches
    `maxCommands`. The file is the sequence of lines not yet read; the
    listener's translation is a parameter. */
module JobWorker {
  import opened Commands

  /** What `onFileLineRead(line)` gave back: `None` (skip the line), a list of
      commands, or an exception. */
  datatype Translation = Skip | Translated(items: seq<Item>) | Raised

  datatype BurstEnd = EndOfFile | BudgetReached

  /** The outcome of one burst: the commands handed to `queueCommands`, in
      order; the offsets of the lines whose translation raised (each reported
      with `onJobError('error_processing_command')`); how many lines were read;
      and why the burst ended. */
  datatype Burst = Burst(enqueued: seq<Item>, failed: seq<nat>, consumed: nat, end: BurstEnd)

  function ItemsOf(t: Translation): seq<Item> {
    if t.Translated? then t.items else []
  }

  /** The commands the first `n` lines yield, in file order. */
  function Produced(lines: seq<string>, tr: string -> Translation, n: nat): seq<Item>
    requires n <= |lines|
  {
    if n == 0 then [] else Produced(lines, tr, n - 1) + ItemsOf(tr(lines[n - 1]))
  }

  /** The offsets among the first `n` lines whose translation raised. */
  function FailedLines(lines: seq<string>, tr: string -> Translation, n: nat): seq<nat>
    requires n <= |lines|
  {
    if n == 0 then []
    else FailedLines(lines, tr, n - 1) + (if tr(lines[n - 1]).Raised? then [n - 1] else [])
  }

  /** Line `n` (counting from 1) yields a command list, and with it the running
      count reaches the budget: the burst ends there. */
  predicate BudgetHit(lines: seq<string>, tr: string -> Translation, maxCommands: int, n: nat)
    requires 0 < n <= |lines|
  {
    tr(lines[n - 1]).Translated? && |Produced(lines, tr, n)| >= maxCommands
  }

  /** How many lines a burst reads when none of the first `n` ended it: up to
      the first later line that reaches the budget, or to the end of the file. */
  function BurstLength(lines: seq<string>, tr: string -> Translation, maxCommands: int, n: nat): nat
    requires n <= |lines|
    decreases |lines| - n
  {
    if n == |lines| then n
    else if BudgetHit(lines, tr, maxCommands, n + 1) then n + 1
    else BurstLength(lines, tr, maxCommands, n + 1)
  }

  /** `BurstLength` is the first line after `n` that reaches the budget, or
      the whole file when none does. */
  lemma {:induction false} BurstLengthIsFirstHit(lines: seq<string>, tr: string -> Translation, maxCommands: int, n: nat)
    requires n <= |lines|
    ensures var k := BurstLength(lines, tr, maxCommands, n);
      && n <= k <= |lines|
      && (forall m :: n < m < k ==> !BudgetHit(lines, tr, maxCommands, m))
      && (k == n ==> n == |lines|)
      && (k < |lines| ==> BudgetHit(lines, tr, maxCommands, k))
    decreases |lines| - n
  {
    if n < |lines| && !BudgetHit(lines, tr, maxCommands, n + 1) {
      BurstLengthIsFirstHit(lines, tr, maxCommands, n + 1);
    }
  }

  /** One read burst over the unread lines. It reads exactly up to the first
      line at which the running count of queued commands reaches
      `maxCommands`, or to the end of the file when no line does; it queues
      every command those lines yield, in file order, skips lines that yield
      `None` or raise, and reports each line that raised. */
  function ReadBurst(lines: seq<string>, tr: string -> Translation, maxCommands: int): (b: Burst)
    ensures b.consumed <= |lines|
    ensures b.enqueued == Produced(lines, tr, b.consumed)
    ensures b.failed == FailedLines(lines, tr, b.consumed)
    ensures b.end == EndOfFile ==>
      b.consumed == |lines| && forall n :: 0 < n <= |lines| ==> !BudgetHit(lines, tr, maxCommands, n)
    ensures b.end == BudgetReached ==>
      && 0 < b.consumed
      && BudgetHit(lines, tr, maxCommands, b.consumed)
      && forall n :: 0 < n < b.consumed ==> !BudgetHit(lines, tr, maxCommands, n)
  {
    var k := BurstLength(lines, tr, maxCommands, 0);
    BurstLengthIsFirstHit(lines, tr, maxCommands, 0);
    var end := if 0 < k && BudgetHit(lines, tr, maxCommands, k) then BudgetReached else EndOfFile;
    Burst(Produced(lines, tr, k), FailedLines(lines, tr, k), k, end)
  }

  /** The burst as the source's loop computes it: a counter of queued
      commands, a `break` once it reaches the budget, and a stop at the end of
      the file. */
  method ReadBurstLoop(lines: seq<string>, tr: string -> Translation, maxCommands: int) returns (b: Burst)
    ensures b == ReadBurst(lines, tr, maxCommands)
  {
    var i := 0;
    var enq: seq<Item> := [];
    var failed: seq<nat> := [];
    var added := 0;
    while i < |lines|
      invariant i <= |lines|
      invariant enq == Produced(lines, tr, i) && failed == FailedLines(lines, tr, i)
      invariant added == |enq|
      invariant 0 < i ==> !BudgetHit(lines, tr, maxCommands, i)
      invariant BurstLength(lines, tr, maxCommands, i) == BurstLength(lines, tr, maxCommands, 0)
      decreases |lines| - i
    {
      ghost var before := enq;
      match tr(lines[i]) {
        case Raised =>
          failed := failed + [i];
          assert before + ItemsOf(tr(lines[i])) == enq;
        case Skip =>
          assert before + ItemsOf(tr(lines[i])) == enq;
        case Translated(items) =>
          enq := enq + items;
          added := added + |items|;
          if added >= maxCommands {
            assert BudgetHit(lines, tr, maxCommands, i + 1);
            return Burst(enq, failed, i + 1, BudgetReached);
          }
      }
      i := i + 1;
    }
    return Burst(enq, failed, i, EndOfFile);
  }

  /** A line that yields nothing or raises adds no command and never ends the
      burst, whatever the budget: the burst reads on past it. */
  lemma SkippedAndFailedLinesAddNothing(lines: seq<string>, tr: string -> Translation, maxCommands: int, n: nat)
    requires 0 < n <= |lines| && !tr(lines[n - 1]).Translated?
    ensures Produced(lines, tr, n) == Produced(lines, tr, n - 1)
    ensures !BudgetHit(lines, tr, maxCommands, n)
    ensures BurstLength(lines, tr, maxCommands, n - 1) == BurstLength(lines, tr, maxCommands, n)
  {
  }

  /** The burst is a prefix of the whole file's commands, so bursts taken one
      after another queue the file's commands in file order. */
  lemma {:induction false} ProducedSplits(lines: seq<string>, tr: string -> Translation, k: nat)
    requires k <= |lines|
    ensures Produced(lines, tr, |lines|) == Produced(lines, tr, k) + Produced(lines[k..], tr, |lines| - k)
    decreases |lines| - k
  {
    if k < |lines| {
      ProducedSplits(lines, tr, k + 1);
      ProducedFirst(lines[k..], tr, |lines| - k);
      assert lines[k..][1..] == lines[k + 1..];
      assert Produced(lines, tr, k + 1) == Produced(lines, tr, k) + ItemsOf(tr(lines[k]));
    } else {
      assert Produced(lines[k..], tr, 0) == [];
    }
  }

  /** Peeling the first line off. */
  lemma {:induction false} ProducedFirst(lines: seq<string>, tr: string -> Translation, n: nat)
    requires 0 < n <= |lines|
    ensures Produced(lines, tr, n) == ItemsOf(tr(lines[0])) + Produced(lines[1..], tr, n - 1)
    decreases n
  {
    if n > 1 {
      ProducedFirst(lines, tr, n - 1);
      assert lines[1..][n - 2] == lines[n - 1];
    }
  }

  /** The scenario of a two-line file whose first line yields one command and
      whose second is skipped: with a budget of at least two, one burst queues
      that command and reaches the end of the file; with a budget of one, the
      first burst stops after the command and a second burst reaches the end
      with nothing more queued. */
  lemma TwoLineFileScenario(l1: string, l2: string, x: Item, tr: string -> Translation, budget: int)
    requires tr(l1) == Translated([x]) && tr(l2) == Skip
    ensures budget >= 2 ==> ReadBurst([l1, l2], tr, budget) == Burst([x], [], 2, EndOfFile)
    ensures budget == 1 ==>
      && ReadBurst([l1, l2], tr, budget) == Burst([x], [], 1, BudgetReached)
      && ReadBurst([l2], tr, budget) == Burst([], [], 1, EndOfFile)
  {
    var lines := [l1, l2];
    assert Produced(lines, tr, 1) == [x];
    assert Produced(lines, tr, 2) == [x];
    assert FailedLines(lines, tr, 1) == [];
    assert FailedLines(lines, tr, 2) == [];
    assert Produced([l2], tr, 1) == [];
    assert FailedLines([l2], tr, 1) == [];
  }
}
