/** Response correlation: how one response line from the firmware is matched
    against the pending (sent, unacknowledged) commands. There are no message
    identifiers; the pending list is scanned from index 0, the most recently
    sent command, and the first command whose `onResponse` hook accepts the
    line consumes it. */
module Correlation {
  import opened Optional
  import opened Commands

  /** `bytes.decode('ascii')` succeeds exactly when every byte is below 128. */
  predicate IsAscii(data: string) {
    forall k :: 0 <= k < |data| ==> data[k] as int < 128
  }

  /** The ASCII characters a decoded (unicode) string's `strip()` removes:
      tab through carriage return, the separators 0x1C-0x1F, and space. */
  predicate IsSpace(ch: char) {
    9 <= ch as int <= 13 || 28 <= ch as int <= 32
  }

  predicate AllSpace(s: string) {
    forall k :: 0 <= k < |s| ==> IsSpace(s[k])
  }

  /** Number of whitespace characters `s` starts with. */
  function LeadingSpaces(s: string): (n: nat)
    ensures n <= |s|
    ensures AllSpace(s[..n])
    ensures n < |s| ==> !IsSpace(s[n])
  {
    if s == [] || !IsSpace(s[0]) then 0
    else
      var n := 1 + LeadingSpaces(s[1..]);
      assert s[..n] == [s[0]] + s[1..][..n - 1];
      n
  }

  /** Number of whitespace characters `s` ends with. */
  function TrailingSpaces(s: string): (n: nat)
    ensures n <= |s|
    ensures AllSpace(s[|s| - n..])
    ensures n < |s| ==> !IsSpace(s[|s| - 1 - n])
  {
    if s == [] || !IsSpace(s[|s| - 1]) then 0
    else
      var t := s[..|s| - 1];
      var n := 1 + TrailingSpaces(t);
      assert s[|s| - n..] == t[|t| - (n - 1)..] + [s[|s| - 1]];
      n
  }

  /** `str.strip()`: the longest slice of `s` that neither starts nor ends with
      whitespace, found by dropping whitespace from both ends. */
  function Strip(s: string): (r: string)
    ensures exists i, j :: 0 <= i <= j <= |s| && r == s[i..j] && AllSpace(s[..i]) && AllSpace(s[j..])
    ensures r != [] ==> !IsSpace(r[0]) && !IsSpace(r[|r| - 1])
  {
    var i := LeadingSpaces(s);
    var t := s[i..];
    var m := TrailingSpaces(t);
    var j := |s| - m;
    assert t[..|t| - m] == s[i..j];
    assert t[|t| - m..] == s[j..];
    s[i..j]
  }

  /** Stripping twice strips nothing more. */
  lemma StripIsIdempotent(s: string)
    ensures Strip(Strip(s)) == Strip(s)
  {
    var r := Strip(s);
    assert LeadingSpaces(r) == 0;
    assert TrailingSpaces(r) == 0;
  }

  /** The command after its `onResponse` hook has run on `line`. Only the
      `received`/`completed` flags can change; the raw instruction, the cached
      encoding and `isQueued` cannot. */
  function Offer(h: Hooks, c: Command, line: string): (r: Command)
    ensures r.raw == c.raw && r.encoded == c.encoded && r.isQueued == c.isQueued
  {
    var re := h.onResponse(c, line);
    c.(received := re.received, completed := re.completed)
  }

  predicate Accepts(h: Hooks, c: Command, line: string) {
    h.onResponse(c, line).accepted
  }

  /** Every command of `p` after `onResponse(line)` has run on it. */
  function OfferAll(h: Hooks, p: seq<Command>, line: string): (r: seq<Command>)
    ensures |r| == |p|
    ensures forall k :: 0 <= k < |p| ==> r[k] == Offer(h, p[k], line)
  {
    if p == [] then [] else [Offer(h, p[0], line)] + OfferAll(h, p[1..], line)
  }

  /** Result of offering one line to the pending list: the new pending list,
      the index of the command that consumed the line, and whether the next
      send is to be triggered. */
  datatype Match = Match(pending: seq<Command>, matched: Option<nat>, triggerNext: bool)

  /** What offering `line` to the pending list `p` must produce: every command
      up to and including the consuming one has been offered the line; exactly
      the first accepting command consumes it; it leaves the list only when it
      then reports itself completed, and then it triggers the next send exactly
      when it came from the queue. Commands after it are untouched. */
  ghost predicate Consumed(h: Hooks, p: seq<Command>, line: string, m: Match) {
    match m.matched
    case None =>
      && (forall j :: 0 <= j < |p| ==> !Accepts(h, p[j], line))
      && m.pending == OfferAll(h, p, line)
      && !m.triggerNext
    case Some(k) =>
      && k < |p|
      && Accepts(h, p[k], line)
      && (forall j :: 0 <= j < k ==> !Accepts(h, p[j], line))
      && (Offer(h, p[k], line).completed ==>
            m.pending == OfferAll(h, p[..k], line) + p[k + 1..] && m.triggerNext == p[k].isQueued)
      && (!Offer(h, p[k], line).completed ==>
            m.pending == OfferAll(h, p[..k + 1], line) + p[k + 1..] && !m.triggerNext)
  }

  /** The scan of `onCommandResponse`, removing the consuming command by its position. */
  function Scan(h: Hooks, p: seq<Command>, line: string): (m: Match)
    ensures Consumed(h, p, line, m)
  {
    if p == [] then Match([], None, false)
    else
      var c := Offer(h, p[0], line);
      if Accepts(h, p[0], line) then
        OfferAllPrefix(h, p, line, 1);
        assert p[..0] == [];
        if c.completed then Match(p[1..], Some(0), c.isQueued)
        else Match([c] + p[1..], Some(0), false)
      else
        var rest := Scan(h, p[1..], line);
        ConsumedBehindDecliner(h, p, line, rest);
        Match([c] + rest.pending, if rest.matched.Some? then Some(rest.matched.value + 1) else None, rest.triggerNext)
  }

  /** A command that declines the line is offered it and stays put; the rest
      of the list decides the outcome. */
  lemma ConsumedBehindDecliner(h: Hooks, p: seq<Command>, line: string, rest: Match)
    requires p != [] && !Accepts(h, p[0], line)
    requires Consumed(h, p[1..], line, rest)
    ensures Consumed(h, p, line,
      Match([Offer(h, p[0], line)] + rest.pending,
            if rest.matched.Some? then Some(rest.matched.value + 1) else None,
            rest.triggerNext))
  {
    var head := Offer(h, p[0], line);
    match rest.matched
    case None =>
      DeclinersBehindDecliner(h, p, line, |p| - 1);
      PrefixBehindDecliner(h, p, line, |p|, |p|);
    case Some(k) =>
      DeclinersBehindDecliner(h, p, line, k);
      assert p[k + 1] == p[1..][k];
      if Offer(h, p[k + 1], line).completed {
        PrefixBehindDecliner(h, p, line, k + 1, k + 2);
      } else {
        PrefixBehindDecliner(h, p, line, k + 2, k + 2);
      }
  }

  lemma DeclinersBehindDecliner(h: Hooks, p: seq<Command>, line: string, k: nat)
    requires k < |p| && !Accepts(h, p[0], line)
    requires forall j :: 0 <= j < k ==> !Accepts(h, p[1..][j], line)
    ensures forall j :: 0 <= j < k + 1 ==> !Accepts(h, p[j], line)
  {
    forall j | 1 <= j < k + 1
      ensures !Accepts(h, p[j], line)
    {
      assert p[j] == p[1..][j - 1];
    }
  }

  /** Putting the offered head back in front of a result for the tail. */
  lemma PrefixBehindDecliner(h: Hooks, p: seq<Command>, line: string, n: nat, m: nat)
    requires 0 < n <= m <= |p|
    ensures [Offer(h, p[0], line)] + (OfferAll(h, p[1..][..n - 1], line) + p[1..][m - 1..])
         == OfferAll(h, p[..n], line) + p[m..]
  {
    OfferAllPrefix(h, p, line, n);
    assert p[1..][m - 1..] == p[m..];
  }

  /** Offering the line to a prefix of `p` offers it to `p[0]` and then to a
      prefix of the rest. */
  lemma OfferAllPrefix(h: Hooks, p: seq<Command>, line: string, n: nat)
    requires 0 < n <= |p|
    ensures OfferAll(h, p[..n], line) == [Offer(h, p[0], line)] + OfferAll(h, p[1..][..n - 1], line)
  {
    assert p[..n][1..] == p[1..][..n - 1];
  }

  /** A command leaves the pending list only by consuming the line and then
      reporting itself completed; nothing else is removed. */
  lemma OnlyTheCompletedConsumerLeaves(h: Hooks, p: seq<Command>, line: string)
    ensures var m := Scan(h, p, line);
            && |p| - 1 <= |m.pending| <= |p|
            && (|m.pending| < |p| <==>
                  m.matched.Some? && Offer(h, p[m.matched.value], line).completed)
  {
    var m := Scan(h, p, line);
    assert Consumed(h, p, line, m);
  }

  /** Index of the first command of `p` whose raw instruction is `raw`. */
  function IndexOfRaw(p: seq<Command>, raw: string): (j: nat)
    requires exists k :: 0 <= k < |p| && p[k].raw == raw
    ensures j < |p| && p[j].raw == raw
    ensures forall k :: 0 <= k < j ==> p[k].raw != raw
  {
    if p[0].raw == raw then 0 else 1 + IndexOfRaw(p[1..], raw)
  }

  /** `list.remove(c)`: drops the first element equal to `c`, and
      `Command.__eq__` compares raw instructions, so this is the first
      command with the same raw instruction, not necessarily `c` itself. */
  function RemoveFirstEqual(p: seq<Command>, raw: string): (r: seq<Command>)
    requires exists k :: 0 <= k < |p| && p[k].raw == raw
    ensures |r| == |p| - 1
    ensures var j := IndexOfRaw(p, raw); r == p[..j] + p[j + 1..]
  {
    var j := IndexOfRaw(p, raw);
    p[..j] + p[j + 1..]
  }

  /** The scan exactly as the loop of `onCommandResponse` (`commands.py`,
      lines 827-835) runs it, from position `i`
      on: `onResponse` updates each visited command in place, and a completed
      consumer is removed with `list.remove`. */
  function ScanAsWrittenFrom(h: Hooks, p: seq<Command>, line: string, i: nat): (m: Match)
    requires i <= |p|
    ensures m.matched.None? ==> |m.pending| == |p| && forall j :: i <= j < |p| ==> !Accepts(h, p[j], line)
    ensures m.matched.Some? ==>
      && i <= m.matched.value < |p|
      && Accepts(h, p[m.matched.value], line)
      && (forall j :: i <= j < m.matched.value ==> !Accepts(h, p[j], line))
      && |m.pending| == (if Offer(h, p[m.matched.value], line).completed then |p| - 1 else |p|)
      && m.triggerNext == (Offer(h, p[m.matched.value], line).completed && p[m.matched.value].isQueued)
    ensures m.matched.None? ==> !m.triggerNext
    decreases |p| - i
  {
    if i == |p| then Match(p, None, false)
    else
      var c := Offer(h, p[i], line);
      var p' := p[i := c];
      assert p'[i] == c;
      assert forall j :: i < j < |p| ==> p'[j] == p[j];
      if !Accepts(h, p[i], line) then ScanAsWrittenFrom(h, p', line, i + 1)
      else if c.completed then Match(RemoveFirstEqual(p', c.raw), Some(i), c.isQueued)
      else Match(p', Some(i), false)
  }

  /** The loop as written, from the start of the pending list. It picks the
      same consumer as `Scan`, shortens the list under the same condition and
      triggers the next send under the same condition, but when the consumer
      completes it removes the first command with the consumer's raw
      instruction, which need not be the consumer. */
  function ScanAsWritten(h: Hooks, p: seq<Command>, line: string): (m: Match)
    ensures m.matched == Scan(h, p, line).matched
    ensures m.triggerNext == Scan(h, p, line).triggerNext
    ensures |m.pending| == |Scan(h, p, line).pending|
    ensures AsWrittenLeaves(h, p, line, m)
  {
    AsWrittenMatchesScan(h, p, line);
    assert OfferAll(h, p[..0], line) + p[0..] == p;
    AsWrittenShapeFrom(h, p, line, 0);
    ScanAsWrittenFrom(h, p, line, 0)
  }

  lemma AsWrittenMatchesScan(h: Hooks, p: seq<Command>, line: string)
    ensures var m := ScanAsWrittenFrom(h, p, line, 0);
            var n := Scan(h, p, line);
            m.matched == n.matched && m.triggerNext == n.triggerNext && |m.pending| == |n.pending|
  {
    var n := Scan(h, p, line);
    assert Consumed(h, p, line, n);
    if n.matched.Some? {
      var k := n.matched.value;
      if Offer(h, p[k], line).completed {
        assert |n.pending| == |p| - 1;
      }
    }
  }

  /** The pending list the loop as written leaves: every command up to the
      consumer has been offered the line, and a completed consumer is followed
      by `list.remove` of its raw instruction. */
  ghost predicate AsWrittenLeaves(h: Hooks, p: seq<Command>, line: string, m: Match) {
    match m.matched
    case None => m.pending == OfferAll(h, p, line)
    case Some(k) =>
      && k < |p|
      && var u := OfferAll(h, p[..k + 1], line) + p[k + 1..];
      && u[k].raw == p[k].raw
      && m.pending == if Offer(h, p[k], line).completed then RemoveFirstEqual(u, p[k].raw) else u
  }

  lemma {:induction false} AsWrittenShapeFrom(h: Hooks, p: seq<Command>, line: string, i: nat)
    requires i <= |p|
    requires forall j :: 0 <= j < i ==> !Accepts(h, p[j], line)
    ensures AsWrittenLeaves(h, p, line, ScanAsWrittenFrom(h, OfferAll(h, p[..i], line) + p[i..], line, i))
    decreases |p| - i
  {
    var q := OfferAll(h, p[..i], line) + p[i..];
    if i == |p| {
      assert p[..i] == p;
      assert q == OfferAll(h, p, line);
    } else {
      assert q[i] == p[i];
      OfferOneMore(h, p, line, i);
      if !Accepts(h, p[i], line) {
        AsWrittenShapeFrom(h, p, line, i + 1);
      }
    }
  }

  /** Offering the line to one more command extends the offered prefix. */
  lemma OfferOneMore(h: Hooks, p: seq<Command>, line: string, i: nat)
    requires i < |p|
    ensures (OfferAll(h, p[..i], line) + p[i..])[i := Offer(h, p[i], line)]
            == OfferAll(h, p[..i + 1], line) + p[i + 1..]
  {
    var a := (OfferAll(h, p[..i], line) + p[i..])[i := Offer(h, p[i], line)];
    var b := OfferAll(h, p[..i + 1], line) + p[i + 1..];
    assert |a| == |b|;
    forall k | 0 <= k < |a|
      ensures a[k] == b[k]
    {
      if k < i {
        assert a[k] == Offer(h, p[..i][k], line);
      } else if k > i {
        assert a[k] == p[k];
      }
    }
  }

  /** Where no two pending commands share a raw instruction, the loop as written
      removes the consumer itself and agrees with `Scan`. */
  lemma AsWrittenAgreesOnDistinctPayloads(h: Hooks, p: seq<Command>, line: string)
    requires forall i, j :: 0 <= i < j < |p| ==> p[i].raw != p[j].raw
    ensures ScanAsWritten(h, p, line) == Scan(h, p, line)
  {
    assert OfferAll(h, p[..0], line) + p[0..] == p;
    AsWrittenAgreesFrom(h, p, line, 0);
  }

  lemma {:induction false} AsWrittenAgreesFrom(h: Hooks, p: seq<Command>, line: string, i: nat)
    requires forall i, j :: 0 <= i < j < |p| ==> p[i].raw != p[j].raw
    requires i <= |p|
    requires forall j :: 0 <= j < i ==> !Accepts(h, p[j], line)
    ensures ScanAsWrittenFrom(h, OfferAll(h, p[..i], line) + p[i..], line, i) == Scan(h, p, line)
    decreases |p| - i
  {
    var q := OfferAll(h, p[..i], line) + p[i..];
    var m := Scan(h, p, line);
    if i == |p| {
      assert p[..i] == p;
      assert q == OfferAll(h, p, line);
    } else {
      assert q[i] == p[i];
      var c := Offer(h, p[i], line);
      var q' := q[i := c];
      OfferOneMore(h, p, line, i);
      if !Accepts(h, p[i], line) {
        AsWrittenAgreesFrom(h, p, line, i + 1);
      } else {
        assert m.matched == Some(i);
        if c.completed {
          assert q'[i].raw == c.raw;
          forall k | 0 <= k < i
            ensures q'[k].raw != c.raw
          {
            assert q'[k] == Offer(h, p[..i][k], line);
          }
          assert IndexOfRaw(q', c.raw) == i;
        }
      }
    }
  }

  /** Two pending copies of one instruction, where the newer declines a line
      that the older consumes and completes on: the loop as written removes the
      newer copy and leaves the completed one pending for good, while `Scan`
      removes the completed one. */
  lemma AsWrittenDropsTheWrongCommand()
    ensures
      var h := Hooks(raw => raw, c => true, c => true,
                     (c: Command, line: string) => Reaction(c.received, true, c.received));
      var newer := Command("M105", Some("M105"), true, false, false);
      var older := newer.(received := true);
      var asWritten := ScanAsWritten(h, [newer, older], "ok").pending;
      var intended := Scan(h, [newer, older], "ok").pending;
      && |asWritten| == 1 && asWritten[0].completed
      && |intended| == 1 && !intended[0].completed
  {
    var h := Hooks(raw => raw, c => true, c => true,
                   (c: Command, line: string) => Reaction(c.received, true, c.received));
    var newer := Command("M105", Some("M105"), true, false, false);
    var older := newer.(received := true);
    var p := [newer, older];
    assert !Accepts(h, newer, "ok");
    assert Accepts(h, older, "ok");
    var p1 := p[0 := Offer(h, newer, "ok")];
    var p2 := p1[1 := Offer(h, older, "ok")];
    assert p2[0].raw == "M105";
    assert IndexOfRaw(p2, "M105") == 0;
    assert ScanAsWritten(h, p, "ok") == ScanAsWrittenFrom(h, p1, "ok", 1);
  }
}
