/** The `Command` and `Signal` value objects, and the overridable behaviour
    that concrete command types plug into the engine. */
module Commands {
  import opened Optional

  /** A command as the base class keeps it: the raw instruction, the cached
      encoding (`None` until first computed), and its lifecycle flags. */
  datatype Command = Command(
    raw: string,
    encoded: Option<string>,
    isQueued: bool,
    received: bool,
    completed: bool)

  /** A freshly constructed command: nothing cached, queued, received or
      completed. It equals any command with the same raw instruction, and its
      first encoding is computed from that instruction by whatever encoder is
      asked. */
  function NewCommand(raw: string): (r: Command)
    ensures Payload(Cmd(r)) == Some(raw)
    ensures forall encode: string -> string :: EncodedCommand(r, encode).0 == encode(raw)
    ensures !r.isQueued && !r.received && !r.completed
  {
    Command(raw, None, false, false, false)
  }

  /** What the send queue holds: a transmittable command, or a Signal, the
      subclass whose raw payload is `None` and which is handed to the listener,
      with its type and optional data, instead of being written to the link. */
  datatype Item = Cmd(cmd: Command) | Signal(signalType: string, data: Option<string>)

  /** What a command's `onResponse` hook decides about one response line:
      whether it consumed the line, and its `received`/`completed` flags afterwards. */
  datatype Reaction = Reaction(accepted: bool, received: bool, completed: bool)

  /** The firmware-specific overrides of a concrete command type, kept abstract:
      - encode: `doEncodeCommand` applied to the raw instruction;
      - beforeAdd: whether `onBeforeCommandAddToQueue()` returned anything but False;
      - beforeSend: whether `onBeforeCommandSend()` returned anything but False;
      - onResponse: what the command makes of a response line. */
  datatype Hooks = Hooks(
    encode: string -> string,
    beforeAdd: Command -> bool,
    beforeSend: Command -> bool,
    onResponse: (Command, string) -> Reaction)

  /** The base class's defaults: identity encoding, never veto adding or sending.
      `onResponse` has no default (the base class raises), so it is supplied. */
  function DefaultHooks(onResponse: (Command, string) -> Reaction): (h: Hooks)
    ensures forall raw :: h.encode(raw) == raw
    ensures forall c :: h.beforeAdd(c) && h.beforeSend(c)
  {
    Hooks(raw => raw, c => true, c => true, onResponse)
  }

  /** The raw payload that equality compares; a Signal's is `None`. */
  function Payload(i: Item): Option<string> {
    match i
    case Cmd(c) => Some(c.raw)
    case Signal(_, _) => None
  }

  /** `Command.__eq__`: two items are equal exactly when their raw payloads are,
      so any two Signals are equal to each other. */
  predicate SameCommand(a: Item, b: Item)
    ensures a.Cmd? && b.Cmd? ==> (SameCommand(a, b) <==> a.cmd.raw == b.cmd.raw)
    ensures a.Cmd? != b.Cmd? ==> !SameCommand(a, b)
  {
    Payload(a) == Payload(b)
  }

  /** `c in queue`: membership up to `Command.__eq__`. Looking for a command
      finds any queued command with the same raw instruction, and looking for
      `None` (or a Signal) compares it with every payload, so it finds exactly
      the Signals. */
  predicate InQueue(q: seq<Item>, c: Option<Item>)
    ensures c.Some? && c.value.Cmd? ==>
      (InQueue(q, c) <==> exists k :: 0 <= k < |q| && q[k].Cmd? && q[k].cmd.raw == c.value.cmd.raw)
    ensures c.None? || c.value.Signal? ==> (InQueue(q, c) <==> exists k :: 0 <= k < |q| && q[k].Signal?)
    ensures c.Some? && c.value in q ==> InQueue(q, c)
  {
    var p := if c.Some? then Payload(c.value) else None;
    exists k :: 0 <= k < |q| && Payload(q[k]) == p
  }

  /** Any two Signals are equal, and a Signal never equals a command. */
  lemma SignalsAreAllEqual(a: Item, b: Item)
    requires a.Signal?
    ensures SameCommand(a, b) <==> b.Signal?
  {
  }

  /** No two items of `q` are equal in the sense of `Command.__eq__`. */
  ghost predicate UniquePayloads(q: seq<Item>) {
    forall i, j :: 0 <= i < j < |q| ==> Payload(q[i]) != Payload(q[j])
  }

  /** Whether `onBeforeCommandAddToQueue()` lets the item in; a Signal keeps the
      base class's answer. */
  predicate Admits(h: Hooks, i: Item) {
    i.Signal? || h.beforeAdd(i.cmd)
  }

  /** The `encodedCommand` property: the cached encoding if there is one,
      otherwise the hook's encoding, which is then cached. */
  function EncodedCommand(c: Command, encode: string -> string): (r: (string, Command))
    ensures r.1 == c.(encoded := Some(r.0))
    ensures c.encoded.Some? ==> r == (c.encoded.value, c)
    ensures c.encoded.None? ==> r.0 == encode(c.raw)
  {
    match c.encoded
    case Some(e) => (e, c)
    case None =>
      var e := encode(c.raw);
      (e, c.(encoded := Some(e)))
  }

  /** The encoding is computed at most once: asking again, whatever encoder is
      at hand, returns the cached string and changes nothing. */
  lemma EncodingIsComputedOnce(c: Command, first: string -> string, later: string -> string)
    ensures var (e, c') := EncodedCommand(c, first);
            EncodedCommand(c', later) == (e, c')
  {
  }

  /** With the base class's `doEncodeCommand`, the encoding is the raw instruction. */
  lemma DefaultEncodingIsRaw(c: Command, onResponse: (Command, string) -> Reaction)
    requires c.encoded.None? || c.encoded == Some(c.raw)
    ensures EncodedCommand(c, DefaultHooks(onResponse).encode).0 == c.raw
  {
  }

  /** What `addCommand` does to an admitted item besides queueing it: `isQueued`
      is set and `encode()` recomputes the encoding. A Signal's encoding is its
      `None` payload, which the model does not record. */
  function MarkQueued(h: Hooks, i: Item): (r: Item)
    ensures Payload(r) == Payload(i)
    ensures r.Signal? <==> i.Signal?
    ensures r.Signal? ==> r == i
    ensures r.Cmd? ==> r.cmd == i.cmd.(isQueued := true, encoded := Some(h.encode(i.cmd.raw)))
  {
    match i
    case Cmd(c) => Cmd(c.(isQueued := true, encoded := Some(h.encode(c.raw))))
    case Signal(_, _) => i
  }

  /** An item as it sits in the queue: a command there is marked queued and encoded. */
  predicate Queued(i: Item) {
    i.Cmd? ==> i.cmd.isQueued && i.cmd.encoded.Some?
  }

  /** `MarkQueued` over a list, in order. */
  function MarkAll(h: Hooks, items: seq<Item>): (r: seq<Item>)
    ensures |r| == |items|
    ensures forall k :: 0 <= k < |items| ==> r[k] == MarkQueued(h, items[k])
  {
    if items == [] then [] else [MarkQueued(h, items[0])] + MarkAll(h, items[1..])
  }

  lemma MarkAllCons(h: Hooks, x: Item, t: seq<Item>)
    ensures MarkAll(h, [x] + t) == [MarkQueued(h, x)] + MarkAll(h, t)
  {
    assert ([x] + t)[1..] == t;
  }

  /** The items of a list that `onBeforeCommandAddToQueue()` lets in, in order:
      each admitted item is kept as often as it occurs, each refused one is
      dropped. */
  function Admitted(h: Hooks, items: seq<Item>): (r: seq<Item>)
    ensures |r| <= |items|
    ensures forall k :: 0 <= k < |r| ==> Admits(h, r[k])
    ensures (forall k :: 0 <= k < |items| ==> Admits(h, items[k])) ==> r == items
  {
    if items == [] then []
    else (if Admits(h, items[0]) then [items[0]] else []) + Admitted(h, items[1..])
  }

  /** Each admitted item is kept as often as it occurs; each refused one is dropped. */
  lemma {:induction false} AdmittedKeepsExactlyTheAdmitted(h: Hooks, items: seq<Item>)
    ensures forall x :: multiset(Admitted(h, items))[x] == if Admits(h, x) then multiset(items)[x] else 0
    decreases |items|
  {
    if items != [] {
      assert items == [items[0]] + items[1..];
      AdmittedKeepsExactlyTheAdmitted(h, items[1..]);
    }
  }

  /** Filtering a concatenation filters each part and keeps them in order, so
      admitted items keep their relative order. */
  lemma {:induction false} AdmittedConcat(h: Hooks, a: seq<Item>, b: seq<Item>)
    ensures Admitted(h, a + b) == Admitted(h, a) + Admitted(h, b)
    decreases |a|
  {
    if a != [] {
      var head := if Admits(h, a[0]) then [a[0]] else [];
      assert (a + b)[0] == a[0] && (a + b)[1..] == a[1..] + b;
      assert Admitted(h, a + b) == head + Admitted(h, a[1..] + b);
      AdmittedConcat(h, a[1..], b);
      assert Admitted(h, a) == head + Admitted(h, a[1..]);
    } else {
      assert a + b == b;
    }
  }
}
