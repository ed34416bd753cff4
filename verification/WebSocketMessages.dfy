/**
 Messages over a WebSocket connection: fragments with control frames between them are
 delivered as their concatenation, whatever the chunks the bytes arrive in.
 */
module WebSocketMessages {
  import opened Bytes
  import opened WebSocket
  import opened WebSocketTheorems

  // ---- What a client sends ----------------------------------------------------

  /** A continuation fragment, after the control frames sent before it. */
  datatype Part = Part(controls: seq<Frame>, payload: seq<byte>)

  /** A message: its first fragment and the others, if it is fragmented. */
  datatype Message = Message(opcode: byte, first: seq<byte>, parts: seq<Part>)

  predicate IsControl(f: Frame) {
    f.opcode == PING || f.opcode == PONG
  }

  predicate AllControl(frames: seq<Frame>) {
    frames == [] || (IsControl(frames[0]) && AllControl(frames[1..]))
  }

  predicate ControlsOnly(parts: seq<Part>) {
    parts == [] || (AllControl(parts[0].controls) && ControlsOnly(parts[1..]))
  }

  predicate WellSent(m: Message) {
    (m.opcode == TEXT || m.opcode == BINARY) && ControlsOnly(m.parts)
  }

  /** Messages the server takes: well formed, and within the limit. */
  predicate Acceptable(messages: seq<Message>) {
    messages == []
    || (WellSent(messages[0]) && |Whole(messages[0])| <= LIMIT && Acceptable(messages[1..]))
  }

  /** What the message says. */
  function Joined(parts: seq<Part>): seq<byte> {
    if parts == [] then [] else parts[0].payload + Joined(parts[1..])
  }

  function Whole(m: Message): seq<byte> {
    m.first + Joined(m.parts)
  }

  /** The frames of the fragments after the first; the last one has the final bit. */
  function PartFrames(parts: seq<Part>): seq<Frame> {
    if parts == [] then []
    else parts[0].controls + [Frame(|parts| == 1, CONTINUATION, parts[0].payload)] + PartFrames(parts[1..])
  }

  function Frames(m: Message): seq<Frame> {
    [Frame(m.parts == [], m.opcode, m.first)] + PartFrames(m.parts)
  }

  function AllFrames(messages: seq<Message>): seq<Frame> {
    if messages == [] then [] else Frames(messages[0]) + AllFrames(messages[1..])
  }

  function Wholes(messages: seq<Message>): seq<seq<byte>> {
    if messages == [] then [] else [Whole(messages[0])] + Wholes(messages[1..])
  }

  // ---- What the hub is handed, what is answered -------------------------------

  function Deliveries(log: seq<Event>): seq<seq<byte>> {
    if log == [] then []
    else Deliveries(log[..|log| - 1])
         + (match log[|log| - 1] case Delivered(message) => [message] case Answered(_) => [])
  }

  /** All bytes sent in answer to pings. */
  function Answers(log: seq<Event>): seq<byte> {
    if log == [] then []
    else Answers(log[..|log| - 1])
         + (match log[|log| - 1] case Delivered(_) => [] case Answered(bytes) => bytes)
  }

  lemma LogGrows(log: seq<Event>, e: Event)
    ensures Deliveries(log + [e]) == Deliveries(log) + if e.Delivered? then [e.message] else []
    ensures Answers(log + [e]) == Answers(log) + if e.Answered? then e.bytes else []
  {
    assert (log + [e])[..|log|] == log;
  }

  // ---- Frame by frame ---------------------------------------------------------

  function ApplyAll(c: Conn, frames: seq<Frame>, up: nat -> bool): Conn
    decreases |frames|
  {
    if frames == [] || c.status.Closed? then c else ApplyAll(Apply(c, frames[0], up), frames[1..], up)
  }

  lemma {:induction false} ApplyAllConcat(c: Conn, a: seq<Frame>, b: seq<Frame>, up: nat -> bool)
    ensures ApplyAll(c, a + b, up) == ApplyAll(ApplyAll(c, a, up), b, up)
    decreases |a|
  {
    if a == [] {
      assert a + b == b;
    } else if c.status.Open? {
      assert (a + b)[1..] == a[1..] + b;
      ApplyAllConcat(Apply(c, a[0], up), a[1..], b, up);
    }
  }

  ghost predicate NetUp(up: nat -> bool) {
    forall k :: up(k)
  }

  /** The same fragment buffer and the same deliveries. */
  predicate SameMessages(c: Conn, c': Conn) {
    c'.status.Open? && c'.fragIn == c.fragIn && c'.frag == c.frag && Deliveries(c'.log) == Deliveries(c.log)
  }

  lemma ControlPasses(c: Conn, f: Frame, up: nat -> bool)
    requires c.status.Open? && NetUp(up) && IsControl(f)
    ensures SameMessages(c, Apply(c, f, up))
  {
    assert up(c.sent);
    LogGrows(c.log, Answered(Encode(Frame(true, PONG, f.payload))));
  }

  lemma {:induction false} ControlsPass(c: Conn, controls: seq<Frame>, up: nat -> bool)
    requires c.status.Open? && NetUp(up) && AllControl(controls)
    ensures SameMessages(c, ApplyAll(c, controls, up))
    decreases |controls|
  {
    if controls != [] {
      ControlPasses(c, controls[0], up);
      ControlsPass(Apply(c, controls[0], up), controls[1..], up);
    }
  }

  /** A continuation fragment inside a fragmented message. */
  lemma FragmentArrives(c: Conn, fin: bool, payload: seq<byte>, up: nat -> bool)
    requires c.status.Open? && NetUp(up) && c.fragIn && |c.frag| + |payload| <= LIMIT
    ensures var c' := Apply(c, Frame(fin, CONTINUATION, payload), up);
            && c'.status.Open? && c'.fragIn == !fin
            && c'.frag == (if fin then [] else c.frag + payload)
            && Deliveries(c'.log) == Deliveries(c.log) + if fin then [c.frag + payload] else []
  {
    assert up(c.sent);
    LogGrows(c.log, Delivered(c.frag + payload));
  }

  lemma PartFramesSplit(c: Conn, parts: seq<Part>, up: nat -> bool)
    requires parts != []
    ensures var f := Frame(|parts| == 1, CONTINUATION, parts[0].payload);
            ApplyAll(c, PartFrames(parts), up)
            == ApplyAll(ApplyAll(ApplyAll(c, parts[0].controls, up), [f], up), PartFrames(parts[1..]), up)
  {
    var f := Frame(|parts| == 1, CONTINUATION, parts[0].payload);
    ApplyAllConcat(c, parts[0].controls, [f], up);
    ApplyAllConcat(c, parts[0].controls + [f], PartFrames(parts[1..]), up);
  }

  lemma ApplyOne(c: Conn, f: Frame, up: nat -> bool)
    requires c.status.Open?
    ensures ApplyAll(c, [f], up) == Apply(c, f, up)
  {
    assert [f][1..] == [];
    assert ApplyAll(Apply(c, f, up), [], up) == Apply(c, f, up);
  }

  lemma {:induction false} PartsArrive(c: Conn, parts: seq<Part>, up: nat -> bool)
    requires c.status.Open? && NetUp(up) && c.fragIn && parts != []
    requires ControlsOnly(parts)
    requires |c.frag| + |Joined(parts)| <= LIMIT
    ensures var c' := ApplyAll(c, PartFrames(parts), up);
            && c'.status.Open? && !c'.fragIn && c'.frag == []
            && Deliveries(c'.log) == Deliveries(c.log) + [c.frag + Joined(parts)]
    decreases |parts|
  {
    var last := |parts| == 1;
    ControlsPass(c, parts[0].controls, up);
    var c1 := ApplyAll(c, parts[0].controls, up);
    FragmentArrives(c1, last, parts[0].payload, up);
    ApplyOne(c1, Frame(last, CONTINUATION, parts[0].payload), up);
    PartFramesSplit(c, parts, up);
    var c2 := Apply(c1, Frame(last, CONTINUATION, parts[0].payload), up);
    if last {
      assert Joined(parts) == parts[0].payload;
    } else {
      assert c.frag + Joined(parts) == (c.frag + parts[0].payload) + Joined(parts[1..]);
      PartsArrive(c2, parts[1..], up);
    }
  }

  /** A message is delivered whole, with any control frames between its fragments. */
  lemma MessageArrives(c: Conn, m: Message, up: nat -> bool)
    requires c.status.Open? && NetUp(up) && WellSent(m) && |Whole(m)| <= LIMIT && !c.fragIn && c.frag == []
    ensures var c' := ApplyAll(c, Frames(m), up);
            && c'.status.Open? && !c'.fragIn && c'.frag == []
            && Deliveries(c'.log) == Deliveries(c.log) + [Whole(m)]
  {
    var start := Frame(m.parts == [], m.opcode, m.first);
    var c1 := Apply(c, start, up);
    ApplyAllConcat(c, [start], PartFrames(m.parts), up);
    ApplyOne(c, start, up);
    if m.parts == [] {
      assert up(c.sent) && Whole(m) == m.first;
      LogGrows(c.log, Delivered(m.first));
    } else {
      PartsArrive(c1, m.parts, up);
    }
  }

  /** A message over the limit is not delivered: the connection is closed instead. */
  lemma {:induction false} PartsTooLong(c: Conn, parts: seq<Part>, up: nat -> bool)
    requires c.status.Open? && NetUp(up) && c.fragIn && |c.frag| <= LIMIT < |c.frag| + |Joined(parts)|
    requires ControlsOnly(parts)
    ensures var c' := ApplyAll(c, PartFrames(parts), up);
            c'.status == Closed(FragmentsTooLong) && Deliveries(c'.log) == Deliveries(c.log)
    decreases |parts|
  {
    var f := Frame(|parts| == 1, CONTINUATION, parts[0].payload);
    ControlsPass(c, parts[0].controls, up);
    var c1 := ApplyAll(c, parts[0].controls, up);
    ApplyOne(c1, f, up);
    PartFramesSplit(c, parts, up);
    if |c1.frag| + |f.payload| <= LIMIT {
      FragmentArrives(c1, f.fin, f.payload, up);
      PartsTooLong(Apply(c1, f, up), parts[1..], up);
    }
  }

  lemma MessageTooLong(c: Conn, m: Message, up: nat -> bool)
    requires c.status.Open? && NetUp(up) && WellSent(m) && m.parts != [] && |m.first| <= LIMIT < |Whole(m)|
    ensures var c' := ApplyAll(c, Frames(m), up);
            c'.status == Closed(FragmentsTooLong) && Deliveries(c'.log) == Deliveries(c.log)
  {
    var start := Frame(false, m.opcode, m.first);
    ApplyAllConcat(c, [start], PartFrames(m.parts), up);
    ApplyOne(c, start, up);
    PartsTooLong(Apply(c, start, up), m.parts, up);
  }

  lemma {:induction false} MessagesArrive(c: Conn, messages: seq<Message>, up: nat -> bool)
    requires c.status.Open? && NetUp(up) && !c.fragIn && c.frag == []
    requires Acceptable(messages)
    ensures var c' := ApplyAll(c, AllFrames(messages), up);
            c'.status.Open? && Deliveries(c'.log) == Deliveries(c.log) + Wholes(messages)
    decreases |messages|
  {
    if messages != [] {
      var c1 := ApplyAll(c, Frames(messages[0]), up);
      MessageArrives(c, messages[0], up);
      ApplyAllConcat(c, Frames(messages[0]), AllFrames(messages[1..]), up);
      var rest := messages[1..];
      MessagesArrive(c1, rest, up);
      assert Deliveries(c.log) + [Whole(messages[0])] + Wholes(rest) == Deliveries(c.log) + Wholes(messages);
    }
  }

  // ---- Byte by byte -----------------------------------------------------------

  /** A frame small enough for any chunking, and the key it is masked with. */
  datatype Wire = Wire(frame: Frame, key: seq<byte>)

  predicate Sendable(w: Wire) {
    |w.key| == 4 && w.frame.opcode < 16 && |w.frame.payload| + 14 <= LIMIT + 1
  }

  function WireBytes(wires: seq<Wire>): seq<byte>
    requires forall w :: w in wires ==> Sendable(w)
  {
    if wires == [] then []
    else assert wires[0] in wires && Sendable(wires[0]); EncodeMasked(wires[0].frame, wires[0].key) + WireBytes(wires[1..])
  }

  function FramesOf(wires: seq<Wire>): seq<Frame> {
    if wires == [] then [] else [wires[0].frame] + FramesOf(wires[1..])
  }

  lemma {:induction false} DrainWires(c: Conn, wires: seq<Wire>, up: nat -> bool)
    requires c.status.Open? && c.acc == []
    requires forall w :: w in wires ==> Sendable(w)
    ensures Drain(c, WireBytes(wires), up) == ApplyAll(c, FramesOf(wires), up)
    ensures Fits(c, WireBytes(wires), up)
    decreases |wires|
  {
    if wires == [] {
      assert Decode([]).Incomplete? && c.(acc := []) == c;
    } else {
      var w := wires[0];
      assert w in wires && Sendable(w);
      var bytes, rest := EncodeMasked(w.frame, w.key), WireBytes(wires[1..]);
      DecodeMasked(w.frame, w.key, rest);
      assert (bytes + rest)[|bytes|..] == rest;
      var c' := Apply(c, w.frame, up);
      ApplyKeepsAcc(c, w.frame, up);
      assert FramesOf(wires)[1..] == FramesOf(wires[1..]);
      if c'.status.Open? {
        DrainWires(c', wires[1..], up);
      } else {
        assert ApplyAll(c', FramesOf(wires[1..]), up) == c';
      }
    }
  }

  lemma {:induction false} ApplyAllKeepsAcc(c: Conn, frames: seq<Frame>, up: nat -> bool)
    requires c.acc == []
    ensures ApplyAll(c, frames, up).acc == []
    decreases |frames|
  {
    if frames != [] && c.status.Open? {
      ApplyKeepsAcc(c, frames[0], up);
      ApplyAllKeepsAcc(Apply(c, frames[0], up), frames[1..], up);
    }
  }

  /** However it is cut into receives, a stream of sendable frames is applied frame by frame. */
  lemma WiresArrive(wires: seq<Wire>, chunks: seq<seq<byte>>, up: nat -> bool)
    requires forall w :: w in wires ==> Sendable(w)
    requires Concat(chunks) == WireBytes(wires)
    ensures var c := ApplyAll(START, FramesOf(wires), up);
            FeedAll(START, chunks, up) == c && c.acc == []
  {
    var bytes := WireBytes(wires);
    assert START.acc + bytes == bytes && START.(acc := []) == START;
    DrainWires(START, wires, up);
    ChunksDoNotMatter(START, chunks, up);
    ApplyAllKeepsAcc(START, FramesOf(wires), up);
  }

  /** From bytes to messages: what a client sends as any mixture of whole and fragmented
      messages with control frames in between, masked with any keys and received in any
      chunks, is delivered message by message. */
  lemma ConversationIsDelivered(messages: seq<Message>, wires: seq<Wire>, chunks: seq<seq<byte>>, up: nat -> bool)
    requires NetUp(up)
    requires Acceptable(messages)
    requires forall w :: w in wires ==> Sendable(w)
    requires FramesOf(wires) == AllFrames(messages) && Concat(chunks) == WireBytes(wires)
    ensures var c := FeedAll(START, chunks, up);
            c.status.Open? && c.acc == [] && Deliveries(c.log) == Wholes(messages)
  {
    WiresArrive(wires, chunks, up);
    MessagesArrive(START, messages, up);
    assert Deliveries([]) + Wholes(messages) == Wholes(messages);
  }
}
