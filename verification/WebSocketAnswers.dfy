/**
 What a WebSocket peer gets back for its pings, and the example frames of section 5.7 of
 RFC 6455.
 */
module WebSocketAnswers {
  import opened Bytes
  import opened WebSocket
  import opened WebSocketTheorems
  import opened WebSocketMessages

  // ---- Pings and their answers ------------------------------------------------

  /** The payloads of the pings among the frames, in order. */
  function Pings(frames: seq<Frame>): seq<seq<byte>> {
    if frames == [] then []
    else (if frames[0].opcode == 9 then [frames[0].payload] else []) + Pings(frames[1..])
  }

  /** How section 5.5.3 asks to answer: a final frame of opcode 10 with the same payload. */
  function PongFrames(payloads: seq<seq<byte>>): seq<Frame> {
    if payloads == [] then [] else [Frame(true, 10, payloads[0])] + PongFrames(payloads[1..])
  }

  /** What a peer decodes from bytes: the complete frames, until there is none. */
  function ReadAll(bytes: seq<byte>): seq<Frame>
    decreases |bytes|
  {
    match Decode(bytes)
    case Complete(frame, size) => [frame] + ReadAll(bytes[size..])
    case _ => []
  }

  function Encodings(frames: seq<Frame>): seq<byte>
    requires Encodable(frames)
  {
    if frames == [] then [] else Encode(frames[0]) + Encodings(frames[1..])
  }

  predicate Encodable(frames: seq<Frame>) {
    frames == [] || (frames[0].opcode < 16 && |frames[0].payload| <= LIMIT && Encodable(frames[1..]))
  }

  lemma {:induction false} EncodingsRead(frames: seq<Frame>)
    requires Encodable(frames)
    ensures ReadAll(Encodings(frames)) == frames
  {
    if frames == [] {
      assert Decode([]).Incomplete?;
    } else {
      var first, rest := Encode(frames[0]), Encodings(frames[1..]);
      DecodeEncoded(frames[0], rest);
      EncodingsRead(frames[1..]);
      assert (first + rest)[|first|..] == rest;
    }
  }

  lemma {:induction false} PingsGrow(frames: seq<Frame>, f: Frame)
    ensures Pings(frames + [f]) == Pings(frames) + if f.opcode == 9 then [f.payload] else []
  {
    if frames == [] {
      assert frames + [f] == [f] && [f][1..] == [];
    } else {
      assert (frames + [f])[0] == frames[0] && (frames + [f])[1..] == frames[1..] + [f];
      PingsGrow(frames[1..], f);
    }
  }

  lemma {:induction false} PongFramesGrow(payloads: seq<seq<byte>>, p: seq<byte>)
    ensures PongFrames(payloads + [p]) == PongFrames(payloads) + [Frame(true, 10, p)]
  {
    if payloads == [] {
      assert payloads + [p] == [p] && [p][1..] == [];
    } else {
      assert (payloads + [p])[0] == payloads[0] && (payloads + [p])[1..] == payloads[1..] + [p];
      PongFramesGrow(payloads[1..], p);
    }
  }

  lemma {:induction false} EncodingsGrow(frames: seq<Frame>, f: Frame)
    requires Encodable(frames) && f.opcode < 16 && |f.payload| <= LIMIT
    ensures Encodable(frames + [f]) && Encodings(frames + [f]) == Encodings(frames) + Encode(f)
  {
    if frames == [] {
      assert frames + [f] == [f] && [f][1..] == [];
    } else {
      assert (frames + [f])[0] == frames[0] && (frames + [f])[1..] == frames[1..] + [f];
      EncodingsGrow(frames[1..], f);
    }
  }

  // ---- Every ping is answered -------------------------------------------------

  /** The bytes sent so far are the answers to the pings seen so far. */
  predicate IsAnswered(c: Conn) {
    var pongs := PongFrames(Pings(c.seen));
    Encodable(pongs) && Answers(c.log) == Encodings(pongs)
  }

  lemma ApplyAnswers(c: Conn, f: Frame, up: nat -> bool)
    requires NetUp(up) && IsAnswered(c) && |f.payload| <= LIMIT
    ensures IsAnswered(Apply(c, f, up))
  {
    var c' := Apply(c, f, up);
    assert up(c.sent) && c'.seen == c.seen + [f];
    PingsGrow(c.seen, f);
    if f.opcode == PING {
      var pong := Frame(true, 10, f.payload);
      PongFramesGrow(Pings(c.seen), f.payload);
      EncodingsGrow(PongFrames(Pings(c.seen)), pong);
      LogGrows(c.log, Answered(Encode(pong)));
    } else {
      OtherLogs(c, f, up);
      assert Pings(c.seen) + [] == Pings(c.seen);
    }
  }

  lemma OtherLogs(c: Conn, f: Frame, up: nat -> bool)
    requires f.opcode != PING
    ensures Answers(Apply(c, f, up).log) == Answers(c.log)
  {
    var message := if f.opcode == CONTINUATION then c.frag + f.payload else f.payload;
    LogsMessage(c, f, up, message);
    LogGrows(c.log, Delivered(message));
  }

  lemma LogsMessage(c: Conn, f: Frame, up: nat -> bool, message: seq<byte>)
    requires f.opcode != PING && message == if f.opcode == CONTINUATION then c.frag + f.payload else f.payload
    ensures var log := Apply(c, f, up).log; log == c.log || log == c.log + [Delivered(message)]
  {
  }

  lemma {:induction false} DrainAnswers(c: Conn, bytes: seq<byte>, up: nat -> bool)
    requires NetUp(up) && IsAnswered(c)
    ensures IsAnswered(Drain(c, bytes, up))
    decreases |bytes|
  {
    if Decode(bytes).Complete? {
      var Complete(frame, size) := Decode(bytes);
      LengthBound(bytes);
      ApplyAnswers(c, frame, up);
      if Apply(c, frame, up).status.Open? {
        DrainAnswers(Apply(c, frame, up), bytes[size..], up);
      }
    }
  }

  lemma {:induction false} FeedsAnswer(c: Conn, chunks: seq<seq<byte>>, up: nat -> bool)
    requires NetUp(up) && IsAnswered(c)
    ensures IsAnswered(FeedAll(c, chunks, up))
    decreases |chunks|
  {
    if chunks != [] {
      if c.status.Open? {
        DrainAnswers(c.(acc := []), c.acc + chunks[0], up);
      }
      FeedsAnswer(Feed(c, chunks[0], up), chunks[1..], up);
    }
  }

  /** Whatever a peer sends, and however it is cut: from the bytes it gets back for its pings it
      decodes one pong for each ping the server has seen, with its payload, in order. */
  lemma EveryPingIsAnswered(chunks: seq<seq<byte>>, up: nat -> bool)
    requires NetUp(up)
    ensures var c := FeedAll(START, chunks, up); ReadAll(Answers(c.log)) == PongFrames(Pings(c.seen))
  {
    FeedsAnswer(START, chunks, up);
    EncodingsRead(PongFrames(Pings(FeedAll(START, chunks, up).seen)));
  }

  lemma {:induction false} ApplyAllSees(c: Conn, frames: seq<Frame>, up: nat -> bool)
    ensures var c' := ApplyAll(c, frames, up); c'.status.Open? ==> c'.seen == c.seen + frames
    decreases |frames|
  {
    if frames != [] && c.status.Open? {
      var c1 := Apply(c, frames[0], up);
      assert c1.seen == c.seen + [frames[0]];
      ApplyAllSees(c1, frames[1..], up);
      assert c.seen + [frames[0]] + frames[1..] == c.seen + frames;
    }
  }

  /** In a conversation of whole and fragmented messages, every ping between them is answered. */
  lemma ConversationIsAnswered(messages: seq<Message>, wires: seq<Wire>, chunks: seq<seq<byte>>, up: nat -> bool)
    requires NetUp(up)
    requires Acceptable(messages)
    requires forall w :: w in wires ==> Sendable(w)
    requires FramesOf(wires) == AllFrames(messages) && Concat(chunks) == WireBytes(wires)
    ensures ReadAll(Answers(FeedAll(START, chunks, up).log)) == PongFrames(Pings(AllFrames(messages)))
  {
    ConversationIsDelivered(messages, wires, chunks, up);
    WiresArrive(wires, chunks, up);
    ApplyAllSees(START, FramesOf(wires), up);
    assert [] + FramesOf(wires) == FramesOf(wires);
    EveryPingIsAnswered(chunks, up);
  }

  // ---- Sends that fail, frames that end the connection ------------------------

  /** The connection has been closed for a failed send exactly when the last attempt failed, and
      none before it did. */
  ghost predicate SendsOk(c: Conn, up: nat -> bool) {
    && (forall k :: 0 <= k < c.sent - 1 ==> up(k))
    && (c.status == Closed(SendFailed) <==> c.sent > 0 && !up(c.sent - 1))
  }

  lemma {:induction false} DrainSends(c: Conn, bytes: seq<byte>, up: nat -> bool)
    requires c.status.Open? && SendsOk(c, up)
    ensures SendsOk(Drain(c, bytes, up), up)
    decreases |bytes|
  {
    if Decode(bytes).Complete? {
      var Complete(frame, size) := Decode(bytes);
      var c' := Apply(c, frame, up);
      ApplySends(c, frame, up);
      if c'.status.Open? {
        DrainSends(c', bytes[size..], up);
      }
    }
  }

  lemma ApplySends(c: Conn, f: Frame, up: nat -> bool)
    requires c.status.Open? && SendsOk(c, up)
    ensures SendsOk(Apply(c, f, up), up)
  {
    assert c.sent > 0 ==> up(c.sent - 1);
  }

  /** A send that fails is the last: the connection is closed for it at once, and for no other
      reason than a failed send is it closed so. */
  lemma {:induction false} FailedSendEnds(c: Conn, chunks: seq<seq<byte>>, up: nat -> bool)
    requires SendsOk(c, up)
    ensures SendsOk(FeedAll(c, chunks, up), up) && SendsOk(End(FeedAll(c, chunks, up)), up)
    decreases |chunks|
  {
    if chunks != [] {
      if c.status.Open? {
        DrainSends(c.(acc := []), c.acc + chunks[0], up);
      }
      FailedSendEnds(Feed(c, chunks[0], up), chunks[1..], up);
    }
  }

  /** Opcode 8 ends the connection and nothing else of the frame matters; pongs and the opcodes
      that RFC 6455 reserves are passed over. */
  lemma OtherOpcodes(c: Conn, f: Frame, up: nat -> bool)
    requires c.status.Open?
    ensures f.opcode == 8 ==> Apply(c, f, up) == c.(status := Closed(Peer), registered := false, acc := [], seen := c.seen + [f])
    ensures 3 <= f.opcode <= 7 || f.opcode >= 10 ==> Apply(c, f, up) == c.(seen := c.seen + [f])
  {
  }

  // ---- The examples of the standard -------------------------------------------

  /** The text "Hello" of the examples. */
  const HELLO: seq<byte> := [0x48, 0x65, 0x6c, 0x6c, 0x6f]

  /** A single unmasked text frame, an unmasked ping, and its answer masked. */
  lemma UnmaskedExamples()
    ensures Encode(Frame(true, TEXT, HELLO)) == [0x81, 0x05, 0x48, 0x65, 0x6c, 0x6c, 0x6f]
    ensures Encode(Frame(true, PING, HELLO)) == [0x89, 0x05, 0x48, 0x65, 0x6c, 0x6c, 0x6f]
    ensures Encode(Frame(true, PONG, HELLO)) == [0x8a, 0x05, 0x48, 0x65, 0x6c, 0x6c, 0x6f]
    ensures Encode(Frame(false, TEXT, HELLO[..3])) == [0x01, 0x03, 0x48, 0x65, 0x6c]
    ensures Encode(Frame(true, CONTINUATION, HELLO[3..])) == [0x80, 0x02, 0x6c, 0x6f]
  {
  }

  /** Section 5.3: octet i of the payload is masked with octet i modulo 4 of the key. */
  lemma {:induction false} MaskedAt(payload: seq<byte>, key: seq<byte>, i: nat)
    requires |key| == 4 && i < |payload|
    ensures Unmask(payload, key)[i] == XorByte(payload[i], key[i % 4])
    decreases |payload|
  {
    var last := |payload| - 1;
    if i < last {
      MaskedAt(payload[..last], key, i);
    }
  }

  /** A single masked text frame of less than 126 bytes: two bytes, the key, the masked text. */
  lemma MaskedFrameRead(masked: seq<byte>, key: seq<byte>, text: seq<byte>)
    requires |key| == 4 && |text| == |masked| < 126
    requires forall i :: 0 <= i < |text| ==> text[i] == XorByte(masked[i], key[i % 4])
    ensures Decode([0x81, 0x80 + |masked|] + key + masked) == Complete(Frame(true, TEXT, text), 6 + |masked|)
  {
    var bytes := [0x81, 0x80 + |masked|] + key + masked;
    forall i | 0 <= i < |text| ensures text[i] == Unmask(masked, key)[i] {
      MaskedAt(masked, key, i);
    }
    assert text == Unmask(masked, key);
    UnmaskTwice(masked, key);
    DecodeMasked(Frame(true, TEXT, text), key, []);
    assert EncodeMasked(Frame(true, TEXT, text), key) + [] == bytes;
  }

  /** A frame may announce 5 MiB and no byte more, in the field of eight bytes. */
  lemma AnnouncedLength(first: byte, n: nat)
    requires n < Pow256(8)
    ensures Decode([first, 127] + BigEndian(n, 8)).TooLong? <==> n > 5_242_880
  {
    var bytes := [first, 127] + BigEndian(n, 8);
    assert bytes[1] == 127 && bytes[2..10] == BigEndian(n, 8);
    BigEndianRoundTrip(n, 8);
    assert ReadLength(bytes) == Length(n, 10);
  }

  /** The longer forms of the length: 256 bytes and 64 KiB of binary data. */
  lemma LongExamples(payload: seq<byte>)
    ensures |payload| == 256 ==> Encode(Frame(true, BINARY, payload)) == [0x82, 0x7e, 0x01, 0x00] + payload
    ensures |payload| == 65536 ==>
              Encode(Frame(true, BINARY, payload)) == [0x82, 0x7f, 0, 0, 0, 0, 0, 1, 0, 0] + payload
  {
  }
}
