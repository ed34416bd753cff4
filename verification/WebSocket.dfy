/**
 The WebSocket connection of `handle_ws` (`src/server/server.cpp`): frames as section 5.2 of
 RFC 6455 lays them out, an incremental decoder over an accumulator, reassembly of fragments
 (section 5.4), and the limits that close a connection.

 `up(k)` says whether the k-th attempt to send something succeeds. What the hub replies to a
 message is sent by the same flush; its content is not part of this model.
 */
module WebSocket {
  import opened Bytes

  const LIMIT: nat := 5 * 1024 * 1024

  const CONTINUATION: byte := 0
  const TEXT: byte := 1
  const BINARY: byte := 2
  const CLOSE: byte := 8
  const PING: byte := 9
  const PONG: byte := 10

  datatype Frame = Frame(fin: bool, opcode: byte, payload: seq<byte>)

  datatype Decoded = Incomplete | TooLong | Complete(frame: Frame, size: nat)

  // ---- One frame --------------------------------------------------------------

  /** The length field and where it ends. */
  datatype Length = Short | Length(len: nat, off: nat)

  function ReadLength(bytes: seq<byte>): (r: Length)
    requires |bytes| >= 2
    ensures r.Length? ==> 2 <= r.off <= |bytes|
  {
    var len := bytes[1] % 128;
    if len == 126 then (if |bytes| < 4 then Short else Length(FromBig(bytes[2..4]), 4))
    else if len == 127 then (if |bytes| < 10 then Short else Length(FromBig(bytes[2..10]), 10))
    else Length(len, 2)
  }

  function Unmask(payload: seq<byte>, key: seq<byte>): (r: seq<byte>)
    requires |key| == 4
    ensures |r| == |payload|
  {
    if payload == [] then []
    else
      var last := |payload| - 1;
      Unmask(payload[..last], key) + [XorByte(payload[last], key[last % 4])]
  }

  function MakeFrame(first: byte, payload: seq<byte>, key: seq<byte>): Frame {
    Frame(first >= 128, first % 16, if |key| == 4 then Unmask(payload, key) else payload)
  }

  /** The frame, once its length and the end of the length field are known. */
  function DecodeBody(bytes: seq<byte>, len: nat, off: nat): (r: Decoded)
    requires 2 <= off <= |bytes|
    ensures r.Complete? ==> 2 <= r.size <= |bytes|
  {
    if bytes[1] < 128 then
      (if |bytes| < off + len then Incomplete
       else Complete(MakeFrame(bytes[0], bytes[off..off + len], []), off + len))
    else
      (if |bytes| < off + 4 + len then Incomplete
       else Complete(MakeFrame(bytes[0], bytes[off + 4..off + 4 + len], bytes[off..off + 4]), off + 4 + len))
  }

  /** Decodes the frame at the start of the bytes. Only the 64-bit length is limited: the
      other two forms cannot exceed the limit. */
  function Decode(bytes: seq<byte>): (r: Decoded)
    ensures r.Complete? ==> 2 <= r.size <= |bytes|
  {
    if |bytes| < 2 then Incomplete else
    match ReadLength(bytes)
    case Short => Incomplete
    case Length(len, off) =>
      if off == 10 && len > LIMIT then TooLong else DecodeBody(bytes, len, off)
  }

  // ---- What a frame does ------------------------------------------------------

  datatype Reason = Peer | SendFailed | FrameTooLong | FragmentsTooLong | StartTooLong | BufferFull | EndOfStream

  datatype Status = Open | Closed(reason: Reason)

  datatype Event = Delivered(message: seq<byte>) | Answered(bytes: seq<byte>)

  /** `seen` records the frames decoded so far, `log` what was handed to the hub and the
      bytes sent in answer to pings, `sent` how many sends were attempted, `registered` whether the hub still has
      the client. */
  datatype Conn = Conn(status: Status, registered: bool, acc: seq<byte>, fragIn: bool, frag: seq<byte>,
                       seen: seq<Frame>, log: seq<Event>, sent: nat)

  const START := Conn(Open, true, [], false, [], [], [], 0)

  /** The server leaves the loop. After these the hub still has the client. */
  function CloseOnly(c: Conn, reason: Reason): Conn {
    c.(status := Closed(reason), acc := [])
  }

  function Unregister(c: Conn, reason: Reason): Conn {
    CloseOnly(c, reason).(registered := false)
  }

  function AfterSend(c: Conn, up: nat -> bool): Conn {
    var c' := c.(sent := c.sent + 1);
    if up(c.sent) then c' else Unregister(c', SendFailed)
  }

  function Deliver(c: Conn, message: seq<byte>, up: nat -> bool): Conn {
    AfterSend(c.(log := c.log + [Delivered(message)]), up)
  }

  function Apply(c: Conn, f: Frame, up: nat -> bool): Conn {
    var c := c.(seen := c.seen + [f]);
    if f.opcode == CLOSE then Unregister(c, Peer)
    else if f.opcode == PING then
      (if up(c.sent) then c.(log := c.log + [Answered(Encode(Frame(true, PONG, f.payload)))], sent := c.sent + 1)
       else Unregister(c.(sent := c.sent + 1), SendFailed))
    else if f.opcode == CONTINUATION then
      if !c.fragIn then c
      else if |c.frag| + |f.payload| > LIMIT then CloseOnly(c, FragmentsTooLong)
      else if f.fin then Deliver(c.(fragIn := false, frag := []), c.frag + f.payload, up)
      else c.(frag := c.frag + f.payload)
    else if f.opcode == TEXT || f.opcode == BINARY then
      if f.fin then Deliver(c, f.payload, up)
      else if |f.payload| > LIMIT then CloseOnly(c.(fragIn := true, frag := f.payload), StartTooLong)
      else c.(fragIn := true, frag := f.payload)
    else c
  }

  // ---- The receive loop -------------------------------------------------------

  /** Handles all complete frames of the bytes and keeps the rest. */
  function Drain(c: Conn, bytes: seq<byte>, up: nat -> bool): Conn
    decreases |bytes|
  {
    match Decode(bytes)
    case Incomplete => c.(acc := bytes)
    case TooLong => CloseOnly(c, FrameTooLong)
    case Complete(frame, size) =>
      var c' := Apply(c, frame, up);
      if c'.status.Open? then Drain(c', bytes[size..], up) else c'
  }

  function CheckBuffer(c: Conn): Conn {
    if c.status.Open? && |c.acc| > LIMIT then Unregister(c, BufferFull) else c
  }

  /** One successful receive. */
  function Feed(c: Conn, chunk: seq<byte>, up: nat -> bool): Conn {
    if c.status.Open? then CheckBuffer(Drain(c.(acc := []), c.acc + chunk, up)) else c
  }

  function FeedAll(c: Conn, chunks: seq<seq<byte>>, up: nat -> bool): Conn
    decreases |chunks|
  {
    if chunks == [] then c else FeedAll(Feed(c, chunks[0], up), chunks[1..], up)
  }

  /** The peer is gone. */
  function End(c: Conn): Conn {
    if c.status.Open? then Unregister(c, EndOfStream) else c
  }

  // ---- Encoding ---------------------------------------------------------------

  /** First two bytes and extended length, in the shortest of the three forms. */
  function Head(first: byte, maskBit: byte, len: nat): seq<byte>
    requires maskBit == 0 || maskBit == 128
  {
    if len < 126 then [first, maskBit + len]
    else if len < 65536 then [first, maskBit + 126] + BigEndian(len, 2)
    else [first, maskBit + 127] + BigEndian(len, 8)
  }

  function First(fin: bool, opcode: byte): byte
    requires opcode < 16
  {
    if fin then 128 + opcode else opcode
  }

  /** A frame as the server sends it. */
  function Encode(f: Frame): seq<byte>
    requires f.opcode < 16
  {
    Head(First(f.fin, f.opcode), 0, |f.payload|) + f.payload
  }

  /** A frame as a client sends it. */
  function EncodeMasked(f: Frame, key: seq<byte>): seq<byte>
    requires f.opcode < 16 && |key| == 4
  {
    Head(First(f.fin, f.opcode), 128, |f.payload|) + key + Unmask(f.payload, key)
  }
}
