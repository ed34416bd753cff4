/**
 The receive loop of `handle_ws` (`src/server/server.cpp`) on mutable state: an accumulator
 with a cursor, byte-by-byte lengths and masks, and frames built by pushing bytes. It does
 what the specification in `WebSocket` says.
 */
module WebSocketServer {
  import opened Bytes
  import opened WebSocket

  /** n shifted right by k bytes. */
  function Shift(n: nat, k: nat): nat {
    if k == 0 then n else Shift(n, k - 1) / 256
  }

  lemma LastByteFirst(bytes: seq<byte>, x: byte)
    ensures FromBig(bytes + [x]) == 256 * FromBig(bytes) + x
  {
    assert (bytes + [x])[..|bytes|] == bytes;
  }

  /** `len = (len << 8) | byte` over some bytes of the buffer. */
  method ReadBigEndian(acc: seq<byte>, off: nat, count: nat) returns (len: nat)
    requires off + count <= |acc|
    ensures len == FromBig(acc[off..off + count])
  {
    len := 0;
    for i := 0 to count
      invariant len == FromBig(acc[off..off + i])
    {
      LastByteFirst(acc[off..off + i], acc[off + i]);
      assert acc[off..off + i + 1] == acc[off..off + i] + [acc[off + i]];
      len := 256 * len + acc[off + i];
    }
  }

  /** `for (i = 7; i >= 0; --i)` over the bytes of a number. */
  method WriteBigEndian(frame: seq<byte>, n: nat, count: nat) returns (longer: seq<byte>)
    ensures longer == frame + BigEndian(n, count)
  {
    longer := frame;
    var i := count;
    while i > 0
      invariant 0 <= i <= count
      invariant longer + Tail(n, count, i) == frame + BigEndian(n, count)
    {
      i := i - 1;
      TailStep(n, count, i);
      longer := longer + [Shift(n, i) % 256];
    }
    assert longer + Tail(n, count, 0) == longer;
  }

  /** The last `i` of the `count` bytes of n. */
  function Tail(n: nat, count: nat, i: nat): seq<byte>
    requires i <= count
  {
    BigEndian(n, count)[count - i..]
  }

  lemma TailStep(n: nat, count: nat, i: nat)
    requires i < count
    ensures Tail(n, count, i + 1) == [Shift(n, i) % 256] + Tail(n, count, i)
  {
    ByteOf(n, count, i);
  }

  lemma {:induction false} ByteOf(n: nat, count: nat, i: nat)
    requires i < count
    ensures BigEndian(n, count)[count - 1 - i] == Shift(n, i) % 256
  {
    if i > 0 {
      ByteOf(n / 256, count - 1, i - 1);
      ShiftInside(n, i - 1);
    }
  }

  lemma {:induction false} ShiftInside(n: nat, k: nat)
    ensures Shift(n / 256, k) == Shift(n, k + 1)
  {
    if k > 0 {
      ShiftInside(n, k - 1);
    }
  }

  /** Builds a frame as the flush of the send queue and the reply to a ping do. */
  method BuildFrame(opcode: byte, payload: seq<byte>) returns (frame: seq<byte>)
    requires opcode < 16
    ensures frame == Encode(Frame(true, opcode, payload))
  {
    frame := [128 + opcode];
    var size := |payload|;
    if size < 126 {
      frame := frame + [size];
    } else if size < 65536 {
      frame := frame + [126];
      frame := frame + [size / 256];
      frame := frame + [size % 256];
      assert BigEndian(size, 2) == BigEndian(size / 256, 1) + [size % 256];
      assert BigEndian(size / 256, 1) == BigEndian(size / 256 / 256, 0) + [size / 256 % 256];
      assert size / 256 < 256;
    } else {
      frame := frame + [127];
      frame := WriteBigEndian(frame, size, 8);
    }
    frame := frame + payload;
  }

  method UnmaskPayload(acc: seq<byte>, off: nat, len: nat, key: seq<byte>) returns (payload: seq<byte>)
    requires off + len <= |acc| && |key| == 4
    ensures payload == Unmask(acc[off..off + len], key)
  {
    payload := [];
    for i := 0 to len
      invariant payload == Unmask(acc[off..off + i], key)
    {
      assert acc[off..off + i + 1][..i] == acc[off..off + i];
      payload := payload + [XorByte(acc[off + i], key[i % 4])];
    }
  }

  /** Reads the length of the frame at the cursor. */
  method ReadLengthAt(acc: seq<byte>, cursor: nat) returns (r: Length)
    requires cursor + 2 <= |acc|
    ensures r == ReadLength(acc[cursor..])
  {
    ghost var rest := acc[cursor..];
    var len: nat := acc[cursor + 1] % 128;
    var off := cursor + 2;
    if len == 126 {
      if |acc| - cursor < 4 {
        return Short;
      }
      len := ReadBigEndian(acc, off, 2);
      assert acc[off..off + 2] == rest[2..4];
      off := off + 2;
    } else if len == 127 {
      if |acc| - cursor < 10 {
        return Short;
      }
      len := ReadBigEndian(acc, off, 8);
      assert acc[off..off + 8] == rest[2..10];
      off := off + 8;
    }
    r := Length(len, off - cursor);
  }

  /** Reads the frame at the cursor. */
  method ReadFrame(acc: seq<byte>, cursor: nat) returns (r: Decoded)
    requires cursor <= |acc|
    ensures r == Decode(acc[cursor..])
  {
    if |acc| - cursor < 2 {
      return Incomplete;
    }
    var length := ReadLengthAt(acc, cursor);
    match length
    case Short => return Incomplete;
    case Length(len, off) =>
      if off == 10 && len > LIMIT {
        return TooLong;
      }
      BodyAt(acc, cursor, len, cursor + off);
      r := ReadBody(acc, cursor, len, cursor + off);
  }

  method ReadBody(acc: seq<byte>, cursor: nat, len: nat, off: nat) returns (r: Decoded)
    requires cursor + 2 <= off <= |acc|
    ensures r == BodyIn(acc, cursor, len, off)
  {
    var start, key := off, [];
    var masked := acc[cursor + 1] >= 128;
    if masked {
      if |acc| < off + 4 {
        return Incomplete;
      }
      key := acc[off..off + 4];
      start := off + 4;
    }
    if |acc| < start + len {
      return Incomplete;
    }
    var payload := acc[start..start + len];
    if masked {
      payload := UnmaskPayload(acc, start, len, key);
    }
    r := Complete(Frame(acc[cursor] >= 128, acc[cursor] % 16, payload), start + len - cursor);
  }

  /** `DecodeBody` with positions in the whole buffer. */
  function BodyIn(acc: seq<byte>, cursor: nat, len: nat, off: nat): Decoded
    requires cursor + 2 <= off <= |acc|
  {
    if acc[cursor + 1] < 128 then
      (if |acc| < off + len then Incomplete
       else Complete(MakeFrame(acc[cursor], acc[off..off + len], []), off + len - cursor))
    else
      (if |acc| < off + 4 + len then Incomplete
       else Complete(MakeFrame(acc[cursor], acc[off + 4..off + 4 + len], acc[off..off + 4]), off + 4 + len - cursor))
  }

  lemma Slices(acc: seq<byte>, cursor: nat, i: nat, j: nat)
    requires cursor <= i <= j <= |acc|
    ensures acc[i..j] == acc[cursor..][i - cursor..j - cursor]
  {
  }

  lemma BodyAt(acc: seq<byte>, cursor: nat, len: nat, off: nat)
    requires cursor + 2 <= off <= |acc|
    ensures DecodeBody(acc[cursor..], len, off - cursor) == BodyIn(acc, cursor, len, off)
  {
    if acc[cursor + 1] < 128 {
      PlainBodyAt(acc, cursor, len, off);
    } else {
      MaskedBodyAt(acc, cursor, len, off);
    }
  }

  lemma PlainBodyAt(acc: seq<byte>, cursor: nat, len: nat, off: nat)
    requires cursor + 2 <= off <= |acc| && acc[cursor + 1] < 128
    ensures DecodeBody(acc[cursor..], len, off - cursor) == BodyIn(acc, cursor, len, off)
  {
    if off + len <= |acc| {
      Slices(acc, cursor, off, off + len);
    }
  }

  lemma MaskedBodyAt(acc: seq<byte>, cursor: nat, len: nat, off: nat)
    requires cursor + 2 <= off <= |acc| && acc[cursor + 1] >= 128
    ensures DecodeBody(acc[cursor..], len, off - cursor) == BodyIn(acc, cursor, len, off)
  {
    if off + 4 + len <= |acc| {
      Slices(acc, cursor, off, off + 4);
      Slices(acc, cursor, off + 4, off + 4 + len);
    }
  }

  /** Draining from a complete frame on. */
  lemma DrainComplete(c: Conn, bytes: seq<byte>, cursor: nat, frame: Frame, size: nat, up: nat -> bool)
    requires cursor <= |bytes| && Decode(bytes[cursor..]) == Complete(frame, size)
    ensures cursor + size <= |bytes|
    ensures var c' := Apply(c, frame, up);
            Drain(c, bytes[cursor..], up) == if c'.status.Open? then Drain(c', bytes[cursor + size..], up) else c'
  {
    assert bytes[cursor..][size..] == bytes[cursor + size..];
  }

  /** `sent` counts the attempts to send; `up` answers for the network. */
  class Connection {
    var status: Status
    var registered: bool
    var acc: seq<byte>
    var fragIn: bool
    var frag: seq<byte>
    var sent: nat
    ghost var seen: seq<Frame>
    ghost var log: seq<Event>

    ghost function State(): Conn
      reads this
    {
      Conn(status, registered, acc, fragIn, frag, seen, log, sent)
    }

    constructor ()
      ensures State() == START
    {
      status, registered, acc, fragIn, frag, sent := Open, true, [], false, [], 0;
      seen, log := [], [];
    }

    /** Every way out of the loop; three of them leave the client in the hub. */
    method Leave(reason: Reason, unregister: bool)
      modifies this
      ensures State() == if unregister then Unregister(old(State()), reason) else CloseOnly(old(State()), reason)
    {
      acc := [];
      if unregister {
        registered := false;
      }
      status := Closed(reason);
    }

    method Send(up: nat -> bool) returns (ok: bool)
      modifies this`sent
      ensures ok == up(old(sent)) && sent == old(sent) + 1
    {
      ok := up(sent);
      sent := sent + 1;
    }

    /** Hands a message to the hub and sends what is queued for the client. */
    method HandleMessage(message: seq<byte>, up: nat -> bool)
      modifies this
      ensures State() == Deliver(old(State()), message, up)
    {
      log := log + [Delivered(message)];
      var ok := Send(up);
      if !ok {
        Leave(SendFailed, true);
      }
    }

    method AnswerPing(payload: seq<byte>, up: nat -> bool)
      modifies this
      ensures var c := old(State());
              State() == if up(c.sent) then c.(log := c.log + [Answered(Encode(Frame(true, PONG, payload)))], sent := c.sent + 1)
                         else Unregister(c.(sent := c.sent + 1), SendFailed)
    {
      var pong := BuildFrame(PONG, payload);
      var ok := Send(up);
      if ok {
        log := log + [Answered(pong)];
      } else {
        Leave(SendFailed, true);
      }
    }

    method Continue(fin: bool, payload: seq<byte>, up: nat -> bool)
      requires fragIn
      modifies this
      ensures var c := old(State());
              State() == if |c.frag| + |payload| > LIMIT then CloseOnly(c, FragmentsTooLong)
                         else if fin then Deliver(c.(fragIn := false, frag := []), c.frag + payload, up)
                         else c.(frag := c.frag + payload)
    {
      if |frag| + |payload| > LIMIT {
        Leave(FragmentsTooLong, false);
        return;
      }
      frag := frag + payload;
      if fin {
        var complete := frag;
        frag, fragIn := [], false;
        HandleMessage(complete, up);
      }
    }

    method HandleFrame(f: Frame, up: nat -> bool)
      modifies this
      ensures State() == Apply(old(State()), f, up)
    {
      seen := seen + [f];
      if f.opcode == CLOSE {
        Leave(Peer, true);
      } else if f.opcode == PING {
        AnswerPing(f.payload, up);
      } else if f.opcode == CONTINUATION {
        if fragIn {
          Continue(f.fin, f.payload, up);
        }
      } else if f.opcode == TEXT || f.opcode == BINARY {
        if f.fin {
          HandleMessage(f.payload, up);
        } else {
          fragIn, frag := true, f.payload;
          if |frag| > LIMIT {
            Leave(StartTooLong, false);
          }
        }
      }
    }

    /** One turn of the receive loop. */
    method Receive(chunk: seq<byte>, up: nat -> bool)
      requires status.Open?
      modifies this
      ensures State() == Feed(old(State()), chunk, up)
    {
      var bytes := acc + chunk;
      var cursor := DrainFrames(bytes, up);
      if status.Open? {
        acc := bytes[cursor..];
        if |acc| > LIMIT {
          Leave(BufferFull, true);
        }
      }
    }

    /** The inner loop: handles frames until one is incomplete or the connection closes. */
    method DrainFrames(bytes: seq<byte>, up: nat -> bool) returns (cursor: nat)
      requires status.Open?
      modifies this
      ensures cursor <= |bytes|
      ensures Drain(old(State()).(acc := []), bytes, up)
              == if status.Open? then State().(acc := bytes[cursor..]) else State()
    {
      ghost var d := Drain(State().(acc := []), bytes, up);
      cursor := 0;
      acc := [];
      assert bytes[0..] == bytes;
      var go := true;
      while go
        invariant cursor <= |bytes| && acc == []
        invariant go ==> status.Open? && Drain(State(), bytes[cursor..], up) == d
        invariant !go ==> d == if status.Open? then State().(acc := bytes[cursor..]) else State()
        decreases |bytes| - cursor, go
      {
        go, cursor := DrainOne(bytes, cursor, up);
      }
    }

    /** Handles the frame at the cursor, if it is complete. */
    method DrainOne(bytes: seq<byte>, cursor: nat, up: nat -> bool) returns (go: bool, next: nat)
      requires cursor <= |bytes| && status.Open? && acc == []
      modifies this
      ensures acc == [] && cursor <= next <= |bytes|
      ensures go ==> cursor < next && status.Open?
      ensures Drain(old(State()), bytes[cursor..], up)
              == if go then Drain(State(), bytes[next..], up)
                 else if status.Open? then State().(acc := bytes[next..]) else State()
    {
      var r := ReadFrame(bytes, cursor);
      go, next := false, cursor;
      match r
      case Incomplete =>
        assert Drain(State(), bytes[cursor..], up) == State().(acc := bytes[cursor..]);
      case TooLong =>
        assert Drain(State(), bytes[cursor..], up) == CloseOnly(State(), FrameTooLong);
        Leave(FrameTooLong, false);
      case Complete(frame, size) =>
        next := cursor + size;
        go := HandleComplete(bytes, cursor, frame, size, up);
    }

    method HandleComplete(ghost bytes: seq<byte>, ghost cursor: nat, frame: Frame, ghost size: nat, up: nat -> bool)
      returns (go: bool)
      requires cursor <= |bytes| && status.Open? && acc == [] && Decode(bytes[cursor..]) == Complete(frame, size)
      modifies this
      ensures acc == [] && cursor + size <= |bytes| && go == status.Open?
      ensures Drain(old(State()), bytes[cursor..], up) == if go then Drain(State(), bytes[cursor + size..], up) else State()
    {
      DrainComplete(State(), bytes, cursor, frame, size, up);
      HandleFrame(frame, up);
      go := status.Open?;
    }

    /** A receive that brings nothing: the peer is gone. */
    method PeerGone()
      requires status.Open?
      modifies this
      ensures State() == End(old(State()))
    {
      Leave(EndOfStream, true);
    }
  }
}
