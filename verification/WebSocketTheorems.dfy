/**
 What holds of every WebSocket connection, however the network cuts the bytes it receives.
 */
module WebSocketTheorems {
  import opened Bytes
  import opened WebSocket

  // ---- Decoding prefixes ------------------------------------------------------

  lemma BodyPrefix(a: seq<byte>, b: seq<byte>, len: nat, off: nat)
    requires 2 <= off <= |a| && DecodeBody(a, len, off).Complete?
    ensures DecodeBody(a + b, len, off) == DecodeBody(a, len, off)
  {
    var w := a + b;
    assert w[0] == a[0] && w[1] == a[1];
    if a[1] < 128 {
      var payload := a[off..off + len];
      assert w[off..off + len] == payload;
      assert DecodeBody(w, len, off) == Complete(MakeFrame(a[0], payload, []), off + len);
    } else {
      var payload, key := a[off + 4..off + 4 + len], a[off..off + 4];
      assert w[off + 4..off + 4 + len] == payload;
      assert w[off..off + 4] == key;
      assert DecodeBody(w, len, off) == Complete(MakeFrame(a[0], payload, key), off + 4 + len);
    }
  }

  /** A decision taken on a prefix stands. */
  lemma DecodePrefix(a: seq<byte>, b: seq<byte>)
    requires !Decode(a).Incomplete?
    ensures Decode(a + b) == Decode(a)
  {
    LengthPrefix(a, b);
    var Length(len, off) := ReadLength(a);
    if !(off == 10 && len > LIMIT) {
      BodyPrefix(a, b, len, off);
    }
  }

  lemma LengthPrefix(a: seq<byte>, b: seq<byte>)
    requires |a| >= 2 && ReadLength(a).Length?
    ensures ReadLength(a + b) == ReadLength(a)
  {
    var w := a + b;
    if |a| >= 4 { assert w[2..4] == a[2..4]; }
    if |a| >= 10 { assert w[2..10] == a[2..10]; }
  }

  /** A frame is complete exactly when all its bytes are there. */
  lemma DecodeCut(w: seq<byte>, m: nat)
    requires Decode(w).Complete? && m <= |w|
    ensures Decode(w[..m]) == if m < Decode(w).size then Incomplete else Decode(w)
  {
    var a := w[..m];
    assert w == a + w[m..];
    if !Decode(a).Incomplete? {
      DecodePrefix(a, w[m..]);
    } else if m >= Decode(w).size {
      EnoughBytes(w, m);
    }
  }

  lemma EnoughBytes(w: seq<byte>, m: nat)
    requires Decode(w).Complete? && Decode(w).size <= m <= |w|
    ensures Decode(w[..m]).Complete?
  {
    var a := w[..m];
    assert w == a + w[m..];
    if ReadLength(a).Length? { LengthPrefix(a, w[m..]); }
  }

  /** The limit on the 64-bit length is checked as soon as its bytes are there. */
  lemma TooLongIsSeen(a: seq<byte>, b: seq<byte>)
    requires Decode(a + b).TooLong? && |a| >= 10
    ensures Decode(a).TooLong?
  {
    LengthPrefix(a, b);
  }

  // ---- Draining in two steps --------------------------------------------------

  lemma ApplyKeepsAcc(c: Conn, f: Frame, up: nat -> bool)
    requires c.acc == []
    ensures Apply(c, f, up).acc == []
  {
  }

  lemma {:induction false} DrainSplit(c: Conn, a: seq<byte>, b: seq<byte>, up: nat -> bool)
    requires c.status.Open? && c.acc == []
    ensures var d := Drain(c, a, up);
            Drain(c, a + b, up) == if d.status.Open? then Drain(d.(acc := []), d.acc + b, up) else d
    decreases |a|
  {
    match Decode(a)
    case Incomplete => assert c.(acc := a).(acc := []) == c;
    case TooLong => DecodePrefix(a, b);
    case Complete(frame, size) =>
      DecodePrefix(a, b);
      var c' := Apply(c, frame, up);
      ApplyKeepsAcc(c, frame, up);
      if c'.status.Open? {
        assert (a + b)[size..] == a[size..] + b;
        DrainSplit(c', a[size..], b, up);
      }
  }

  lemma {:induction false} DrainLeaves(c: Conn, bytes: seq<byte>, up: nat -> bool)
    requires c.status.Open? && c.acc == []
    ensures var d := Drain(c, bytes, up); if d.status.Open? then Decode(d.acc).Incomplete? else d.acc == []
    decreases |bytes|
  {
    if Decode(bytes).Complete? {
      var c' := Apply(c, Decode(bytes).frame, up);
      ApplyKeepsAcc(c, Decode(bytes).frame, up);
      if c'.status.Open? {
        DrainLeaves(c', bytes[Decode(bytes).size..], up);
      }
    }
  }

  // ---- Chunking ---------------------------------------------------------------

  /** Between receives: what is kept is the beginning of one frame, within the limit. */
  predicate Settled(c: Conn) {
    c.status.Open? ==> Decode(c.acc).Incomplete? && |c.acc| <= LIMIT
  }

  lemma FeedSettles(c: Conn, chunk: seq<byte>, up: nat -> bool)
    requires Settled(c)
    ensures Settled(Feed(c, chunk, up))
  {
    if c.status.Open? {
      DrainLeaves(c.(acc := []), c.acc + chunk, up);
    }
  }

  /** Every frame read before the connection closes takes at most one byte more than the
      limit, header included. */
  predicate Fits(c: Conn, bytes: seq<byte>, up: nat -> bool)
    decreases |bytes|
  {
    match Decode(bytes)
    case Complete(frame, size) =>
      && size <= LIMIT + 1
      && (Apply(c, frame, up).status.Open? ==> Fits(Apply(c, frame, up), bytes[size..], up))
    case _ => true
  }

  predicate StreamFits(c: Conn, bytes: seq<byte>, up: nat -> bool) {
    c.status.Open? ==> Fits(c.(acc := []), c.acc + bytes, up)
  }

  lemma {:induction false} FitsSplit(c: Conn, a: seq<byte>, b: seq<byte>, up: nat -> bool)
    requires c.status.Open? && c.acc == [] && Fits(c, a + b, up)
    ensures var d := Drain(c, a, up); d.status.Open? ==> Fits(d.(acc := []), d.acc + b, up)
    decreases |a|
  {
    match Decode(a)
    case Incomplete => assert c.(acc := a).(acc := []) == c;
    case TooLong =>
    case Complete(frame, size) =>
      DecodePrefix(a, b);
      var c' := Apply(c, frame, up);
      ApplyKeepsAcc(c, frame, up);
      if c'.status.Open? {
        assert (a + b)[size..] == a[size..] + b;
        FitsSplit(c', a[size..], b, up);
      }
  }

  /** A buffer over the limit whose frame is within it can only be waiting for ever. */
  lemma OverfullStaysIncomplete(c: Conn, a: seq<byte>, b: seq<byte>, up: nat -> bool)
    requires Decode(a).Incomplete? && |a| > LIMIT && Fits(c, a + b, up)
    ensures Decode(a + b).Incomplete?
  {
    if Decode(a + b).TooLong? {
      TooLongIsSeen(a, b);
    }
    if Decode(a + b).Complete? {
      assert (a + b)[..|a|] == a;
      DecodeCut(a + b, |a|);
    }
  }

  /** Two receives, seen as one drain interrupted by the check of the buffer. */
  lemma FeedInTwo(c: Conn, a: seq<byte>, b: seq<byte>, up: nat -> bool)
    requires c.status.Open?
    ensures var d := Drain(c.(acc := []), c.acc + a, up);
            && Feed(c, a, up) == CheckBuffer(d)
            && Feed(c, a + b, up) == if d.status.Open? then Feed(d, b, up) else d
  {
    assert c.acc + (a + b) == (c.acc + a) + b;
    DrainSplit(c.(acc := []), c.acc + a, b, up);
  }

  lemma WaitsForEver(d: Conn, b: seq<byte>, up: nat -> bool)
    requires d.status.Open? && Decode(d.acc).Incomplete? && Fits(d.(acc := []), d.acc + b, up)
    ensures Feed(CheckBuffer(d), b, up) == Feed(d, b, up)
  {
    if |d.acc| > LIMIT {
      OverfullStaysIncomplete(d.(acc := []), d.acc, b, up);
    }
  }

  lemma FeedTwiceOpen(c: Conn, a: seq<byte>, b: seq<byte>, up: nat -> bool)
    requires c.status.Open? && Fits(c.(acc := []), c.acc + a + b, up)
    ensures var d := Drain(c.(acc := []), c.acc + a, up);
            d.status.Open? ==> Feed(CheckBuffer(d), b, up) == Feed(d, b, up)
  {
    var c0, w := c.(acc := []), c.acc + a;
    DrainLeaves(c0, w, up);
    FitsSplit(c0, w, b, up);
    if Drain(c0, w, up).status.Open? {
      WaitsForEver(Drain(c0, w, up), b, up);
    }
  }

  lemma FeedTwice(c: Conn, a: seq<byte>, b: seq<byte>, up: nat -> bool)
    requires StreamFits(c, a + b, up)
    ensures Feed(Feed(c, a, up), b, up) == Feed(c, a + b, up)
  {
    if c.status.Open? {
      assert c.acc + (a + b) == c.acc + a + b;
      FeedInTwo(c, a, b, up);
      FeedTwiceOpen(c, a, b, up);
    }
  }

  lemma FitsAfterFeed(c: Conn, a: seq<byte>, b: seq<byte>, up: nat -> bool)
    requires StreamFits(c, a + b, up)
    ensures StreamFits(Feed(c, a, up), b, up)
  {
    if c.status.Open? {
      assert c.acc + (a + b) == (c.acc + a) + b;
      FitsSplit(c.(acc := []), c.acc + a, b, up);
    }
  }

  function Concat(chunks: seq<seq<byte>>): seq<byte> {
    if chunks == [] then [] else chunks[0] + Concat(chunks[1..])
  }

  lemma FeedNothing(c: Conn, up: nat -> bool)
    requires Settled(c)
    ensures Feed(c, [], up) == c
  {
    assert c.acc + [] == c.acc;
  }

  /** However a stream is cut into receives, the connection ends up in the same state and has
      delivered the same messages as after one receive of everything. */
  lemma {:induction false} ChunksDoNotMatter(c: Conn, chunks: seq<seq<byte>>, up: nat -> bool)
    requires Settled(c) && StreamFits(c, Concat(chunks), up)
    ensures FeedAll(c, chunks, up) == Feed(c, Concat(chunks), up)
    decreases |chunks|
  {
    if chunks == [] {
      FeedNothing(c, up);
    } else {
      var rest := Concat(chunks[1..]);
      FeedSettles(c, chunks[0], up);
      FitsAfterFeed(c, chunks[0], rest, up);
      ChunksDoNotMatter(Feed(c, chunks[0], up), chunks[1..], up);
      FeedTwice(c, chunks[0], rest, up);
    }
  }

  // ---- When chunking does matter ----------------------------------------------

  lemma {:induction false} DrainSees(c: Conn, bytes: seq<byte>, up: nat -> bool)
    ensures |Drain(c, bytes, up).seen| >= |c.seen| + if Decode(bytes).Complete? then 1 else 0
    decreases |bytes|
  {
    if Decode(bytes).Complete? {
      var c' := Apply(c, Decode(bytes).frame, up);
      assert |c'.seen| == |c.seen| + 1;
      if c'.status.Open? {
        DrainSees(c', bytes[Decode(bytes).size..], up);
      }
    }
  }

  /** A cut behind which the buffer is over the limit and the frame in it gets complete. */
  predicate IsBadCut(c: Conn, w: seq<byte>, k: nat, up: nat -> bool)
    requires k <= |w|
  {
    var d := Drain(c, w[..k], up);
    d.status.Open? && |d.acc| > LIMIT && Decode(d.acc + w[k..]).Complete?
  }

  lemma LastByteCut(c: Conn, w: seq<byte>, k: nat, up: nat -> bool)
    requires c.status.Open? && c.acc == [] && Decode(w).Complete? && k == Decode(w).size - 1 > LIMIT
    ensures IsBadCut(c, w, k, up)
  {
    DecodeCut(w, k);
    assert w[..k] + w[k..] == w;
  }

  lemma CutBehind(w: seq<byte>, size: nat, j: nat)
    requires size + j <= |w|
    ensures w[..size + j][size..] == w[size..][..j] && w[size..][j..] == w[size + j..]
  {
  }

  lemma CutFurther(c: Conn, w: seq<byte>, j: nat, up: nat -> bool)
    requires Decode(w).Complete? && Apply(c, Decode(w).frame, up).status.Open?
    requires j <= |w[Decode(w).size..]| && IsBadCut(Apply(c, Decode(w).frame, up), w[Decode(w).size..], j, up)
    ensures IsBadCut(c, w, Decode(w).size + j, up)
  {
    DecodeCut(w, Decode(w).size + j);
    CutBehind(w, Decode(w).size, j);
  }

  /** Where to cut a stream with a frame that is too large: just before its last byte. */
  lemma {:induction false} BadCut(c: Conn, w: seq<byte>, up: nat -> bool) returns (k: nat)
    requires c.status.Open? && c.acc == [] && !Fits(c, w, up)
    ensures k <= |w| && IsBadCut(c, w, k, up)
    decreases |w|
  {
    var Complete(frame, size) := Decode(w);
    if size > LIMIT + 1 {
      k := size - 1;
      LastByteCut(c, w, k, up);
    } else {
      ApplyKeepsAcc(c, frame, up);
      var j := BadCut(Apply(c, frame, up), w[size..], up);
      k := size + j;
      CutFurther(c, w, j, up);
    }
  }

  lemma PrefixIncomplete(w: seq<byte>, k: nat)
    requires Decode(w).Incomplete? && k <= |w|
    ensures Decode(w[..k]).Incomplete?
  {
    assert w == w[..k] + w[k..];
    if !Decode(w[..k]).Incomplete? {
      DecodePrefix(w[..k], w[k..]);
    }
  }

  /** The cut lies beyond what was kept from earlier receives. */
  lemma CutIsNew(c: Conn, w: seq<byte>, k: nat, up: nat -> bool)
    requires Settled(c) && c.status.Open? && k <= |w| && c.acc <= w
    requires var d := Drain(c.(acc := []), w[..k], up); d.status.Open? && |d.acc| > LIMIT
    ensures k >= |c.acc|
  {
    if k < |c.acc| {
      assert w[..k] == c.acc[..k];
      PrefixIncomplete(c.acc, k);
    }
  }

  /** A full buffer whose frame is about to be completed: closing now is not the same. */
  lemma ClosingMatters(d: Conn, b: seq<byte>, up: nat -> bool)
    requires d.status.Open? && |d.acc| > LIMIT && Decode(d.acc + b).Complete?
    ensures CheckBuffer(d).status.Closed? && CheckBuffer(d) != Feed(d, b, up)
  {
    DrainSees(d.(acc := []), d.acc + b, up);
    assert Feed(d, b, up).seen == Drain(d.(acc := []), d.acc + b, up).seen;
    assert CheckBuffer(d).seen == d.seen;
  }

  lemma CutMatters(c: Conn, bytes: seq<byte>, up: nat -> bool) returns (a: seq<byte>, b: seq<byte>)
    requires Settled(c) && !StreamFits(c, bytes, up)
    ensures a + b == bytes && Feed(Feed(c, a, up), b, up) != Feed(c, bytes, up)
  {
    var w := c.acc + bytes;
    var k := BadCut(c.(acc := []), w, up);
    CutIsNew(c, w, k, up);
    a, b := w[|c.acc|..k], w[k..];
    CutParts(c.acc, bytes, k);
    CutThere(c, a, b, up);
  }

  lemma CutParts(acc: seq<byte>, bytes: seq<byte>, k: nat)
    requires |acc| <= k <= |acc + bytes|
    ensures var w := acc + bytes; acc + w[|acc|..k] == w[..k] && w[|acc|..k] + w[k..] == bytes
  {
  }

  lemma CutThere(c: Conn, a: seq<byte>, b: seq<byte>, up: nat -> bool)
    requires c.status.Open?
    requires var d := Drain(c.(acc := []), c.acc + a, up); d.status.Open? && |d.acc| > LIMIT && Decode(d.acc + b).Complete?
    ensures Feed(Feed(c, a, up), b, up) != Feed(c, a + b, up)
  {
    FeedInTwo(c, a, b, up);
    ClosingMatters(Drain(c.(acc := []), c.acc + a, up), b, up);
  }

  /** Chunking is invisible for exactly the streams whose frames fit. */
  lemma ChunkingIsInvisible(c: Conn, bytes: seq<byte>, up: nat -> bool)
    requires Settled(c)
    ensures (forall a, b :: a + b == bytes ==> Feed(Feed(c, a, up), b, up) == Feed(c, bytes, up))
            <==> StreamFits(c, bytes, up)
  {
    if StreamFits(c, bytes, up) {
      forall a, b | a + b == bytes ensures Feed(Feed(c, a, up), b, up) == Feed(c, bytes, up) {
        FeedTwice(c, a, b, up);
      }
    } else {
      var a, b := CutMatters(c, bytes, up);
    }
  }

  // ---- Encoding and decoding --------------------------------------------------

  lemma {:induction false} UnmaskTwice(payload: seq<byte>, key: seq<byte>)
    requires |key| == 4
    ensures Unmask(Unmask(payload, key), key) == payload
  {
    if payload != [] {
      var last := |payload| - 1;
      var masked := Unmask(payload, key);
      assert masked[..last] == Unmask(payload[..last], key);
      UnmaskTwice(payload[..last], key);
      XorTwice(payload[last], key[last % 4]);
    }
  }

  lemma PowersOf256()
    ensures Pow256(2) == 65536 && Pow256(8) == 0x1_0000_0000_0000_0000
  {
    assert Pow256(4) == 0x1_0000_0000;
  }

  /** The header says its length, whatever follows it. */
  lemma HeadReads(first: byte, maskBit: byte, len: nat, rest: seq<byte>)
    requires maskBit == 0 || maskBit == 128
    requires len <= LIMIT
    ensures var head := Head(first, maskBit, len);
            ReadLength(head + rest) == Length(len, |head|) && (head + rest)[0] == first
            && ((head + rest)[1] >= 128 <==> maskBit == 128)
  {
    if len < 126 {
      assert (Head(first, maskBit, len) + rest)[1] == maskBit + len;
    } else if len < 65536 {
      TwoBytes(first, maskBit + 126, len, rest);
    } else {
      EightBytes(first, maskBit + 127, len, rest);
    }
  }

  lemma TwoBytes(first: byte, second: byte, len: nat, rest: seq<byte>)
    requires second % 128 == 126 && len < 65536
    ensures var w := [first, second] + BigEndian(len, 2) + rest;
            |w| >= 4 && w[0] == first && w[1] == second && ReadLength(w) == Length(len, 4)
  {
    var w := [first, second] + BigEndian(len, 2) + rest;
    PowersOf256();
    assert w[2..4] == BigEndian(len, 2);
    BigEndianRoundTrip(len, 2);
  }

  lemma EightBytes(first: byte, second: byte, len: nat, rest: seq<byte>)
    requires second % 128 == 127 && len <= LIMIT
    ensures var w := [first, second] + BigEndian(len, 8) + rest;
            |w| >= 10 && w[0] == first && w[1] == second && ReadLength(w) == Length(len, 10)
  {
    var w := [first, second] + BigEndian(len, 8) + rest;
    PowersOf256();
    assert w[2..10] == BigEndian(len, 8);
    BigEndianRoundTrip(len, 8);
  }

  lemma FirstReads(fin: bool, opcode: byte)
    requires opcode < 16
    ensures (First(fin, opcode) >= 128 <==> fin) && First(fin, opcode) % 16 == opcode
  {
  }

  /** Decoding what the server sends gives back the frame and takes exactly its bytes. */
  lemma DecodeEncoded(f: Frame, rest: seq<byte>)
    requires f.opcode < 16 && |f.payload| <= LIMIT
    ensures Decode(Encode(f) + rest) == Complete(f, |Encode(f)|)
  {
    var head := Head(First(f.fin, f.opcode), 0, |f.payload|);
    var w := Encode(f) + rest;
    assert w == head + (f.payload + rest);
    HeadReads(First(f.fin, f.opcode), 0, |f.payload|, f.payload + rest);
    FirstReads(f.fin, f.opcode);
    assert w[|head|..|head| + |f.payload|] == f.payload;
  }

  lemma MaskedBody(head: seq<byte>, key: seq<byte>, body: seq<byte>, rest: seq<byte>)
    requires 2 <= |head| && head[1] >= 128 && |key| == 4
    ensures DecodeBody(head + (key + body + rest), |body|, |head|)
            == Complete(MakeFrame(head[0], body, key), |head| + 4 + |body|)
  {
    var w, off := head + (key + body + rest), |head|;
    assert w[off..off + 4] == key;
    assert w[off + 4..off + 4 + |body|] == body;
  }

  /** The same for what a client sends, masked with any key. */
  lemma DecodeMasked(f: Frame, key: seq<byte>, rest: seq<byte>)
    requires f.opcode < 16 && |key| == 4 && |f.payload| <= LIMIT
    ensures Decode(EncodeMasked(f, key) + rest) == Complete(f, |EncodeMasked(f, key)|)
  {
    var head := Head(First(f.fin, f.opcode), 128, |f.payload|);
    var body := Unmask(f.payload, key);
    assert EncodeMasked(f, key) + rest == head + (key + body + rest);
    HeadReads(First(f.fin, f.opcode), 128, |f.payload|, key + body + rest);
    MaskedBody(head, key, body, rest);
    MaskedFrame(f, key);
  }

  lemma MaskedFrame(f: Frame, key: seq<byte>)
    requires f.opcode < 16 && |key| == 4
    ensures MakeFrame(First(f.fin, f.opcode), Unmask(f.payload, key), key) == f
  {
    UnmaskTwice(f.payload, key);
    FirstReads(f.fin, f.opcode);
  }

  // ---- What every connection keeps --------------------------------------------

  /** The fragment buffer stays within the limit, the check after the start of a fragmented
      message never fires, and a closed connection is still registered in the hub exactly
      when it was closed for a frame or a fragmented message that is too long. */
  predicate ConnOk(c: Conn) {
    && |c.frag| <= LIMIT
    && c.status != Closed(StartTooLong)
    && (c.registered <==> c.status in {Open, Closed(FrameTooLong), Closed(FragmentsTooLong)})
  }

  lemma LengthBound(bytes: seq<byte>)
    requires Decode(bytes).Complete?
    ensures |Decode(bytes).frame.payload| <= LIMIT
  {
    var Length(len, off) := ReadLength(bytes);
    PowersOf256();
    if off == 4 {
      FromBigBound(bytes[2..4]);
    }
  }

  lemma ApplyKeepsOk(c: Conn, f: Frame, up: nat -> bool)
    requires c.status.Open? && ConnOk(c) && |f.payload| <= LIMIT
    ensures ConnOk(Apply(c, f, up))
  {
  }

  lemma {:induction false} DrainKeepsOk(c: Conn, bytes: seq<byte>, up: nat -> bool)
    requires c.status.Open? && ConnOk(c)
    ensures ConnOk(Drain(c, bytes, up))
    decreases |bytes|
  {
    if Decode(bytes).Complete? {
      LengthBound(bytes);
      ApplyKeepsOk(c, Decode(bytes).frame, up);
      if Apply(c, Decode(bytes).frame, up).status.Open? {
        DrainKeepsOk(Apply(c, Decode(bytes).frame, up), bytes[Decode(bytes).size..], up);
      }
    }
  }

  lemma FeedKeepsOk(c: Conn, chunk: seq<byte>, up: nat -> bool)
    requires ConnOk(c)
    ensures ConnOk(Feed(c, chunk, up))
  {
    if c.status.Open? {
      DrainKeepsOk(c.(acc := []), c.acc + chunk, up);
    }
  }

  lemma {:induction false} EveryConnectionIsOk(c: Conn, chunks: seq<seq<byte>>, up: nat -> bool)
    requires ConnOk(c)
    ensures ConnOk(FeedAll(c, chunks, up)) && ConnOk(End(FeedAll(c, chunks, up)))
    ensures c.status.Closed? ==> FeedAll(c, chunks, up) == c
    decreases |chunks|
  {
    if chunks != [] {
      FeedKeepsOk(c, chunks[0], up);
      EveryConnectionIsOk(Feed(c, chunks[0], up), chunks[1..], up);
    }
  }
}
