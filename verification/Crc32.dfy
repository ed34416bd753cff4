/**
 The bitwise CRC-32 of `src/handlers/admin/export.cpp`, and what it detects.
 */
module Crc32 {
  import opened Bytes

  const POLYNOMIAL: nat := 0xEDB8_8320
  const ALL_ONES: nat := 0xFFFF_FFFF

  type word = x: int | 0 <= x < 0x1_0000_0000

  lemma WordIsThirtyTwoBits()
    ensures Pow2(31) == 0x8000_0000 && Pow2(32) == 0x1_0000_0000
  {
    assert Pow2(8) == 256 by { ByteIsEightBits(); }
    assert Pow2(16) == 65536 by { assert Pow2(12) == 4096; }
    assert Pow2(20) == 0x10_0000;
    assert Pow2(24) == 0x100_0000;
    assert Pow2(28) == 0x1000_0000;
  }

  function XorWord(a: word, b: word): word {
    WordIsThirtyTwoBits();
    XorBound(a, b, 32);
    Xor(a, b)
  }

  /** One bit: a shift, and the polynomial if a one was shifted out. */
  function BitStep(c: word): word {
    if c % 2 == 1 then XorWord(c / 2, POLYNOMIAL) else c / 2
  }

  function BitSteps(c: word, n: nat): word
    decreases n
  {
    if n == 0 then c else BitSteps(BitStep(c), n - 1)
  }

  function ByteStep(c: word, x: byte): word {
    BitSteps(XorWord(c, x), 8)
  }

  function Feed(c: word, data: seq<byte>): word
    decreases |data|
  {
    if data == [] then c else Feed(ByteStep(c, data[0]), data[1..])
  }

  function Crc(data: seq<byte>): word {
    ALL_ONES - Feed(ALL_ONES, data)
  }

  /** The two nested loops. */
  method Crc32Raw(data: seq<byte>) returns (crc: word)
    ensures crc == Crc(data)
  {
    var c: word := ALL_ONES;
    assert data[0..] == data;
    for i := 0 to |data|
      invariant Feed(c, data[i..]) == Feed(ALL_ONES, data)
    {
      ghost var next := ByteStep(c, data[i]);
      assert data[i..][1..] == data[i + 1..];
      c := XorWord(c, data[i]);
      for k := 0 to 8
        invariant BitSteps(c, 8 - k) == next
      {
        c := if c % 2 == 1 then XorWord(c / 2, POLYNOMIAL) else c / 2;
      }
    }
    crc := ALL_ONES - c;
  }

  // ---- Injectivity ------------------------------------------------------------

  lemma XorCancels(a: nat, b: nat, c: nat)
    requires Xor(a, c) == Xor(b, c)
    ensures a == b
  {
    XorTwice(a, c);
    XorTwice(b, c);
  }

  /** The top bit of one operand survives when the other has none there. */
  lemma {:induction false} XorTop(a: nat, b: nat, n: nat)
    requires a < Pow2(n) <= b < Pow2(n + 1)
    ensures Pow2(n) <= Xor(a, b)
    decreases n
  {
    if n > 0 {
      XorTop(a / 2, b / 2, n - 1);
    }
  }

  lemma BitStepInjective(c: word, d: word)
    requires BitStep(c) == BitStep(d)
    ensures c == d
  {
    WordIsThirtyTwoBits();
    XorTop(c / 2, POLYNOMIAL, 31);
    XorTop(d / 2, POLYNOMIAL, 31);
    if c % 2 == 1 && d % 2 == 1 {
      XorCancels(c / 2, d / 2, POLYNOMIAL);
    }
  }

  lemma {:induction false} BitStepsInjective(c: word, d: word, n: nat)
    requires BitSteps(c, n) == BitSteps(d, n)
    ensures c == d
    decreases n
  {
    if n > 0 {
      BitStepsInjective(BitStep(c), BitStep(d), n - 1);
      BitStepInjective(c, d);
    }
  }

  lemma {:induction false} FeedInjective(c: word, d: word, data: seq<byte>)
    requires Feed(c, data) == Feed(d, data)
    ensures c == d
    decreases |data|
  {
    if data != [] {
      FeedInjective(ByteStep(c, data[0]), ByteStep(d, data[0]), data[1..]);
      BitStepsInjective(XorWord(c, data[0]), XorWord(d, data[0]), 8);
      XorCancels(c, d, data[0]);
    }
  }

  lemma {:induction false} FeedConcat(c: word, a: seq<byte>, b: seq<byte>)
    ensures Feed(c, a + b) == Feed(Feed(c, a), b)
    decreases |a|
  {
    if a == [] {
      assert a + b == b;
    } else {
      assert (a + b)[1..] == a[1..] + b;
      FeedConcat(ByteStep(c, a[0]), a[1..], b);
    }
  }

  lemma {:induction false} XorCommutes(a: nat, b: nat)
    ensures Xor(a, b) == Xor(b, a)
    decreases a + b
  {
    if a != 0 || b != 0 {
      XorCommutes(a / 2, b / 2);
    }
  }

  /** Changing one byte changes the checksum. */
  lemma OneByteIsDetected(before: seq<byte>, x: byte, y: byte, after: seq<byte>)
    ensures Crc(before + [x] + after) == Crc(before + [y] + after) <==> x == y
  {
    var c := Feed(ALL_ONES, before);
    ByteInside(before, x, after);
    ByteInside(before, y, after);
    if Crc(before + [x] + after) == Crc(before + [y] + after) {
      FeedInjective(ByteStep(c, x), ByteStep(c, y), after);
      BitStepsInjective(XorWord(c, x), XorWord(c, y), 8);
      XorCommutes(c, x);
      XorCommutes(c, y);
      XorCancels(x, y, c);
    }
  }

  lemma ByteInside(before: seq<byte>, x: byte, after: seq<byte>)
    ensures Feed(ALL_ONES, before + [x] + after) == Feed(ByteStep(Feed(ALL_ONES, before), x), after)
  {
    var c := Feed(ALL_ONES, before);
    FeedConcat(ALL_ONES, before + [x], after);
    FeedConcat(ALL_ONES, before, [x]);
    assert [x][1..] == [];
    assert Feed(c, [x]) == ByteStep(c, x);
  }
}
