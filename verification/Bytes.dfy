/**
 Bytes, exclusive or, and integers written as bytes in either order.
 */
module Bytes {

  type byte = x: int | 0 <= x < 256

  function Pow2(n: nat): (p: nat)
    ensures p > 0
  {
    if n == 0 then 1 else 2 * Pow2(n - 1)
  }

  /** Bitwise exclusive or. */
  function Xor(a: nat, b: nat): nat
    decreases a + b
  {
    if a == 0 && b == 0 then 0 else 2 * Xor(a / 2, b / 2) + (a + b) % 2
  }

  lemma {:induction false} XorBound(a: nat, b: nat, n: nat)
    requires a < Pow2(n) && b < Pow2(n)
    ensures Xor(a, b) < Pow2(n)
    decreases n
  {
    if n > 0 {
      XorBound(a / 2, b / 2, n - 1);
    }
  }

  lemma LowBit(h: nat, a: nat, b: nat)
    ensures var x := 2 * h + (a + b) % 2; x / 2 == h && (x + b) % 2 == a % 2
  {
  }

  lemma XorUnfold(a: nat, b: nat)
    ensures Xor(a, b) == 2 * Xor(a / 2, b / 2) + (a + b) % 2
  {
  }

  lemma {:induction false} XorTwice(a: nat, b: nat)
    ensures Xor(Xor(a, b), b) == a
    decreases a + b
  {
    if a != 0 || b != 0 {
      XorTwice(a / 2, b / 2);
      var h := Xor(a / 2, b / 2);
      XorUnfold(a, b);
      LowBit(h, a, b);
      XorUnfold(Xor(a, b), b);
    }
  }

  lemma ByteIsEightBits()
    ensures Pow2(8) == 256
  {
    assert Pow2(4) == 16;
  }

  function XorByte(a: byte, b: byte): byte {
    ByteIsEightBits();
    XorBound(a, b, 8);
    Xor(a, b)
  }

  // ---- Integers as bytes ------------------------------------------------------

  function Pow256(k: nat): (p: nat)
    ensures p > 0
  {
    if k == 0 then 1 else 256 * Pow256(k - 1)
  }

  /** The k low bytes of a number, most significant first. */
  function BigEndian(n: nat, k: nat): (bytes: seq<byte>)
    ensures |bytes| == k
  {
    if k == 0 then [] else BigEndian(n / 256, k - 1) + [n % 256]
  }

  function FromBig(bytes: seq<byte>): nat {
    if bytes == [] then 0 else 256 * FromBig(bytes[..|bytes| - 1]) + bytes[|bytes| - 1]
  }

  lemma {:induction false} BigEndianRoundTrip(n: nat, k: nat)
    requires n < Pow256(k)
    ensures FromBig(BigEndian(n, k)) == n
  {
    if k > 0 {
      BigEndianRoundTrip(n / 256, k - 1);
      var bytes := BigEndian(n, k);
      assert bytes[..k - 1] == BigEndian(n / 256, k - 1);
    }
  }

  lemma {:induction false} FromBigBound(bytes: seq<byte>)
    ensures FromBig(bytes) < Pow256(|bytes|)
  {
    if bytes != [] {
      FromBigBound(bytes[..|bytes| - 1]);
    }
  }

  /** The k low bytes of a number, least significant first. */
  function LittleEndian(n: nat, k: nat): (bytes: seq<byte>)
    ensures |bytes| == k
  {
    if k == 0 then [] else [n % 256] + LittleEndian(n / 256, k - 1)
  }

  function FromLittle(bytes: seq<byte>): nat {
    if bytes == [] then 0 else bytes[0] + 256 * FromLittle(bytes[1..])
  }

  lemma {:induction false} LittleEndianRoundTrip(n: nat, k: nat)
    ensures FromLittle(LittleEndian(n, k)) == n % Pow256(k)
  {
    if k > 0 {
      LittleEndianRoundTrip(n / 256, k - 1);
      assert LittleEndian(n, k)[1..] == LittleEndian(n / 256, k - 1);
      ModStep(n, Pow256(k - 1));
    }
  }

  lemma ModStep(n: nat, p: nat)
    requires p > 0
    ensures n % 256 + 256 * ((n / 256) % p) == n % (256 * p)
  {
    var q, m := n / 256 / p, (n / 256) % p;
    assert n / 256 == q * p + m;
    assert n == (256 * p) * q + (256 * m + n % 256) by {
      assert 256 * (q * p + m) == (256 * p) * q + 256 * m;
    }
    assert 256 * m + n % 256 < 256 * p;
    DivMod(n, 256 * p, q, 256 * m + n % 256);
  }

  lemma DivMod(n: nat, d: nat, q: nat, r: nat)
    requires 0 <= r < d && n == d * q + r
    ensures n % d == r && n / d == q
  {
    var k, m := n / d, n % d;
    assert n == d * k + m && 0 <= m < d;
    SameQuotient(d, q, r, k, m);
  }

  lemma Peel(d: nat, x: nat)
    requires x > 0
    ensures d * x == d + d * (x - 1)
  {
  }

  lemma {:induction false} SameQuotient(d: nat, q: nat, r: nat, k: nat, m: nat)
    requires r < d && m < d && d * q + r == d * k + m
    ensures q == k && r == m
  {
    if q > 0 && k > 0 {
      Peel(d, q);
      Peel(d, k);
      SameQuotient(d, q - 1, r, k - 1, m);
    } else if q > 0 {
      Peel(d, q);
    } else if k > 0 {
      Peel(d, k);
    }
  }

  lemma LittleEndianExact(n: nat, k: nat)
    requires n < Pow256(k)
    ensures FromLittle(LittleEndian(n, k)) == n
  {
    LittleEndianRoundTrip(n, k);
    DivMod(n, Pow256(k), 0, n);
  }
}
