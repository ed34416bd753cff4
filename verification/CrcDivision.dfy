/**
 The checksum of module Crc32 against its definition: the remainder of a polynomial division
 over the field of two elements, with the generator and the conventions of ISO 3309 and ITU-T
 V.42, which the ZIP format takes over. Polynomials are lists of coefficients, the highest
 power first; bytes are written with their least significant bit first.
 */
module CrcDivision {
  import opened Bytes
  import opened Crc32

  type Bits = seq<bool>

  // ---- Division ---------------------------------------------------------------

  /** x^32 + x^26 + x^23 + x^22 + x^16 + x^12 + x^11 + x^10 + x^8 + x^7 + x^5 + x^4 + x^2 + x + 1. */
  predicate HasPower(k: nat) {
    || k == 32 || k == 26 || k == 23 || k == 22 || k == 16 || k == 12 || k == 11 || k == 10
    || k == 8 || k == 7 || k == 5 || k == 4 || k == 2 || k == 1 || k == 0
  }

  /** The coefficients of its n lowest powers. */
  function Coefficients(n: nat): (r: Bits)
    ensures |r| == n
  {
    if n == 0 then [] else [HasPower(n - 1)] + Coefficients(n - 1)
  }

  function Generator(): (r: Bits)
    ensures |r| == 33
  {
    Coefficients(33)
  }

  /** Subtraction of polynomials, which is also their addition. */
  function Minus(a: Bits, b: Bits): (r: Bits)
    requires |a| == |b|
    ensures |r| == |a|
  {
    if a == [] then [] else [a[0] != b[0]] + Minus(a[1..], b[1..])
  }

  /** Long division: while there are powers from 32 up, subtract the generator from the highest. */
  function Remainder(dividend: Bits): (r: Bits)
    requires |dividend| >= 32
    ensures |r| == 32
    decreases |dividend|
  {
    if |dividend| == 32 then dividend
    else if !dividend[0] then Remainder(dividend[1..])
    else Remainder((Minus(dividend[..33], Generator()) + dividend[33..])[1..])
  }

  // ---- The definition of the checksum -----------------------------------------

  function Zeros(n: nat): (r: Bits)
    ensures |r| == n
  {
    if n == 0 then [] else [false] + Zeros(n - 1)
  }

  function Inverted(a: Bits): (r: Bits)
    ensures |r| == |a|
  {
    if a == [] then [] else [!a[0]] + Inverted(a[1..])
  }

  /** The n low bits of a number, the lowest first. */
  function Low(v: nat, n: nat): (r: Bits)
    ensures |r| == n
  {
    if n == 0 then [] else [v % 2 == 1] + Low(v / 2, n - 1)
  }

  function Value(a: Bits): nat {
    if a == [] then 0 else (if a[0] then 1 else 0) + 2 * Value(a[1..])
  }

  function MessageBits(data: seq<byte>): Bits {
    if data == [] then [] else Low(data[0], 8) + MessageBits(data[1..])
  }

  /** The message times x^32, its first 32 bits inverted, is divided by the generator; the
      remainder is inverted and read with its highest power in the lowest bit. */
  function Checksum(data: seq<byte>): nat {
    var dividend := MessageBits(data) + Zeros(32);
    Value(Inverted(Remainder(Inverted(dividend[..32]) + dividend[32..])))
  }

  // ---- Division as a register of 32 bits --------------------------------------

  /** One bit of the message goes in at the top. */
  function Shift(reg: Bits, bit: bool): (r: Bits)
    requires |reg| == 32
    ensures |r| == 32
  {
    var next := reg[1..] + [false];
    if reg[0] != bit then Minus(next, Generator()[1..]) else next
  }

  function ShiftAll(reg: Bits, bits: Bits): (r: Bits)
    requires |reg| == 32
    ensures |r| == 32
    decreases |bits|
  {
    if bits == [] then reg else ShiftAll(Shift(reg, bits[0]), bits[1..])
  }

  /** The register laid over the first 32 bits. */
  function Over(bits: Bits, reg: Bits): (r: Bits)
    requires |bits| >= 32 && |reg| == 32
    ensures |r| == |bits|
  {
    Minus(bits[..32], reg) + bits[32..]
  }

  lemma {:induction false} MinusAt(a: Bits, b: Bits, i: nat)
    requires |a| == |b| && i < |a|
    ensures Minus(a, b)[i] == (a[i] != b[i])
  {
    if i > 0 {
      MinusAt(a[1..], b[1..], i - 1);
    }
  }

  /** A list of differences, position by position. */
  lemma IsMinus(a: Bits, b: Bits, r: Bits)
    requires |a| == |b| == |r| && forall i :: 0 <= i < |a| ==> r[i] == (a[i] != b[i])
    ensures r == Minus(a, b)
  {
    forall i | 0 <= i < |a| ensures r[i] == Minus(a, b)[i] { MinusAt(a, b, i); }
  }

  lemma MinusTwice(a: Bits, b: Bits, c: Bits)
    requires |a| == |b| == |c|
    ensures Minus(Minus(a, b), c) == Minus(a, Minus(b, c))
  {
    forall i | 0 <= i < |a| ensures Minus(Minus(a, b), c)[i] == (a[i] != Minus(b, c)[i]) {
      MinusAt(a, b, i);
      MinusAt(Minus(a, b), c, i);
      MinusAt(b, c, i);
    }
    IsMinus(a, Minus(b, c), Minus(Minus(a, b), c));
  }

  lemma MinusFirst(x: bool, a: Bits, y: bool, b: Bits)
    requires |a| == |b|
    ensures Minus([x] + a, [y] + b) == [x != y] + Minus(a, b)
  {
    assert ([x] + a)[1..] == a && ([y] + b)[1..] == b;
  }

  /** The division takes the highest bit away, and the generator if it was set. */
  lemma RemainderStep(top: bool, rest: Bits)
    requires |rest| >= 32
    ensures Remainder([top] + rest) == Remainder(if top then Over(rest, Generator()[1..]) else rest)
  {
    var d, g := [top] + rest, Generator();
    assert d[1..] == rest;
    if top {
      TopCancels(rest);
    }
  }

  lemma TopCancels(rest: Bits)
    requires |rest| >= 32
    ensures var d := [true] + rest; (Minus(d[..33], Generator()) + d[33..])[1..] == Over(rest, Generator()[1..])
  {
    var d, g := [true] + rest, Generator();
    TakeApart(rest);
    assert g == [true] + g[1..];
    MinusFirst(true, rest[..32], true, g[1..]);
    DropFirst(false, Minus(rest[..32], g[1..]), rest[32..]);
  }

  lemma TakeApart(rest: Bits)
    requires |rest| >= 32
    ensures var d := [true] + rest; d[..33] == [true] + rest[..32] && d[33..] == rest[32..]
  {
  }

  lemma DropFirst(x: bool, a: Bits, b: Bits)
    ensures ([x] + a + b)[1..] == a + b
  {
  }

  lemma OverTwice(bits: Bits, a: Bits, b: Bits)
    requires |bits| >= 32 && |a| == |b| == 32
    ensures Over(Over(bits, a), b) == Over(bits, Minus(a, b))
  {
    MinusTwice(bits[..32], a, b);
    assert Over(bits, a)[..32] == Minus(bits[..32], a) && Over(bits, a)[32..] == bits[32..];
  }

  /** Taking the first bit off. */
  lemma OverFirst(bit: bool, bits: Bits, reg: Bits)
    requires |bits| >= 32 && |reg| == 32
    ensures Over([bit] + bits, reg) == [bit != reg[0]] + Over(bits, reg[1..] + [false])
  {
    var all, next := [bit] + bits, reg[1..] + [false];
    assert all[..32][0] == bit && all[..32][1..] == bits[..31] && all[32..] == [bits[31]] + bits[32..];
    assert Minus(all[..32], reg) == [bit != reg[0]] + Minus(bits[..31], reg[1..]);
    LastStays(bits[..32], next);
    assert bits[..32][..31] == bits[..31] && next[..31] == reg[1..];
  }

  lemma LastStays(a: Bits, b: Bits)
    requires |a| == |b| == 32 && !b[31]
    ensures Minus(a, b) == Minus(a[..31], b[..31]) + [a[31]]
  {
    forall i | 0 <= i < 32 ensures (Minus(a[..31], b[..31]) + [a[31]])[i] == (a[i] != b[i]) {
      if i < 31 { MinusAt(a[..31], b[..31], i); }
    }
    IsMinus(a, b, Minus(a[..31], b[..31]) + [a[31]]);
  }

  lemma ShiftIsOver(bits: Bits, bit: bool, reg: Bits)
    requires |bits| >= 32 && |reg| == 32
    ensures Remainder(Over([bit] + bits, reg)) == Remainder(Over(bits, Shift(reg, bit)))
  {
    var next := reg[1..] + [false];
    OverFirst(bit, bits, reg);
    RemainderStep(bit != reg[0], Over(bits, next));
    OverTwice(bits, next, Generator()[1..]);
  }

  lemma {:induction false} RegisterDivides(message: Bits, zeros: Bits, reg: Bits)
    requires |zeros| == |reg| == 32 && zeros == Zeros(|zeros|)
    ensures Remainder(Over(message + zeros, reg)) == ShiftAll(reg, message)
    decreases |message|
  {
    if message == [] {
      OverZeros(message, zeros, reg);
    } else {
      FirstOff(message, zeros);
      assert message + zeros == [message[0]] + (message[1..] + zeros);
      ShiftIsOver(message[1..] + zeros, message[0], reg);
      RegisterDivides(message[1..], zeros, Shift(reg, message[0]));
    }
  }

  lemma OverZeros(none: Bits, zeros: Bits, reg: Bits)
    requires none == [] && |zeros| == |reg| == 32 && zeros == Zeros(|zeros|)
    ensures Over(none + zeros, reg) == reg
  {
    ZerosChangeNothing(reg);
    assert none + zeros == zeros && zeros[..32] == zeros && zeros[32..] == [];
  }

  lemma {:induction false} ZerosChangeNothing(reg: Bits)
    ensures Minus(Zeros(|reg|), reg) == reg
  {
    if reg != [] {
      ZerosChangeNothing(reg[1..]);
      assert Zeros(|reg|)[1..] == Zeros(|reg| - 1);
    }
  }

  // ---- The register of the code -----------------------------------------------

  lemma {:induction false} LowOfXor(a: nat, b: nat, n: nat)
    ensures Low(Xor(a, b), n) == Minus(Low(a, n), Low(b, n))
  {
    if n > 0 {
      XorUnfold(a, b);
      XorParts(a, b);
      LowOfXor(a / 2, b / 2, n - 1);
    }
  }

  lemma XorParts(a: nat, b: nat)
    ensures Xor(a, b) / 2 == Xor(a / 2, b / 2) && (Xor(a, b) % 2 == 1 <==> (a % 2 == 1) != (b % 2 == 1))
  {
    XorUnfold(a, b);
    OneBitMore(Xor(a / 2, b / 2), a, b);
  }

  lemma OneBitMore(h: nat, a: nat, b: nat)
    ensures var x := 2 * h + (a + b) % 2; x / 2 == h && (x % 2 == 1 <==> (a % 2 == 1) != (b % 2 == 1))
  {
    LowBit(h, a, b);
  }

  lemma {:induction false} LowOfHalf(v: nat, n: nat)
    requires n > 0 && v < Pow2(n)
    ensures Low(v / 2, n) == Low(v, n)[1..] + [false]
  {
    if n == 1 {
      assert Low(v / 2, 1) == [false] && Low(v, 1)[1..] == [];
    } else {
      LowOfHalf(v / 2, n - 1);
      assert Low(v, n)[1..] == Low(v / 2, n - 1);
    }
  }

  lemma {:induction false} LowOfZero(n: nat)
    ensures Low(0, n) == Zeros(n)
  {
    if n > 0 {
      LowOfZero(n - 1);
    }
  }

  lemma {:induction false} ValueOfLow(v: nat, n: nat)
    requires v < Pow2(n)
    ensures Value(Low(v, n)) == v
  {
    if n > 0 {
      ValueOfLow(v / 2, n - 1);
    }
  }

  lemma {:induction false} ValueOfInverted(a: Bits)
    ensures Value(Inverted(a)) == Pow2(|a|) - 1 - Value(a)
  {
    if a != [] {
      ValueOfInverted(a[1..]);
    }
  }

  lemma {:induction false} LowOfValue(a: Bits)
    ensures Low(Value(a), |a|) == a
  {
    if a != [] {
      LowOfValue(a[1..]);
    }
  }

  /** The n lowest coefficients, read with the highest power in the lowest bit. */
  function Reflected(n: nat): nat {
    if n == 0 then 0 else (if HasPower(n - 1) then 1 else 0) + 2 * Reflected(n - 1)
  }

  lemma {:induction false} CoefficientsReflected(n: nat)
    ensures Value(Coefficients(n)) == Reflected(n)
  {
    if n > 0 {
      CoefficientsReflected(n - 1);
    }
  }

  lemma ReflectedValue()
    ensures Reflected(32) == POLYNOMIAL
  {
    assert Reflected(8) == 0xed;
    assert Reflected(16) == 0xedb8;
    assert Reflected(24) == 0xed_b883;
  }

  /** The constant of the code is the generator without its highest power, reflected. */
  lemma PolynomialIsGenerator()
    ensures Low(POLYNOMIAL, 32) == Generator()[1..]
  {
    var n: nat := |Generator()| - 1;
    ReflectedValue();
    CoefficientsReflected(n);
    LowOfValue(Coefficients(n));
    assert Generator() == [HasPower(n)] + Coefficients(n);
  }

  lemma WordBound(c: word)
    ensures c < Pow2(32)
  {
    WordIsThirtyTwoBits();
  }

  lemma StepShifts(c: word)
    ensures Low(BitStep(c), 32) == Shift(Low(c, 32), false)
  {
    WordBound(c);
    LowOfHalf(c, 32);
    if c % 2 == 1 {
      LowOfXor(c / 2, POLYNOMIAL, 32);
      PolynomialIsGenerator();
    }
  }

  lemma {:induction false} StepsShift(c: word, k: nat)
    ensures Low(BitSteps(c, k), 32) == ShiftAll(Low(c, 32), Zeros(k))
    decreases k
  {
    if k > 0 {
      StepShifts(c);
      StepsShift(BitStep(c), k - 1);
      assert Zeros(k)[1..] == Zeros(k - 1);
    }
  }

  /** The register with the bits laid over its top. */
  function Laid(reg: Bits, bits: Bits): (r: Bits)
    requires |bits| <= |reg| == 32
    ensures |r| == 32
  {
    Minus(reg, bits + Zeros(32 - |bits|))
  }

  lemma LaidShift(reg: Bits, bits: Bits)
    requires 0 < |bits| <= |reg| == 32
    ensures Shift(Laid(reg, bits), false) == Laid(Shift(reg, bits[0]), bits[1..])
  {
    var laid, g := Laid(reg, bits), Generator()[1..];
    var next, top := reg[1..] + [false], bits[1..] + Zeros(33 - |bits|);
    LaidParts(reg, bits);
    assert laid[0] == (reg[0] != bits[0]);
    if laid[0] {
      MinusTwice(next, top, g);
      MinusTwice(next, g, top);
      MinusCommutes(top, g);
    }
  }

  lemma LaidParts(reg: Bits, bits: Bits)
    requires 0 < |bits| <= |reg| == 32
    ensures Laid(reg, bits)[0] == (reg[0] != bits[0])
    ensures Laid(reg, bits)[1..] + [false] == Minus(reg[1..] + [false], bits[1..] + Zeros(33 - |bits|))
  {
    var n := 32 - |bits|;
    var shorter := bits[1..] + Zeros(n);
    FirstOff(bits, Zeros(n));
    ZerosEnd(n);
    Longer(bits[1..], Zeros(n));
    LastFalse(reg[1..], shorter);
  }

  lemma FirstOff(bits: Bits, more: Bits)
    requires bits != []
    ensures (bits + more)[0] == bits[0] && (bits + more)[1..] == bits[1..] + more
  {
  }

  lemma Longer(bits: Bits, more: Bits)
    ensures bits + (more + [false]) == bits + more + [false]
  {
  }

  lemma LastFalse(a: Bits, b: Bits)
    requires |a| == |b| == 31
    ensures Minus(a + [false], b + [false]) == Minus(a, b) + [false]
  {
    LastStays(a + [false], b + [false]);
    assert (a + [false])[..31] == a && (b + [false])[..31] == b;
  }

  lemma {:induction false} ZerosEnd(n: nat)
    ensures Zeros(n + 1) == Zeros(n) + [false]
  {
    if n > 0 {
      ZerosEnd(n - 1);
    }
  }

  lemma MinusCommutes(a: Bits, b: Bits)
    requires |a| == |b|
    ensures Minus(a, b) == Minus(b, a)
  {
    forall i | 0 <= i < |a| ensures Minus(a, b)[i] == (b[i] != a[i]) { MinusAt(a, b, i); }
    IsMinus(b, a, Minus(a, b));
  }

  /** Laying several bits over the register and shifting is putting them in one by one. */
  lemma {:induction false} LaidAtOnce(reg: Bits, bits: Bits)
    requires |bits| <= |reg| == 32
    ensures ShiftAll(Laid(reg, bits), Zeros(|bits|)) == ShiftAll(reg, bits)
    decreases |bits|
  {
    if bits == [] {
      MinusCommutes(Zeros(32), reg);
      ZerosChangeNothing(reg);
      assert bits + Zeros(32) == Zeros(32);
    } else {
      LaidShift(reg, bits);
      LaidAtOnce(Shift(reg, bits[0]), bits[1..]);
      assert Zeros(|bits|)[1..] == Zeros(|bits[1..]|);
    }
  }

  lemma {:induction false} LowBeyond(v: nat, n: nat, m: nat)
    requires v < Pow2(n)
    ensures Low(v, n + m) == Low(v, n) + Zeros(m)
  {
    if n > 0 {
      LowBeyond(v / 2, n - 1, m);
    } else {
      LowOfZero(m);
    }
  }

  lemma ByteShifts(c: word, x: byte)
    ensures Low(ByteStep(c, x), 32) == ShiftAll(Low(c, 32), Low(x, 8))
  {
    ByteIsEightBits();
    StepsShift(XorWord(c, x), 8);
    LowOfXor(c, x, 32);
    LowBeyond(x, 8, 24);
    LaidAtOnce(Low(c, 32), Low(x, 8));
  }

  lemma {:induction false} ShiftAllConcat(reg: Bits, a: Bits, b: Bits)
    requires |reg| == 32
    ensures ShiftAll(reg, a + b) == ShiftAll(ShiftAll(reg, a), b)
    decreases |a|
  {
    if a == [] {
      assert a + b == b;
    } else {
      assert (a + b)[0] == a[0] && (a + b)[1..] == a[1..] + b;
      ShiftAllConcat(Shift(reg, a[0]), a[1..], b);
    }
  }

  lemma {:induction false} FeedShifts(c: word, data: seq<byte>)
    ensures Low(Feed(c, data), 32) == ShiftAll(Low(c, 32), MessageBits(data))
    decreases |data|
  {
    if data != [] {
      ByteShifts(c, data[0]);
      FeedShifts(ByteStep(c, data[0]), data[1..]);
      ShiftAllConcat(Low(c, 32), Low(data[0], 8), MessageBits(data[1..]));
    }
  }

  function Ones(n: nat): (r: Bits)
    ensures |r| == n
  {
    if n == 0 then [] else [true] + Ones(n - 1)
  }

  lemma {:induction false} LowOfOnes(n: nat)
    ensures Low(Pow2(n) - 1, n) == Ones(n)
  {
    if n > 0 {
      LowOfOnes(n - 1);
      assert (Pow2(n) - 1) / 2 == Pow2(n - 1) - 1;
    }
  }

  lemma {:induction false} MinusOnes(a: Bits)
    ensures Minus(a, Ones(|a|)) == Inverted(a)
  {
    if a != [] {
      MinusOnes(a[1..]);
      assert Ones(|a|)[1..] == Ones(|a[1..]|);
    }
  }

  /** What the loops compute is the checksum by its definition, for all data. */
  lemma CrcIsChecksum(data: seq<byte>)
    ensures Crc(data) == Checksum(data)
  {
    var ones, last, dividend := Ones(32), Feed(ALL_ONES, data), MessageBits(data) + Zeros(32);
    WordIsThirtyTwoBits();
    LowOfOnes(32);
    FeedShifts(ALL_ONES, data);
    RegisterDivides(MessageBits(data), Zeros(32), ones);
    MinusOnes(dividend[..32]);
    assert Remainder(Inverted(dividend[..32]) + dividend[32..]) == Low(last, 32);
    ValueOfLow(last, 32);
    ValueOfInverted(Low(last, 32));
  }

  // ---- The check value --------------------------------------------------------

  /** The same register as eight hexadecimal digits, the lowest first. */
  datatype Reg = Reg(a: bv4, b: bv4, c: bv4, d: bv4, e: bv4, f: bv4, g: bv4, h: bv4)

  function FourBits(x: bv4): (r: Bits)
    ensures |r| == 4
  {
    [x & 1 == 1, x & 2 == 2, x & 4 == 4, x & 8 == 8]
  }

  function RegBits(r: Reg): (bits: Bits)
    ensures |bits| == 32
  {
    FourBits(r.a) + (FourBits(r.b) + (FourBits(r.c) + (FourBits(r.d)
    + (FourBits(r.e) + (FourBits(r.f) + (FourBits(r.g) + FourBits(r.h)))))))
  }

  function Slid(x: bv4, carry: bool): bv4 {
    (x >> 1) | (if carry then 8 else 0)
  }

  predicate IsOdd(x: bv4) {
    x & 1 == 1
  }

  function HalfReg(r: Reg): Reg {
    Reg(Slid(r.a, IsOdd(r.b)), Slid(r.b, IsOdd(r.c)), Slid(r.c, IsOdd(r.d)), Slid(r.d, IsOdd(r.e)),
        Slid(r.e, IsOdd(r.f)), Slid(r.f, IsOdd(r.g)), Slid(r.g, IsOdd(r.h)), Slid(r.h, false))
  }

  function XorReg(r: Reg, s: Reg): Reg {
    Reg(r.a ^ s.a, r.b ^ s.b, r.c ^ s.c, r.d ^ s.d, r.e ^ s.e, r.f ^ s.f, r.g ^ s.g, r.h ^ s.h)
  }

  const POLYNOMIAL_REG := Reg(0, 2, 3, 8, 8, 11, 13, 14)

  function RegStep(r: Reg): Reg {
    if IsOdd(r.a) then XorReg(HalfReg(r), POLYNOMIAL_REG) else HalfReg(r)
  }

  function RegSteps(r: Reg, n: nat): Reg
    decreases n
  {
    if n == 0 then r else RegSteps(RegStep(r), n - 1)
  }

  lemma SlidBits(x: bv4, carry: bool)
    ensures FourBits(Slid(x, carry)) == FourBits(x)[1..] + [carry]
  {
  }

  lemma SlidOver(x: bv4, more: Bits, slid: Bits)
    requires more != [] && slid == more[1..] + [false]
    ensures FourBits(Slid(x, more[0])) + slid == (FourBits(x) + more)[1..] + [false]
  {
    SlidBits(x, more[0]);
    var four := FourBits(x);
    assert (four + more)[1..] == four[1..] + more && more == [more[0]] + more[1..];
  }

  lemma HalfRegBits(r: Reg)
    ensures RegBits(HalfReg(r)) == RegBits(r)[1..] + [false]
  {
    var s := HalfReg(r);
    HighHalf(r, s);
    var e, e' := HighBits(r), HighBits(s);
    var d, d' := FourBits(r.d) + e, FourBits(s.d) + e';
    var c, c' := FourBits(r.c) + d, FourBits(s.c) + d';
    var b, b' := FourBits(r.b) + c, FourBits(s.b) + c';
    SlidOver(r.d, e, e');
    SlidOver(r.c, d, d');
    SlidOver(r.b, c, c');
    SlidOver(r.a, b, b');
  }

  function HighBits(r: Reg): (bits: Bits)
    ensures |bits| == 16
  {
    FourBits(r.e) + (FourBits(r.f) + (FourBits(r.g) + FourBits(r.h)))
  }

  lemma HighHalf(r: Reg, s: Reg)
    requires s == HalfReg(r)
    ensures HighBits(s) == HighBits(r)[1..] + [false]
  {
    var h, h' := FourBits(r.h), FourBits(s.h);
    var g, g' := FourBits(r.g) + h, FourBits(s.g) + h';
    var f, f' := FourBits(r.f) + g, FourBits(s.f) + g';
    SlidBits(r.h, false);
    SlidOver(r.g, h, h');
    SlidOver(r.f, g, g');
    SlidOver(r.e, f, f');
  }

  lemma FourXor(x: bv4, y: bv4)
    ensures FourBits(x ^ y) == Minus(FourBits(x), FourBits(y))
  {
    var a, b := FourBits(x), FourBits(y);
    forall i | 0 <= i < 4 ensures FourBits(x ^ y)[i] == (a[i] != b[i]) { DigitXor(x, y); }
    IsMinus(a, b, FourBits(x ^ y));
  }

  lemma DigitXor(x: bv4, y: bv4)
    ensures FourBits(x ^ y)[0] == (FourBits(x)[0] != FourBits(y)[0]) && FourBits(x ^ y)[1] == (FourBits(x)[1] != FourBits(y)[1])
    ensures FourBits(x ^ y)[2] == (FourBits(x)[2] != FourBits(y)[2]) && FourBits(x ^ y)[3] == (FourBits(x)[3] != FourBits(y)[3])
  {
  }

  lemma MinusConcat(a: Bits, b: Bits, c: Bits, d: Bits)
    requires |a| == |c| && |b| == |d|
    ensures Minus(a + b, c + d) == Minus(a, c) + Minus(b, d)
  {
    forall i | 0 <= i < |a + b| ensures (Minus(a, c) + Minus(b, d))[i] == ((a + b)[i] != (c + d)[i]) {
      if i < |a| { MinusAt(a, c, i); } else { MinusAt(b, d, i - |a|); }
    }
    IsMinus(a + b, c + d, Minus(a, c) + Minus(b, d));
  }

  /** One digit more of an exclusive or. */
  lemma XorOver(x: bv4, y: bv4, a: Bits, b: Bits, c: Bits)
    requires |a| == |b| && c == Minus(a, b)
    ensures FourBits(x ^ y) + c == Minus(FourBits(x) + a, FourBits(y) + b)
  {
    FourXor(x, y);
    MinusConcat(FourBits(x), a, FourBits(y), b);
  }

  lemma XorRegBits(r: Reg, s: Reg)
    ensures RegBits(XorReg(r, s)) == Minus(RegBits(r), RegBits(s))
  {
    var t := XorReg(r, s);
    var h, h', h'' := FourBits(r.h), FourBits(s.h), FourBits(t.h);
    var g, g', g'' := FourBits(r.g) + h, FourBits(s.g) + h', FourBits(t.g) + h'';
    var f, f', f'' := FourBits(r.f) + g, FourBits(s.f) + g', FourBits(t.f) + g'';
    var e, e', e'' := FourBits(r.e) + f, FourBits(s.e) + f', FourBits(t.e) + f'';
    var d, d', d'' := FourBits(r.d) + e, FourBits(s.d) + e', FourBits(t.d) + e'';
    var c, c', c'' := FourBits(r.c) + d, FourBits(s.c) + d', FourBits(t.c) + d'';
    FourXor(r.h, s.h);
    XorOver(r.g, s.g, h, h', h'');
    XorOver(r.f, s.f, g, g', g'');
    XorOver(r.e, s.e, f, f', f'');
    XorOver(r.d, s.d, e, e', e'');
    XorOver(r.c, s.c, d, d', d'');
    XorOver(r.b, s.b, c, c', c'');
    XorOver(r.a, s.a, FourBits(r.b) + c, FourBits(s.b) + c', FourBits(t.b) + c'');
  }

  function Digit(x: bv4): nat {
    (if x & 1 == 1 then 1 else 0) + (if x & 2 == 2 then 2 else 0) + (if x & 4 == 4 then 4 else 0) + (if x & 8 == 8 then 8 else 0)
  }

  lemma DigitValue(x: bv4, rest: Bits)
    ensures Value(FourBits(x) + rest) == Digit(x) + 16 * Value(rest)
  {
    var a, b, c, d := x & 1 == 1, x & 2 == 2, x & 4 == 4, x & 8 == 8;
    FourFirst(a, b, c, d, rest);
    FirstValue(d, rest);
    FirstValue(c, [d] + rest);
    FirstValue(b, [c] + ([d] + rest));
    FirstValue(a, [b] + ([c] + ([d] + rest)));
  }

  lemma FourFirst(a: bool, b: bool, c: bool, d: bool, rest: Bits)
    ensures [a] + ([b] + ([c] + ([d] + rest))) == [a, b, c, d] + rest
  {
  }

  lemma FirstValue(bit: bool, rest: Bits)
    ensures Value([bit] + rest) == (if bit then 1 else 0) + 2 * Value(rest)
  {
    assert ([bit] + rest)[1..] == rest;
  }

  function Number(r: Reg): nat {
    Digit(r.a) + 0x10 * Digit(r.b) + 0x100 * Digit(r.c) + 0x1000 * Digit(r.d)
    + 0x1_0000 * Digit(r.e) + 0x10_0000 * Digit(r.f) + 0x100_0000 * Digit(r.g) + 0x1000_0000 * Digit(r.h)
  }

  lemma RegValue(r: Reg)
    ensures Value(RegBits(r)) == Number(r)
  {
    var h := FourBits(r.h);
    var g := FourBits(r.g) + h;
    var f := FourBits(r.f) + g;
    var e := FourBits(r.e) + f;
    var d := FourBits(r.d) + e;
    var c := FourBits(r.c) + d;
    var b := FourBits(r.b) + c;
    DigitValue(r.a, b);
    DigitValue(r.b, c);
    DigitValue(r.c, d);
    DigitValue(r.d, e);
    DigitValue(r.e, f);
    DigitValue(r.f, g);
    DigitValue(r.g, h);
    DigitValue(r.h, []);
    assert h + [] == h;
  }

  lemma NumberBits(r: Reg, v: nat)
    requires Number(r) == v
    ensures Low(v, 32) == RegBits(r)
  {
    RegValue(r);
    LowOfValue(RegBits(r));
  }

  lemma RegStepShifts(r: Reg)
    ensures RegBits(RegStep(r)) == Shift(RegBits(r), false)
  {
    HalfRegBits(r);
    if IsOdd(r.a) {
      XorRegBits(HalfReg(r), POLYNOMIAL_REG);
      NumberBits(POLYNOMIAL_REG, POLYNOMIAL);
      PolynomialIsGenerator();
    }
  }

  lemma {:induction false} RegStepsShift(r: Reg, n: nat)
    ensures RegBits(RegSteps(r, n)) == ShiftAll(RegBits(r), Zeros(n))
    decreases n
  {
    if n > 0 {
      RegStepShifts(r);
      RegStepsShift(RegStep(r), n - 1);
      assert Zeros(n)[1..] == Zeros(n - 1);
    }
  }

  /** A decimal digit in the register. */
  function DigitReg(e: bv4): Reg {
    Reg(e, 3, 0, 0, 0, 0, 0, 0)
  }

  lemma DigitBits(x: byte, e: bv4, n: nat, m: nat)
    requires x == 48 + Digit(e) && n == 8 && m == 24
    ensures RegBits(DigitReg(e)) == Low(x, n) + Zeros(m)
  {
    DigitNumber(x, e);
    NumberBits(DigitReg(e), x);
    ByteIsEightBits();
    LowBeyond(x, n, m);
  }

  lemma DigitNumber(x: byte, e: bv4)
    requires x == 48 + Digit(e)
    ensures Number(DigitReg(e)) == x
  {
    assert Digit(3) == 3 && Digit(0) == 0;
  }

  lemma DigitGoesIn(r: Reg, x: byte, e: bv4, after: Reg)
    requires x == 48 + Digit(e) && RegSteps(XorReg(r, DigitReg(e)), 8) == after
    ensures ShiftAll(RegBits(r), Low(x, 8)) == RegBits(after)
  {
    DigitBits(x, e, 8, 24);
    RegStepsShift(XorReg(r, DigitReg(e)), 8);
    XorRegBits(r, DigitReg(e));
    LaidAtOnce(RegBits(r), Low(x, 8));
  }

  lemma FirstBitsGoIn(reg: Bits, data: seq<byte>)
    requires |reg| == 32 && data != []
    ensures ShiftAll(reg, MessageBits(data)) == ShiftAll(ShiftAll(reg, Low(data[0], 8)), MessageBits(data[1..]))
  {
    ShiftAllConcat(reg, Low(data[0], 8), MessageBits(data[1..]));
  }

  lemma Digit1GoesIn(r: Reg, d: seq<byte>)
    requires r == Reg(15, 15, 15, 15, 15, 15, 15, 15) && d != [] && d[0] == 49
    ensures ShiftAll(RegBits(r), MessageBits(d)) == ShiftAll(RegBits(Reg(8, 4, 0, 1, 3, 2, 12, 7)), MessageBits(d[1..]))
  {
    DigitGoesIn(r, 49, 1, Reg(8, 4, 0, 1, 3, 2, 12, 7));
    FirstBitsGoIn(RegBits(r), d);
  }

  lemma Digit2GoesIn(r: Reg, d: seq<byte>)
    requires r == Reg(8, 4, 0, 1, 3, 2, 12, 7) && d != [] && d[0] == 50
    ensures ShiftAll(RegBits(r), MessageBits(d)) == ShiftAll(RegBits(Reg(2, 3, 11, 11, 12, 10, 0, 11)), MessageBits(d[1..]))
  {
    DigitGoesIn(r, 50, 2, Reg(2, 3, 11, 11, 12, 10, 0, 11));
    FirstBitsGoIn(RegBits(r), d);
  }

  lemma Digit3GoesIn(r: Reg, d: seq<byte>)
    requires r == Reg(2, 3, 11, 11, 12, 10, 0, 11) && d != [] && d[0] == 51
    ensures ShiftAll(RegBits(r), MessageBits(d)) == ShiftAll(RegBits(Reg(13, 2, 12, 9, 7, 11, 7, 7)), MessageBits(d[1..]))
  {
    DigitGoesIn(r, 51, 3, Reg(13, 2, 12, 9, 7, 11, 7, 7));
    FirstBitsGoIn(RegBits(r), d);
  }

  lemma Digit4GoesIn(r: Reg, d: seq<byte>)
    requires r == Reg(13, 2, 12, 9, 7, 11, 7, 7) && d != [] && d[0] == 52
    ensures ShiftAll(RegBits(r), MessageBits(d)) == ShiftAll(RegBits(Reg(12, 5, 15, 1, 12, 1, 4, 6)), MessageBits(d[1..]))
  {
    DigitGoesIn(r, 52, 4, Reg(12, 5, 15, 1, 12, 1, 4, 6));
    FirstBitsGoIn(RegBits(r), d);
  }

  lemma Digit5GoesIn(r: Reg, d: seq<byte>)
    requires r == Reg(12, 5, 15, 1, 12, 1, 4, 6) && d != [] && d[0] == 53
    ensures ShiftAll(RegBits(r), MessageBits(d)) == ShiftAll(RegBits(Reg(3, 14, 5, 12, 10, 0, 4, 3)), MessageBits(d[1..]))
  {
    DigitGoesIn(r, 53, 5, Reg(3, 14, 5, 12, 10, 0, 4, 3));
    FirstBitsGoIn(RegBits(r), d);
  }

  lemma Digit6GoesIn(r: Reg, d: seq<byte>)
    requires r == Reg(3, 14, 5, 12, 10, 0, 4, 3) && d != [] && d[0] == 54
    ensures ShiftAll(RegBits(r), MessageBits(d)) == ShiftAll(RegBits(Reg(14, 9, 12, 2, 13, 8, 6, 15)), MessageBits(d[1..]))
  {
    DigitGoesIn(r, 54, 6, Reg(14, 9, 12, 2, 13, 8, 6, 15));
    FirstBitsGoIn(RegBits(r), d);
  }

  lemma Digit7GoesIn(r: Reg, d: seq<byte>)
    requires r == Reg(14, 9, 12, 2, 13, 8, 6, 15) && d != [] && d[0] == 55
    ensures ShiftAll(RegBits(r), MessageBits(d)) == ShiftAll(RegBits(Reg(0, 6, 6, 9, 12, 15, 15, 10)), MessageBits(d[1..]))
  {
    DigitGoesIn(r, 55, 7, Reg(0, 6, 6, 9, 12, 15, 15, 10));
    FirstBitsGoIn(RegBits(r), d);
  }

  lemma Digit8GoesIn(r: Reg, d: seq<byte>)
    requires r == Reg(0, 6, 6, 9, 12, 15, 15, 10) && d != [] && d[0] == 56
    ensures ShiftAll(RegBits(r), MessageBits(d)) == ShiftAll(RegBits(Reg(0, 5, 5, 2, 15, 1, 5, 6)), MessageBits(d[1..]))
  {
    DigitGoesIn(r, 56, 8, Reg(0, 5, 5, 2, 15, 1, 5, 6));
    FirstBitsGoIn(RegBits(r), d);
  }

  lemma Digit9GoesIn(r: Reg, d: seq<byte>)
    requires r == Reg(0, 5, 5, 2, 15, 1, 5, 6) && d != [] && d[0] == 57
    ensures ShiftAll(RegBits(r), MessageBits(d)) == ShiftAll(RegBits(Reg(9, 13, 6, 12, 11, 0, 4, 3)), MessageBits(d[1..]))
  {
    DigitGoesIn(r, 57, 9, Reg(9, 13, 6, 12, 11, 0, 4, 3));
    FirstBitsGoIn(RegBits(r), d);
  }

  /** The register after the nine digits. */
  lemma NineDigits(d: seq<byte>)
    requires d == [49, 50, 51, 52, 53, 54, 55, 56, 57]
    ensures ShiftAll(RegBits(Reg(15, 15, 15, 15, 15, 15, 15, 15)), MessageBits(d)) == RegBits(Reg(9, 13, 6, 12, 11, 0, 4, 3))
  {
    Tails(d);
    Digit1GoesIn(Reg(15, 15, 15, 15, 15, 15, 15, 15), d[0..]);
    Digit2GoesIn(Reg(8, 4, 0, 1, 3, 2, 12, 7), d[1..]);
    Digit3GoesIn(Reg(2, 3, 11, 11, 12, 10, 0, 11), d[2..]);
    Digit4GoesIn(Reg(13, 2, 12, 9, 7, 11, 7, 7), d[3..]);
    Digit5GoesIn(Reg(12, 5, 15, 1, 12, 1, 4, 6), d[4..]);
    Digit6GoesIn(Reg(3, 14, 5, 12, 10, 0, 4, 3), d[5..]);
    Digit7GoesIn(Reg(14, 9, 12, 2, 13, 8, 6, 15), d[6..]);
    Digit8GoesIn(Reg(0, 6, 6, 9, 12, 15, 15, 10), d[7..]);
    Digit9GoesIn(Reg(0, 5, 5, 2, 15, 1, 5, 6), d[8..]);
    assert MessageBits(d[9..]) == [];
  }

  lemma Tails(d: seq<byte>)
    requires |d| == 9
    ensures forall k :: 0 <= k < 9 ==> d[k..][1..] == d[k + 1..]
    ensures d[0..] == d && d[9..] == []
  {
  }

  lemma CheckRegister(d: seq<byte>, first: Reg, after: Reg, last: word)
    requires d == [49, 50, 51, 52, 53, 54, 55, 56, 57]
    requires first == Reg(15, 15, 15, 15, 15, 15, 15, 15) && Number(first) == ALL_ONES
    requires after == Reg(9, 13, 6, 12, 11, 0, 4, 3) && Number(after) == last
    ensures Feed(ALL_ONES, d) == last
  {
    FeedShifts(ALL_ONES, d);
    NumberBits(first, ALL_ONES);
    NineDigits(d);
    NumberBits(after, last);
    SameWord(Feed(ALL_ONES, d), last);
  }

  lemma SameWord(c: word, d: word)
    requires Low(c, 32) == Low(d, 32)
    ensures c == d
  {
    WordBound(c);
    ValueOfLow(c, 32);
    WordBound(d);
    ValueOfLow(d, 32);
  }

  /** The checksum of the text 123456789, by which implementations are compared. */
  lemma CheckValue(d: seq<byte>)
    requires d == [49, 50, 51, 52, 53, 54, 55, 56, 57]
    ensures Crc(d) == 0xCBF4_3926
  {
    CheckRegister(d, Reg(15, 15, 15, 15, 15, 15, 15, 15), Reg(9, 13, 6, 12, 11, 0, 4, 3), 0x340B_C6D9);
  }
}
