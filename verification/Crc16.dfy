/** getCRC16 of xv6-riscv/kernel/sdcard.c against polynomials over GF(2): a message is a polynomial,
    and its CRC the remainder of message * x^16 by x^16 + x^12 + x^5 + 1 (section 4.5 of the SD
    Physical Layer Simplified Specification). */
module Crc16 {

  // ----- Polynomials: p[e] is the coefficient of x^e, and those beyond |p| are 0 -----

  type Poly = seq<bool>

  predicate Coef(p: Poly, e: int) { 0 <= e < |p| && p[e] }

  function Add(a: Poly, b: Poly): (r: Poly)
    ensures forall e: int :: Coef(r, e) == (Coef(a, e) != Coef(b, e))
  {
    seq(if |a| > |b| then |a| else |b|, e => Coef(a, e) != Coef(b, e))
  }

  /** a * x^k. */
  function Shift(a: Poly, k: nat): (r: Poly)
    ensures forall e: int :: Coef(r, e) == Coef(a, e - k)
  {
    seq(k, _ => false) + a
  }

  /** Coefficient e of q * (x^16 + x^12 + x^5 + 1). */
  predicate TimesG(q: Poly, e: int) {
    ((Coef(q, e - 16) != Coef(q, e - 12)) != Coef(q, e - 5)) != Coef(q, e)
  }

  ghost predicate IsMultiple(p: Poly, q: Poly) {
    forall e: int {:trigger Coef(p, e)} :: Coef(p, e) == TimesG(q, e)
  }

  /** a and b leave the same remainder. */
  ghost predicate Congruent(a: Poly, b: Poly) {
    exists q :: IsMultiple(Add(a, b), q)
  }

  lemma CongruentSame(a: Poly, b: Poly)
    requires forall e: int :: Coef(a, e) == Coef(b, e)
    ensures Congruent(a, b)
  {
    assert IsMultiple(Add(a, b), []);
  }

  lemma CongruentTrans(a: Poly, b: Poly, c: Poly)
    requires Congruent(a, b) && Congruent(b, c)
    ensures Congruent(a, c)
  {
    var q1 :| IsMultiple(Add(a, b), q1);
    var q2 :| IsMultiple(Add(b, c), q2);
    forall e: int ensures Coef(Add(a, c), e) == TimesG(Add(q1, q2), e) {
      assert Coef(Add(a, b), e) == TimesG(q1, e) && Coef(Add(b, c), e) == TimesG(q2, e);
    }
    assert IsMultiple(Add(a, c), Add(q1, q2));
  }

  lemma CongruentSym(a: Poly, b: Poly)
    requires Congruent(a, b)
    ensures Congruent(b, a)
  {
    var q :| IsMultiple(Add(a, b), q);
    assert IsMultiple(Add(b, a), q) by {
      forall e: int ensures Coef(Add(b, a), e) == TimesG(q, e) {
        assert Coef(Add(a, b), e) == TimesG(q, e);
      }
    }
  }

  lemma CongruentAdd(a: Poly, b: Poly, c: Poly, d: Poly)
    requires Congruent(a, b) && Congruent(c, d)
    ensures Congruent(Add(a, c), Add(b, d))
  {
    var q1 :| IsMultiple(Add(a, b), q1);
    var q2 :| IsMultiple(Add(c, d), q2);
    var l := Add(Add(a, c), Add(b, d));
    forall e: int ensures Coef(l, e) == TimesG(Add(q1, q2), e) {
      assert Coef(Add(a, b), e) == TimesG(q1, e) && Coef(Add(c, d), e) == TimesG(q2, e);
    }
    assert IsMultiple(l, Add(q1, q2));
  }

  lemma CongruentShift(a: Poly, b: Poly, k: nat)
    requires Congruent(a, b)
    ensures Congruent(Shift(a, k), Shift(b, k))
  {
    var q :| IsMultiple(Add(a, b), q);
    var l := Add(Shift(a, k), Shift(b, k));
    forall e: int ensures Coef(l, e) == TimesG(Shift(q, k), e) {
      assert Coef(Add(a, b), e - k) == TimesG(q, e - k);
    }
    assert IsMultiple(l, Shift(q, k));
  }

  // ----- Multiples of the generator spread over more than 16 coefficients -----

  lemma {:induction false} Lowest(q: Poly, hi: nat) returns (e: nat)
    requires hi < |q| && q[hi]
    ensures e <= hi && q[e] && forall k :: 0 <= k < e ==> !q[k]
    decreases hi
  {
    if k :| 0 <= k < hi && q[k] {
      e := Lowest(q, k);
    } else {
      e := hi;
    }
  }

  lemma {:induction false} Highest(q: Poly, lo: nat) returns (e: nat)
    requires lo < |q| && q[lo]
    ensures lo <= e < |q| && q[e] && forall k :: e < k < |q| ==> !q[k]
    decreases |q| - lo
  {
    if k :| lo < k < |q| && q[k] {
      e := Highest(q, k);
    } else {
      e := lo;
    }
  }

  /** The lowest and the highest coefficient of a multiple are at least 16 places apart. */
  lemma Spread(p: Poly, q: Poly, i: nat) returns (a: nat, b: nat)
    requires IsMultiple(p, q) && i < |q| && q[i]
    ensures Coef(p, a) && Coef(p, b) && b >= a + 16
  {
    a := Lowest(q, i);
    b := Highest(q, i);
    assert Coef(p, a) == TimesG(q, a);
    assert Coef(p, b + 16) == TimesG(q, b + 16);
    b := b + 16;
  }

  /** A multiple whose nonzero coefficients lie within 16 places is 0. */
  lemma NarrowMultiple(p: Poly, q: Poly, lo: int)
    requires IsMultiple(p, q) && forall e: int :: Coef(p, e) ==> lo <= e < lo + 16
    ensures forall e: int :: !Coef(q, e) && !Coef(p, e)
  {
    if i :| 0 <= i < |q| && q[i] {
      var a, b := Spread(p, q, i);
    }
    forall e: int ensures !Coef(q, e) && !Coef(p, e) {
      assert Coef(p, e) == TimesG(q, e);
    }
  }

  /** Remainders are unique. */
  lemma RemainderUnique(a: Poly, b: Poly)
    requires |a| <= 16 && |b| <= 16 && Congruent(a, b)
    ensures forall e: int :: Coef(a, e) == Coef(b, e)
  {
    var q :| IsMultiple(Add(a, b), q);
    NarrowMultiple(Add(a, b), q, 0);
    forall e: int ensures Coef(a, e) == Coef(b, e) {
      assert !Coef(Add(a, b), e);
    }
  }

  // ----- Words -----

  function Mask(k: nat): bv32
    requires k <= 16
  {
    if k == 0 then 1 else if k == 1 then 2 else if k == 2 then 4 else if k == 3 then 8 else if k == 4 then 0x10
    else if k == 5 then 0x20 else if k == 6 then 0x40 else if k == 7 then 0x80 else if k == 8 then 0x100
    else if k == 9 then 0x200 else if k == 10 then 0x400 else if k == 11 then 0x800 else if k == 12 then 0x1000
    else if k == 13 then 0x2000 else if k == 14 then 0x4000 else if k == 15 then 0x8000 else 0x1_0000
  }

  predicate Bit(c: bv32, k: nat)
    requires k <= 16
  {
    c & Mask(k) != 0
  }

  /** The polynomial of the low n bits. */
  function Bits(c: bv32, n: nat): (p: Poly)
    requires n <= 17
    ensures |p| == n && forall e :: 0 <= e < n ==> p[e] == Bit(c, e)
  {
    seq(n, e requires 0 <= e < n => Bit(c, e))
  }

  lemma XorBit(c: bv32, d: bv32, k: nat)
    requires k <= 16
    ensures Bit(c ^ d, k) == (Bit(c, k) != Bit(d, k))
  {
    OneBit(k);
    hide Mask;
    XorMask(c, d, Mask(k));
  }

  lemma OneBit(k: nat)
    requires k <= 16
    ensures Mask(k) & (Mask(k) - 1) == 0
  {
  }

  lemma XorMask(c: bv32, d: bv32, m: bv32)
    requires m & (m - 1) == 0
    ensures ((c ^ d) & m != 0) == ((c & m != 0) != (d & m != 0))
  {
  }

  lemma DoubleBit(c: bv32, k: nat)
    requires k <= 16
    ensures Bit(c << 1, k) == (k > 0 && Bit(c, k - 1))
  {
  }

  lemma HighByteBit(b: bv32, k: nat)
    requires k <= 16 && b < 256
    ensures Bit(b << 8, k) == (8 <= k < 16 && Bit(b, k - 8))
  {
  }

  lemma GeneratorBit(k: nat)
    requires k <= 16
    ensures Bit(0x11021, k) <==> k in {0, 5, 12, 16}
  {
  }

  lemma SmallWord(c: bv32)
    ensures c < 0x1_0000 ==> !Bit(c, 16)
    ensures c < 0x2_0000 && !Bit(c, 16) ==> c < 0x1_0000
  {
  }

  lemma ZeroWord(c: bv32)
    requires c < 0x1_0000 && forall k: nat :: k < 16 ==> !Bit(c, k)
    ensures c == 0
  {
    assert !Bit(c, 0) && !Bit(c, 1) && !Bit(c, 2) && !Bit(c, 3) && !Bit(c, 4) && !Bit(c, 5) && !Bit(c, 6) && !Bit(c, 7);
    assert !Bit(c, 8) && !Bit(c, 9) && !Bit(c, 10) && !Bit(c, 11) && !Bit(c, 12) && !Bit(c, 13) && !Bit(c, 14) && !Bit(c, 15);
  }

  // ----- Messages -----

  /** Bytes first to last, each from its high bit. */
  function Message(m: seq<bv8>): (p: Poly)
    ensures |p| == 8 * |m|
  {
    seq(8 * |m|, e requires 0 <= e < 8 * |m| => MessageBit(m, e))
  }

  predicate MessageBit(m: seq<bv8>, e: nat)
    requires e < 8 * |m|
  {
    ByteBit(m[|m| - 1 - e / 8], e % 8)
  }

  predicate ByteBit(b: bv8, k: nat)
    requires k < 8
  {
    Bit(b as bv32, k)
  }

  lemma MessageAdd(m: seq<bv8>, b: bv8, e: int)
    ensures Coef(Message(m + [b]), e) == if 0 <= e < 8 then ByteBit(b, e) else Coef(Message(m), e - 8)
  {
    if 8 <= e < 8 * |m| + 8 {
      assert (m + [b])[|m| - e / 8] == m[|m| - 1 - (e - 8) / 8];
    }
  }

  /** c is the remainder of m * x^16. */
  ghost predicate IsCrc(m: seq<bv8>, c: bv32) {
    c < 0x1_0000 && Congruent(Shift(Message(m), 16), Bits(c, 16))
  }

  // ----- getCRC16 -----

  /** One shift of the register: times x, modulo the generator. */
  lemma ShiftStep(c: bv32, d: bv32)
    requires c < 0x1_0000 && d == if (c << 1) & 0x1_0000 != 0 then (c << 1) ^ 0x11021 else c << 1
    ensures d < 0x1_0000 && Congruent(Shift(Bits(c, 16), 1), Bits(d, 16))
  {
    StepSmall(c, d);
    SmallWord(c);
    SmallWord(d);
    var top := Bit(c << 1, 16);
    forall e: nat | e <= 16 ensures Bit(d, e) == ((e > 0 && Bit(c, e - 1)) != (top && e in {0, 5, 12, 16})) {
      StepBit(c, d, e);
    }
    hide Bit;
    var q: Poly := [top];
    var l := Add(Shift(Bits(c, 16), 1), Bits(d, 16));
    forall e: int ensures Coef(l, e) == TimesG(q, e) {
      assert TimesG(q, e) == (top && e in {0, 5, 12, 16});
    }
    assert IsMultiple(l, q);
  }

  lemma StepBit(c: bv32, d: bv32, e: nat)
    requires e <= 16 && d == if (c << 1) & 0x1_0000 != 0 then (c << 1) ^ 0x11021 else c << 1
    ensures Bit(d, e) == ((e > 0 && Bit(c, e - 1)) != (Bit(c << 1, 16) && e in {0, 5, 12, 16}))
  {
    TopBit(c << 1);
    DoubleBit(c, e);
    GeneratorBit(e);
    hide Bit;
    if Bit(c << 1, 16) {
      XorBit(c << 1, 0x11021, e);
    }
  }

  lemma TopBit(c: bv32)
    ensures Bit(c, 16) == (c & 0x1_0000 != 0)
  {
  }

  lemma StepSmall(c: bv32, d: bv32)
    requires c < 0x1_0000 && d == if (c << 1) & 0x1_0000 != 0 then (c << 1) ^ 0x11021 else c << 1
    ensures d < 0x1_0000
  {
  }

  /** crc ^= message[i] << 8 adds the byte to the high half. */
  lemma XorByte(m: seq<bv8>, b: bv8, c: bv32)
    requires IsCrc(m, c)
    ensures c ^ ((b as bv32) << 8) < 0x1_0000
    ensures Congruent(Shift(Message(m + [b]), 16), Shift(Bits(c ^ ((b as bv32) << 8), 16), 8))
  {
    var d := c ^ ((b as bv32) << 8);
    assert b as bv32 < 256;
    XorSmall(c, b as bv32);
    var h: Poly := Shift(Shift(Message([b]), 8), 8);
    CongruentShift(Shift(Message(m), 16), Bits(c, 16), 8);
    CongruentSame(h, h);
    CongruentAdd(Shift(Shift(Message(m), 16), 8), Shift(Bits(c, 16), 8), h, h);
    var x := Shift(Message(m + [b]), 16);
    var y := Add(Shift(Shift(Message(m), 16), 8), h);
    forall e: int ensures Coef(x, e) == Coef(y, e) {
      MessageAdd(m, b, e - 16);
      MessageAdd([], b, e - 16);
      assert [] + [b] == [b];
    }
    CongruentSame(x, y);
    CongruentTrans(x, y, Add(Shift(Bits(c, 16), 8), h));
    var z := Shift(Bits(d, 16), 8);
    forall e: int ensures Coef(Add(Shift(Bits(c, 16), 8), h), e) == Coef(z, e) {
      ByteAdded(c, b, e - 8);
    }
    CongruentSame(Add(Shift(Bits(c, 16), 8), h), z);
    CongruentTrans(x, Add(Shift(Bits(c, 16), 8), h), z);
  }

  lemma XorSmall(c: bv32, b: bv32)
    requires c < 0x1_0000 && b < 256
    ensures c ^ (b << 8) < 0x1_0000
  {
  }

  lemma ByteAdded(c: bv32, b: bv8, e: int)
    ensures Coef(Bits(c ^ ((b as bv32) << 8), 16), e) == (Coef(Bits(c, 16), e) != Coef(Shift(Message([b]), 8), e))
  {
    assert [] + [b] == [b];
    MessageAdd([], b, e - 8);
    if 0 <= e < 16 { HighBits(c, b, e); }
    hide Bit, Message;
  }

  lemma HighBits(c: bv32, b: bv8, e: nat)
    requires e < 16
    ensures Bit(c ^ ((b as bv32) << 8), e) == (Bit(c, e) != (e >= 8 && ByteBit(b, e - 8)))
  {
    assert b as bv32 < 256;
    hide Bit;
    XorBit(c, (b as bv32) << 8, e);
    HighByteBit(b as bv32, e);
  }

  /** getCRC16 computes the remainder of message * x^16, below 2^16. */
  method GetCRC16(message: seq<bv8>) returns (crc: bv32)
    ensures IsCrc(message, crc)
  {
    crc := 0;
    EmptyCrc();
    var i := 0;
    while i < |message|
      invariant i <= |message| && IsCrc(message[..i], crc)
    {
      ghost var m1 := Shift(Message(message[..i] + [message[i]]), 16);
      XorByte(message[..i], message[i], crc);
      crc := crc ^ ((message[i] as bv32) << 8);
      var j := 0;
      while j < 8
        invariant j <= 8 && crc < 0x1_0000 && Congruent(m1, Shift(Bits(crc, 16), 8 - j))
      {
        ghost var c0 := crc;
        crc := crc << 1;
        if crc & 0x1_0000 != 0 {
          crc := crc ^ 0x11021;
        }
        BitDone(m1, c0, crc, 8 - j);
        j := j + 1;
      }
      ByteDone(m1, crc);
      assert message[..i + 1] == message[..i] + [message[i]];
      i := i + 1;
    }
    assert message[..i] == message;
  }

  lemma EmptyCrc()
    ensures IsCrc([], 0)
  {
    CongruentSame(Shift(Message([]), 16), Bits(0, 16));
  }

  lemma BitDone(m: Poly, c: bv32, d: bv32, k: nat)
    requires k > 0 && c < 0x1_0000 && Congruent(m, Shift(Bits(c, 16), k))
    requires d == if (c << 1) & 0x1_0000 != 0 then (c << 1) ^ 0x11021 else c << 1
    ensures d < 0x1_0000 && Congruent(m, Shift(Bits(d, 16), k - 1))
  {
    ShiftStep(c, d);
    ShiftOn(m, Bits(c, 16), Bits(d, 16), k);
  }

  lemma ShiftOn(m: Poly, p: Poly, q: Poly, k: nat)
    requires k > 0 && Congruent(m, Shift(p, k)) && Congruent(Shift(p, 1), q)
    ensures Congruent(m, Shift(q, k - 1))
  {
    hide Congruent;
    CongruentShift(Shift(p, 1), q, k - 1);
    CongruentSame(Shift(p, k), Shift(Shift(p, 1), k - 1));
    CongruentTrans(m, Shift(p, k), Shift(Shift(p, 1), k - 1));
    CongruentTrans(m, Shift(Shift(p, 1), k - 1), Shift(q, k - 1));
  }

  lemma ByteDone(m: Poly, c: bv32)
    requires Congruent(m, Shift(Bits(c, 16), 0))
    ensures Congruent(m, Bits(c, 16))
  {
    CongruentSame(Shift(Bits(c, 16), 0), Bits(c, 16));
    CongruentTrans(m, Shift(Bits(c, 16), 0), Bits(c, 16));
  }

  // ----- What the remainder is good for -----

  /** A message has one CRC. */
  lemma CrcUnique(m: seq<bv8>, c: bv32, d: bv32)
    requires IsCrc(m, c) && IsCrc(m, d)
    ensures c == d
  {
    var p := Shift(Message(m), 16);
    CongruentSym(p, Bits(c, 16));
    CongruentTrans(Bits(c, 16), p, Bits(d, 16));
    RemainderUnique(Bits(c, 16), Bits(d, 16));
    SameBits(c, d);
  }

  lemma SameBits(c: bv32, d: bv32)
    requires c < 0x1_0000 && d < 0x1_0000 && forall e: int :: Coef(Bits(c, 16), e) == Coef(Bits(d, 16), e)
    ensures c == d
  {
    hide Bit;
    var x := c ^ d;
    forall k: nat | k < 16 ensures !Bit(x, k) {
      XorBit(c, d, k);
      assert Coef(Bits(c, 16), k) == Coef(Bits(d, 16), k);
    }
    XorZero(c, d);
    ZeroWord(x);
  }

  lemma XorZero(c: bv32, d: bv32)
    requires c < 0x1_0000 && d < 0x1_0000
    ensures c ^ d < 0x1_0000 && (c ^ d == 0 ==> c == d)
  {
  }

  function XorBytes(a: seq<bv8>, b: seq<bv8>): (r: seq<bv8>)
    requires |a| == |b|
    ensures |r| == |a|
  {
    seq(|a|, i requires 0 <= i < |a| => a[i] ^ b[i])
  }

  /** The CRC is linear. */
  lemma CrcLinear(a: seq<bv8>, b: seq<bv8>, c: bv32, d: bv32)
    requires |a| == |b| && IsCrc(a, c) && IsCrc(b, d)
    ensures IsCrc(XorBytes(a, b), c ^ d)
  {
    XorZero(c, d);
    var x := XorBytes(a, b);
    CongruentAdd(Shift(Message(a), 16), Bits(c, 16), Shift(Message(b), 16), Bits(d, 16));
    var l := Add(Shift(Message(a), 16), Shift(Message(b), 16));
    forall e: int ensures Coef(Shift(Message(x), 16), e) == Coef(l, e) {
      XorMessage(a, b, e - 16);
    }
    CongruentSame(Shift(Message(x), 16), l);
    CongruentTrans(Shift(Message(x), 16), l, Add(Bits(c, 16), Bits(d, 16)));
    forall e: int ensures Coef(Add(Bits(c, 16), Bits(d, 16)), e) == Coef(Bits(c ^ d, 16), e) {
      if 0 <= e < 16 { XorBit(c, d, e); }
    }
    CongruentSame(Add(Bits(c, 16), Bits(d, 16)), Bits(c ^ d, 16));
    CongruentTrans(Shift(Message(x), 16), Add(Bits(c, 16), Bits(d, 16)), Bits(c ^ d, 16));
  }

  lemma XorMessage(a: seq<bv8>, b: seq<bv8>, e: int)
    requires |a| == |b|
    ensures Coef(Message(XorBytes(a, b)), e) == (Coef(Message(a), e) != Coef(Message(b), e))
  {
    MessageCoef(a, e);
    MessageCoef(b, e);
    MessageCoef(XorBytes(a, b), e);
    hide Message, ByteBit;
    if 0 <= e < 8 * |a| {
      XorByteBit(a[|a| - 1 - e / 8], b[|a| - 1 - e / 8], e % 8);
    }
  }

  lemma MessageCoef(m: seq<bv8>, e: int)
    ensures Coef(Message(m), e) == (0 <= e < 8 * |m| && MessageBit(m, e))
  {
    hide MessageBit;
  }

  lemma XorByteBit(x: bv8, y: bv8, k: nat)
    requires k < 8
    ensures ByteBit(x ^ y, k) == (ByteBit(x, k) != ByteBit(y, k))
  {
    hide Bit;
    XorWiden(x, y);
    XorBit(x as bv32, y as bv32, k);
  }

  lemma XorWiden(x: bv8, y: bv8)
    ensures (x ^ y) as bv32 == x as bv32 ^ y as bv32
  {
  }

  /** A message followed by its own CRC, high byte first, has CRC 0. */
  lemma CrcOfFrame(m: seq<bv8>, c: bv32, hi: bv8, lo: bv8)
    requires IsCrc(m, c) && c == ((hi as bv32) << 8) | (lo as bv32)
    ensures IsCrc(m + [hi, lo], 0)
  {
    FrameBits(m, c, hi, lo);
    ZeroBits();
    hide Bits, Message, Congruent;
    var f := m + [hi, lo];
    var r := Bits(c, 16);
    var p := Add(Shift(Message(m), 16), r);
    CongruentSame(r, r);
    CongruentAdd(Shift(Message(m), 16), r, r, r);
    CongruentSame(Add(r, r), []);
    CongruentTrans(p, Add(r, r), []);
    CongruentSame(Message(f), p);
    CongruentTrans(Message(f), p, []);
    CongruentShift(Message(f), [], 16);
    CongruentSame(Shift([], 16), Bits(0, 16));
    CongruentTrans(Shift(Message(f), 16), Shift([], 16), Bits(0, 16));
  }

  lemma FrameBits(m: seq<bv8>, c: bv32, hi: bv8, lo: bv8)
    requires c == ((hi as bv32) << 8) | (lo as bv32)
    ensures forall e: int :: Coef(Message(m + [hi, lo]), e) == Coef(Add(Shift(Message(m), 16), Bits(c, 16)), e)
  {
    forall e: int ensures Coef(Message(m + [hi, lo]), e) == Coef(Add(Shift(Message(m), 16), Bits(c, 16)), e) {
      assert m + [hi, lo] == m + [hi] + [lo];
      MessageAdd(m + [hi], lo, e);
      MessageAdd(m, hi, e - 8);
      if 0 <= e < 16 { SplitBytes(c, hi, lo, e); }
      hide Message, Bit;
    }
  }

  lemma SplitBytes(c: bv32, hi: bv8, lo: bv8, e: nat)
    requires e < 16 && c == ((hi as bv32) << 8) | (lo as bv32)
    ensures Bit(c, e) == if e < 8 then ByteBit(lo, e) else ByteBit(hi, e - 8)
  {
    hide Bit;
    SplitWord(c, hi as bv32, lo as bv32, e);
  }

  lemma ZeroBits()
    ensures forall e: int :: !Coef(Bits(0, 16), e)
  {
  }

  lemma SplitWord(c: bv32, hi: bv32, lo: bv32, e: nat)
    requires e < 16 && hi < 256 && lo < 256 && c == (hi << 8) | lo
    ensures Bit(c, e) == if e < 8 then Bit(lo, e) else Bit(hi, e - 8)
  {
    DisjointOr(hi, lo);
    HighByteBit(hi, e);
    ByteHigh(lo, e);
    hide Bit;
    XorBit(hi << 8, lo, e);
  }

  lemma DisjointOr(hi: bv32, lo: bv32)
    requires hi < 256 && lo < 256
    ensures (hi << 8) | lo == (hi << 8) ^ lo
  {
  }

  lemma ByteHigh(b: bv32, e: nat)
    requires b < 256 && e <= 16
    ensures e >= 8 ==> !Bit(b, e)
  {
  }

  /** An error confined to 16 consecutive bits of a frame with CRC 0 is always detected. */
  lemma BurstDetected(f: seq<bv8>, err: seq<bv8>, c: bv32, lo: nat, hit: nat)
    requires |err| == |f| && IsCrc(f, 0) && IsCrc(XorBytes(f, err), c)
    requires forall e: int :: Coef(Message(err), e) ==> lo <= e < lo + 16
    requires Coef(Message(err), hit)
    ensures c != 0
  {
    if c == 0 {
      CrcLinear(f, XorBytes(f, err), 0, 0);
      forall i | 0 <= i < |f| ensures XorBytes(f, XorBytes(f, err))[i] == err[i] {
        XorTwice(f[i], err[i]);
      }
      assert XorBytes(f, XorBytes(f, err)) == err;
      BurstIndivisible(err, lo, hit);
    }
  }

  lemma XorTwice(x: bv8, y: bv8)
    ensures x ^ (x ^ y) == y
  {
  }

  lemma BurstIndivisible(err: seq<bv8>, lo: nat, hit: nat)
    requires forall e: int :: Coef(Message(err), e) ==> lo <= e < lo + 16
    requires Coef(Message(err), hit)
    ensures !IsCrc(err, 0)
  {
    var d := Add(Shift(Message(err), 16), Bits(0, 16));
    forall e: int ensures Coef(d, e) == Coef(Message(err), e - 16) {
    }
    assert Coef(d, hit + 16);
    if Congruent(Shift(Message(err), 16), Bits(0, 16)) {
      var q :| IsMultiple(d, q);
      NarrowMultiple(d, q, lo + 16);
    }
  }
}
