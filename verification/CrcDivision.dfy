/**
 What the type-3 check is: the remainder of a division of polynomials. The message,
 each byte with its lowest bit first, followed by sixteen zeros, is divided by
 x^16 + x^12 + x^5 + 1, and the remainder is kept with its bits in reverse order.
 */
module CrcDivision {
  import opened Bytes
  import opened BlockCheck

  // ---- Long division, the definition ----

  /** x^12 + x^5 + 1, what x^16 leaves. */
  const TAIL: bv16 := (1 << 12) | (1 << 5) | 1

  /** Multiplies the remainder by x. */
  function TimesX(r: bv16): bv16 {
    if r & 0x8000 != 0 then Xor(r << 1, TAIL) else r << 1
  }

  /** Brings down the next bit of the dividend. */
  function BringDown(r: bv16, bit: bool): bv16 {
    Xor(TimesX(r), if bit then 1 else 0)
  }

  /** The remainder of a bit string, highest power first, entered with the remainder `r`. */
  function Remainder(r: bv16, bits: seq<bool>): bv16
    decreases |bits|
  {
    if bits == [] then r else Remainder(BringDown(r, bits[0]), bits[1..])
  }

  /** The bits of a byte as they go over a serial line, lowest first. */
  function LineBits(b: byte): seq<bool> {
    [Odd(b), Odd(b / 2), Odd(b / 4), Odd(b / 8), Odd(b / 16), Odd(b / 32), Odd(b / 64), Odd(b / 128)]
  }

  function MessageBits(s: seq<byte>): seq<bool> {
    if s == [] then [] else LineBits(s[0]) + MessageBits(s[1..])
  }

  /** The same word with its bits in reverse order. */
  function Mirror(r: bv16): bv16 {
    ((r & 0x0001) << 15) | ((r & 0x0002) << 13) | ((r & 0x0004) << 11) | ((r & 0x0008) << 9) |
    ((r & 0x0010) << 7) | ((r & 0x0020) << 5) | ((r & 0x0040) << 3) | ((r & 0x0080) << 1) |
    ((r & 0x0100) >> 1) | ((r & 0x0200) >> 3) | ((r & 0x0400) >> 5) | ((r & 0x0800) >> 7) |
    ((r & 0x1000) >> 9) | ((r & 0x2000) >> 11) | ((r & 0x4000) >> 13) | ((r & 0x8000) >> 15)
  }

  // ---- Multiplying by x is linear ----

  lemma TopBit(x: bv16, y: bv16)
    ensures (Xor(x, y) & 0x8000 != 0) == ((x & 0x8000 != 0) != (y & 0x8000 != 0))
  {
  }

  lemma XorMovesUp(x: bv16, y: bv16)
    ensures Xor(x, y) << 1 == Xor(x << 1, y << 1)
  {
  }

  lemma TimesXIsLinear(x: bv16, y: bv16)
    ensures TimesX(Xor(x, y)) == Xor(TimesX(x), TimesX(y))
  {
    hide Xor;
    var x1, y1 := x << 1, y << 1;
    TopBit(x, y);
    XorMovesUp(x, y);
    XorPairs(x1, TAIL, y1, TAIL);
    XorUnits(TAIL);
    XorUnits(Xor(x1, y1));
    XorAssociates(x1, y1, TAIL);
    XorAssociates(x1, TAIL, y1);
    XorCommutes(TAIL, y1);
  }

  /** Multiplication by the n-th power of x. */
  function Times(r: bv16, n: nat): bv16 {
    if n == 0 then r else TimesX(Times(r, n - 1))
  }

  lemma {:induction false} TimesIsLinear(x: bv16, y: bv16, n: nat)
    ensures Times(Xor(x, y), n) == Xor(Times(x, n), Times(y, n))
  {
    hide Xor;
    hide TimesX;
    if n > 0 {
      TimesIsLinear(x, y, n - 1);
      TimesXIsLinear(Times(x, n - 1), Times(y, n - 1));
    }
  }

  lemma {:induction false} TimesXFirst(r: bv16, n: nat)
    ensures Times(TimesX(r), n) == TimesX(Times(r, n))
  {
    hide TimesX;
    if n > 0 {
      TimesXFirst(r, n - 1);
    }
  }

  lemma {:induction false} TimesZero(n: nat)
    ensures Times(0, n) == 0
  {
    if n > 0 {
      TimesZero(n - 1);
    }
  }

  lemma {:induction false} LowPowers(n: nat)
    requires n < 16
    ensures Times(1, n) == (1 as bv16) << n
  {
    if n > 0 {
      LowPowers(n - 1);
      NextPower(n);
    }
  }

  lemma NextPower(n: nat)
    requires 0 < n < 16
    ensures TimesX((1 as bv16) << (n - 1)) == (1 as bv16) << n
  {
  }

  lemma HighestPower()
    ensures TimesX((1 as bv16) << 15) == TAIL
  {
  }

  lemma SixteenthPower()
    ensures Times(1, 16) == TAIL
  {
    hide TimesX;
    LowPowers(15);
    HighestPower();
    assert Times(1, 16) == TimesX(Times(1, 15));
  }

  lemma BringDownZero(r: bv16)
    ensures BringDown(r, false) == TimesX(r)
  {
    XorUnits(TimesX(r));
  }

  lemma {:induction false} ZerosMultiply(r: bv16, n: nat)
    ensures Remainder(r, seq(n, _ => false)) == Times(r, n)
    decreases n
  {
    hide TimesX;
    hide BringDown;
    if n > 0 {
      var zeros := seq(n, _ => false);
      assert zeros[1..] == seq(n - 1, _ => false);
      BringDownZero(r);
      ZerosMultiply(TimesX(r), n - 1);
      TimesXFirst(r, n - 1);
    }
  }

  lemma {:induction false} RemainderAppend(r: bv16, s: seq<bool>, t: seq<bool>)
    ensures Remainder(r, s + t) == Remainder(Remainder(r, s), t)
    decreases |s|
  {
    hide BringDown;
    if s == [] {
      assert s + t == t;
    } else {
      assert (s + t)[1..] == s[1..] + t;
      RemainderAppend(BringDown(r, s[0]), s[1..], t);
    }
  }

  // ---- The register is the mirror of the division, sixteen places ahead ----

  lemma MirrorOfXor(x: bv16, y: bv16)
    ensures Mirror(Xor(x, y)) == Xor(Mirror(x), Mirror(y))
  {
  }

  lemma MirrorOfTail()
    ensures Mirror(TAIL) == 0x8408 && Mirror(0) == 0
  {
  }

  lemma MirrorOfShift(r: bv16)
    ensures Mirror(r << 1) == Mirror(r) >> 1
  {
  }

  lemma LowBitOfMirror(r: bv16)
    ensures (Mirror(r) & 1 == 1) == (r & 0x8000 != 0)
  {
  }

  /** Reversed, multiplying by x is a bit step of the check. */
  lemma MirrorOfTimesX(r: bv16)
    ensures Mirror(TimesX(r)) == BitStep(Mirror(r))
  {
    hide Mirror;
    hide Xor;
    MirrorOfShift(r);
    LowBitOfMirror(r);
    MirrorOfXor(r << 1, TAIL);
    MirrorOfTail();
  }

  /** One bit of the check, added to the register at the end the step shifts out. */
  function RegisterBit(c: bv16, bit: bool): bv16 {
    Xor(BitStep(c), if bit then 0x8408 else 0)
  }

  function Register(c: bv16, bits: seq<bool>): bv16
    decreases |bits|
  {
    if bits == [] then c else Register(RegisterBit(c, bits[0]), bits[1..])
  }

  lemma RegisterLeads(r: bv16, bit: bool)
    ensures RegisterBit(Mirror(Times(r, 16)), bit) == Mirror(Times(BringDown(r, bit), 16))
  {
    hide TimesX;
    hide BitStep;
    hide Xor;
    hide Mirror;
    var b: bv16 := if bit then 1 else 0;
    TimesIsLinear(TimesX(r), b, 16);
    TimesXFirst(r, 16);
    SixteenthPower();
    TimesZero(16);
    MirrorOfXor(TimesX(Times(r, 16)), Times(b, 16));
    MirrorOfTimesX(Times(r, 16));
    MirrorOfTail();
  }

  lemma {:induction false} RegisterIsRemainder(r: bv16, bits: seq<bool>)
    ensures Register(Mirror(Times(r, 16)), bits) == Mirror(Times(Remainder(r, bits), 16))
    decreases |bits|
  {
    hide RegisterBit;
    hide BringDown;
    hide TimesX;
    hide Mirror;
    hide Times;
    if bits != [] {
      RegisterLeads(r, bits[0]);
      RegisterIsRemainder(BringDown(r, bits[0]), bits[1..]);
    }
  }

  lemma {:induction false} RegisterAppend(c: bv16, s: seq<bool>, t: seq<bool>)
    ensures Register(c, s + t) == Register(Register(c, s), t)
    decreases |s|
  {
    hide RegisterBit;
    if s == [] {
      assert s + t == t;
    } else {
      assert (s + t)[1..] == s[1..] + t;
      RegisterAppend(RegisterBit(c, s[0]), s[1..], t);
    }
  }

  // ---- A byte is eight bits ----

  /** The low bit of `w` is the next message bit; the others move down. */
  lemma AbsorbBit(c: bv16, w: bv16)
    ensures BitStep(Xor(c, w)) == Xor(RegisterBit(c, w & 1 == 1), w >> 1)
  {
    hide Xor;
    BitStepIsLinear(c, w);
    XorAssociates(BitStep(c), 0x8408, w >> 1);
    XorCommutes(0x8408, w >> 1);
    XorUnits(BitStep(c));
  }

  lemma LowBits(b: byte)
    ensures var w := Word(b);
            && LineBits(b) == [w & 1 == 1, (w >> 1) & 1 == 1, (w >> 2) & 1 == 1, (w >> 3) & 1 == 1,
                               (w >> 4) & 1 == 1, (w >> 5) & 1 == 1, (w >> 6) & 1 == 1, (w >> 7) & 1 == 1]
            && w >> 8 == 0
  {
    hide Flags;
    hide Odd;
    var b1, b2, b3, b4, b5, b6, b7 := Halves(b);
    hide Word;
    assert b2 == b / 4 && b3 == b / 8 && b4 == b / 16;
    assert b5 == b / 32 && b6 == b / 64 && b7 == b / 128;
    FlagsFromBelow(Odd(b), Odd(b1), Odd(b2), Odd(b3), Odd(b4), Odd(b5), Odd(b6), Odd(b7));
  }

  lemma FlagsFromBelow(x0: bool, x1: bool, x2: bool, x3: bool, x4: bool, x5: bool, x6: bool, x7: bool)
    ensures var w := Flags(x0, x1, x2, x3, x4, x5, x6, x7);
            && x0 == (w & 1 == 1) && x1 == ((w >> 1) & 1 == 1) && x2 == ((w >> 2) & 1 == 1)
            && x3 == ((w >> 3) & 1 == 1) && x4 == ((w >> 4) & 1 == 1) && x5 == ((w >> 5) & 1 == 1)
            && x6 == ((w >> 6) & 1 == 1) && x7 == ((w >> 7) & 1 == 1) && w >> 8 == 0
  {
  }

  lemma PlacesAdd(w: bv16)
    ensures (w >> 1) >> 1 == w >> 2 && (w >> 2) >> 1 == w >> 3 && (w >> 3) >> 1 == w >> 4
    ensures (w >> 4) >> 1 == w >> 5 && (w >> 5) >> 1 == w >> 6 && (w >> 6) >> 1 == w >> 7 && (w >> 7) >> 1 == w >> 8
  {
  }

  lemma ByteIsEightBits(c: bv16, b: byte)
    ensures ByteStep(Xor(c, Word(b))) == Register(c, LineBits(b))
  {
    hide BitStep;
    hide Xor;
    hide RegisterBit;
    hide Word;
    hide LineBits;
    var w := Word(b);
    LowBits(b);
    PlacesAdd(w);
    var c1 := RegisterBit(c, w & 1 == 1);
    var c2 := RegisterBit(c1, (w >> 1) & 1 == 1);
    var c3 := RegisterBit(c2, (w >> 2) & 1 == 1);
    var c4 := RegisterBit(c3, (w >> 3) & 1 == 1);
    var c5 := RegisterBit(c4, (w >> 4) & 1 == 1);
    var c6 := RegisterBit(c5, (w >> 5) & 1 == 1);
    var c7 := RegisterBit(c6, (w >> 6) & 1 == 1);
    var c8 := RegisterBit(c7, (w >> 7) & 1 == 1);
    AbsorbBit(c, w);
    AbsorbBit(c1, w >> 1);
    AbsorbBit(c2, w >> 2);
    AbsorbBit(c3, w >> 3);
    AbsorbBit(c4, w >> 4);
    AbsorbBit(c5, w >> 5);
    AbsorbBit(c6, w >> 6);
    AbsorbBit(c7, w >> 7);
    XorUnits(c8);
    EightBits(c, LineBits(b));
  }

  lemma {:induction false} OneBit(c: bv16, t: seq<bool>, i: nat)
    requires |t| == 8 && i <= 8
    ensures i == 8 ==> Register(c, t[i..]) == c
    ensures i < 8 ==> Register(c, t[i..]) == Register(RegisterBit(c, t[i]), t[i + 1..])
  {
    if i < 8 {
      assert t[i..][1..] == t[i + 1..];
    }
  }

  lemma EightBits(c: bv16, t: seq<bool>)
    requires |t| == 8
    ensures Register(c, t) ==
            RegisterBit(RegisterBit(RegisterBit(RegisterBit(RegisterBit(RegisterBit(RegisterBit(RegisterBit(
              c, t[0]), t[1]), t[2]), t[3]), t[4]), t[5]), t[6]), t[7])
  {
    hide RegisterBit;
    var c1 := RegisterBit(c, t[0]);
    var c2 := RegisterBit(c1, t[1]);
    var c3 := RegisterBit(c2, t[2]);
    var c4 := RegisterBit(c3, t[3]);
    var c5 := RegisterBit(c4, t[4]);
    var c6 := RegisterBit(c5, t[5]);
    var c7 := RegisterBit(c6, t[6]);
    assert t[0..] == t;
    OneBit(c, t, 0);
    OneBit(c1, t, 1);
    OneBit(c2, t, 2);
    OneBit(c3, t, 3);
    OneBit(c4, t, 4);
    OneBit(c5, t, 5);
    OneBit(c6, t, 6);
    OneBit(c7, t, 7);
    OneBit(RegisterBit(c7, t[7]), t, 8);
    hide Register;
  }

  lemma {:induction false} CrcIsRegister(c: bv16, s: seq<byte>)
    ensures CrcFrom(c, s) == Register(c, MessageBits(s))
    decreases |s|
  {
    hide ByteStep;
    hide Xor;
    hide Word;
    hide LineBits;
    hide RegisterBit;
    if s != [] {
      ByteIsEightBits(c, s[0]);
      RegisterAppend(c, LineBits(s[0]), MessageBits(s[1..]));
      CrcIsRegister(Register(c, LineBits(s[0])), s[1..]);
    }
  }

  /** The check of type 3, which chk3 computes from its two tables, is the reversed remainder of the division. */
  lemma CrcIsRemainder(s: seq<byte>)
    ensures Crc(s) == Mirror(Remainder(0, MessageBits(s) + seq(16, _ => false)))
  {
    hide CrcFrom;
    hide Register;
    hide MessageBits;
    hide Mirror;
    var bits := MessageBits(s);
    CrcIsRegister(0, s);
    TimesZero(16);
    MirrorOfTail();
    RegisterIsRemainder(0, bits);
    RemainderAppend(0, bits, seq(16, _ => false));
    ZerosMultiply(Remainder(0, bits), 16);
  }
}
