/**
 The three block checks of a Kermit packet. The type-3 check is computed from
 two tables of sixteen entries; here it is proved equal to the bit-by-bit
 reflected CRC-CCITT of section 8.3 of the Kermit Protocol Manual, and to
 detect every error burst of at most sixteen bits.
 */
module BlockCheck {
  import opened Bytes

  // ---- Bytes as words ----

  predicate Odd(n: int) {
    n % 2 == 1
  }

  /** The word a combination of eight flags stands for, low bit first. */
  function Flags(x0: bool, x1: bool, x2: bool, x3: bool, x4: bool, x5: bool, x6: bool, x7: bool): bv16 {
    (if x0 then 1 else 0) | (if x1 then 2 else 0) | (if x2 then 4 else 0) | (if x3 then 8 else 0) |
    (if x4 then 16 else 0) | (if x5 then 32 else 0) | (if x6 then 64 else 0) | (if x7 then 128 else 0)
  }

  /** A byte as the low half of a 16-bit word. */
  function Word(b: byte): bv16 {
    var b1 := b / 2;
    var b2 := b1 / 2;
    var b3 := b2 / 2;
    var b4 := b3 / 2;
    var b5 := b4 / 2;
    var b6 := b5 / 2;
    var b7 := b6 / 2;
    Flags(Odd(b), Odd(b1), Odd(b2), Odd(b3), Odd(b4), Odd(b5), Odd(b6), Odd(b7))
  }

  lemma FlagsOfBits(x0: bool, x1: bool, x2: bool, x3: bool, x4: bool, x5: bool, x6: bool, x7: bool)
    ensures var w := Flags(x0, x1, x2, x3, x4, x5, x6, x7);
            && w < 256
            && x0 == (w & 1 != 0) && x1 == (w & 2 != 0) && x2 == (w & 4 != 0) && x3 == (w & 8 != 0)
            && x4 == (w & 16 != 0) && x5 == (w & 32 != 0) && x6 == (w & 64 != 0) && x7 == (w & 128 != 0)
  {
  }

  lemma Halves(b: byte) returns (b1: nat, b2: nat, b3: nat, b4: nat, b5: nat, b6: nat, b7: nat)
    ensures b1 == b / 2 && b2 == b1 / 2 && b3 == b2 / 2 && b4 == b3 / 2 && b5 == b4 / 2 && b6 == b5 / 2 && b7 == b6 / 2
    ensures b7 < 2
    ensures Word(b) == Flags(Odd(b), Odd(b1), Odd(b2), Odd(b3), Odd(b4), Odd(b5), Odd(b6), Odd(b7))
  {
    b1 := b / 2;
    b2 := b1 / 2;
    b3 := b2 / 2;
    b4 := b3 / 2;
    b5 := b4 / 2;
    b6 := b5 / 2;
    b7 := b6 / 2;
  }

  lemma Half(a: nat, b: nat)
    requires Odd(a) == Odd(b) && a / 2 == b / 2
    ensures a == b
  {
  }

  lemma WordIsSmall(b: byte)
    ensures Word(b) < 256
  {
    var b1, b2, b3, b4, b5, b6, b7 := Halves(b);
    FlagsOfBits(Odd(b), Odd(b1), Odd(b2), Odd(b3), Odd(b4), Odd(b5), Odd(b6), Odd(b7));
  }

  lemma WordIsInjective(a: byte, b: byte)
    requires Word(a) == Word(b)
    ensures a == b
  {
    hide Flags;
    var a1, a2, a3, a4, a5, a6, a7 := Halves(a);
    var b1, b2, b3, b4, b5, b6, b7 := Halves(b);
    FlagsOfBits(Odd(a), Odd(a1), Odd(a2), Odd(a3), Odd(a4), Odd(a5), Odd(a6), Odd(a7));
    FlagsOfBits(Odd(b), Odd(b1), Odd(b2), Odd(b3), Odd(b4), Odd(b5), Odd(b6), Odd(b7));
    Half(a6, b6);
    Half(a5, b5);
    Half(a4, b4);
    Half(a3, b3);
    Half(a2, b2);
    Half(a1, b1);
    Half(a, b);
  }

  // ---- The macro ctl on words ----

  lemma HalvesOfCtl(ch: byte)
    ensures var h := if ch < 64 || 128 <= ch < 192 then 1 else -1;
            && Ctl(ch) == ch + 64 * h && Ctl(ch) / 2 == ch / 2 + 32 * h
            && Ctl(ch) / 2 / 2 == ch / 2 / 2 + 16 * h && Ctl(ch) / 2 / 2 / 2 == ch / 2 / 2 / 2 + 8 * h
  {
  }

  lemma UpperHalvesOfCtl(ch: byte)
    ensures var a, b := Ctl(ch) / 2 / 2 / 2, ch / 2 / 2 / 2;
            var h := if ch < 64 || 128 <= ch < 192 then 1 else -1;
            && a / 2 == b / 2 + 4 * h && a / 2 / 2 == b / 2 / 2 + 2 * h && a / 2 / 2 / 2 == b / 2 / 2 / 2 + h
            && a / 2 / 2 / 2 / 2 == b / 2 / 2 / 2 / 2
  {
    HalvesOfCtl(ch);
  }

  lemma FlagFlipped(x0: bool, x1: bool, x2: bool, x3: bool, x4: bool, x5: bool, x6: bool, x7: bool)
    ensures Flags(x0, x1, x2, x3, x4, x5, !x6, x7) == Xor(Flags(x0, x1, x2, x3, x4, x5, x6, x7), 64)
  {
  }

  lemma EvenDifference(a: int, b: int, h: int)
    requires a == b + 2 * h
    ensures Odd(a) == Odd(b)
  {
  }

  lemma OddDifference(a: int, b: int, h: int)
    requires a == b + h && (h == 1 || h == -1)
    ensures Odd(a) == !Odd(b)
  {
  }

  /** The macro flips bit 6 of any byte and no other, so that a control character and its letter change places. */
  lemma CtlFlipsBitSix(ch: byte)
    ensures Word(Ctl(ch)) == Xor(Word(ch), 64)
  {
    var h := if ch < 64 || 128 <= ch < 192 then 1 else -1;
    HalvesOfCtl(ch);
    UpperHalvesOfCtl(ch);
    hide Ctl;
    hide Flags;
    hide Xor;
    hide Odd;
    var a1, a2, a3, a4, a5, a6, a7 := Halves(Ctl(ch));
    var b1, b2, b3, b4, b5, b6, b7 := Halves(ch);
    hide Word;
    EvenDifference(Ctl(ch), ch, 32 * h);
    EvenDifference(a1, b1, 16 * h);
    EvenDifference(a2, b2, 8 * h);
    EvenDifference(a3, b3, 4 * h);
    EvenDifference(a4, b4, 2 * h);
    EvenDifference(a5, b5, h);
    OddDifference(a6, b6, h);
    FlagFlipped(Odd(ch), Odd(b1), Odd(b2), Odd(b3), Odd(b4), Odd(b5), Odd(b6), Odd(b7));
  }

  // ---- Types 1 and 2: sums ----

  /** The sum of the bytes, kept in an unsigned 16-bit variable. */
  function Chk2(s: seq<byte>): (sum: int)
    ensures 0 <= sum < 65536
  {
    if s == [] then 0 else (Chk2(s[..|s| - 1]) + s[|s| - 1]) % 65536
  }

  /** Short enough text does not wrap around, and its sum lies between those of its smallest and largest bytes. */
  lemma {:induction false} SumIsWithin(s: seq<byte>, lo: nat, hi: nat)
    requires hi * |s| < 65536 && forall i :: 0 <= i < |s| ==> lo <= s[i] <= hi
    ensures lo * |s| <= Chk2(s) <= hi * |s|
    decreases |s|
  {
    if s != [] {
      assert hi * |s| == hi * (|s| - 1) + hi && lo * |s| == lo * (|s| - 1) + lo;
      SumIsWithin(s[..|s| - 1], lo, hi);
    }
  }

  /** What an unsigned 16-bit variable keeps. */
  function Wrap(x: int): int {
    x % 65536
  }

  lemma WrapIsExact(x: int)
    requires 0 <= x < 65536
    ensures Wrap(x) == x
  {
  }

  lemma SumOfOneMore(s: seq<byte>, a: byte)
    ensures Chk2(s + [a]) == Wrap(Chk2(s) + a)
  {
    assert (s + [a])[..|s|] == s;
  }

  lemma SumOfLast(s: seq<byte>, t: seq<byte>, a: byte)
    ensures Chk2(s + (t + [a])) == Wrap(Chk2(s + t) + a)
  {
    hide Chk2;
    hide Wrap;
    assert s + (t + [a]) == (s + t) + [a];
    SumOfOneMore(s + t, a);
  }

  lemma SumWithOneMore(s: seq<byte>, t: seq<byte>, a: byte)
    requires Chk2(s + t) == Chk2(s) + Chk2(t) && Chk2(s) + Chk2(t) + a < 65536
    ensures Chk2(s + (t + [a])) == Chk2(s) + Chk2(t + [a]) == Chk2(s) + Chk2(t) + a
  {
    hide Chk2;
    hide Wrap;
    SumOfLast(s, t, a);
    SumOfOneMore(t, a);
    WrapIsExact(Chk2(s + t) + a);
    WrapIsExact(Chk2(t) + a);
  }

  /** As long as nothing wraps around, the sum of two texts is the sum of both. */
  lemma {:induction false} SumOfParts(s: seq<byte>, t: seq<byte>)
    requires Chk2(s) + 255 * |t| < 65536
    ensures Chk2(s + t) == Chk2(s) + Chk2(t) <= Chk2(s) + 255 * |t|
    decreases |t|
  {
    if t == [] {
      assert s + t == s;
    } else {
      hide Chk2;
      var t', a := t[..|t| - 1], t[|t| - 1];
      SumOfParts(s, t');
      SumWithOneMore(s, t', a);
      assert t == t' + [a];
    }
  }

  /** The sum with bits 6 and 7 folded into the low six. */
  function Chk1(s: seq<byte>): (sum: int)
    ensures 0 <= sum < 64
  {
    ((Chk2(s) / 64) % 4 + Chk2(s)) % 64
  }

  // ---- Type 3: the bitwise reference ----

  /** Exclusive or; a name of its own, so that proofs can treat it as an abstract group operation. */
  function Xor(x: bv16, y: bv16): bv16 {
    x ^ y
  }

  /** One bit of the reflected CRC with polynomial 0x8408. */
  function BitStep(crc: bv16): bv16 {
    if crc & 1 == 1 then Xor(crc >> 1, 0x8408) else crc >> 1
  }

  /** Eight bits. */
  function ByteStep(crc: bv16): bv16 {
    BitStep(BitStep(BitStep(BitStep(BitStep(BitStep(BitStep(BitStep(crc))))))))
  }

  /** The check of a string that is entered with the value `crc`. */
  function CrcFrom(crc: bv16, s: seq<byte>): bv16
    decreases |s|
  {
    if s == [] then crc else CrcFrom(ByteStep(Xor(crc, Word(s[0]))), s[1..])
  }

  function Crc(s: seq<byte>): bv16 {
    CrcFrom(0, s)
  }

  /** The value a packet carries. */
  function Chk3(s: seq<byte>): (value: int)
    ensures 0 <= value < 65536
  {
    Crc(s) as int
  }

  lemma {:induction false} CrcFromAppend(crc: bv16, s: seq<byte>, t: seq<byte>)
    ensures CrcFrom(crc, s + t) == CrcFrom(CrcFrom(crc, s), t)
    decreases |s|
  {
    hide Xor;
    hide ByteStep;
    hide Word;
    if s == [] {
      assert s + t == t;
    } else {
      assert (s + t)[1..] == s[1..] + t;
      CrcFromAppend(ByteStep(Xor(crc, Word(s[0]))), s[1..], t);
    }
  }

  // ---- The byte step is linear and one-to-one ----

  lemma XorCommutes(x: bv16, y: bv16)
    ensures Xor(x, y) == Xor(y, x)
  {
  }

  lemma XorAssociates(x: bv16, y: bv16, z: bv16)
    ensures Xor(Xor(x, y), z) == Xor(x, Xor(y, z))
  {
  }

  lemma XorUnits(x: bv16)
    ensures Xor(x, x) == 0 && Xor(x, 0) == x && Xor(0, x) == x
  {
  }

  lemma XorZero(x: bv16, y: bv16)
    requires Xor(x, y) == 0
    ensures x == y
  {
  }

  lemma XorLowBit(x: bv16, y: bv16)
    ensures (Xor(x, y) & 1 == 1) == ((x & 1 == 1) != (y & 1 == 1))
  {
  }

  lemma ShiftRightDistributes(x: bv16, y: bv16)
    ensures (x ^ y) >> 1 == (x >> 1) ^ (y >> 1)
  {
  }

  lemma XorMeaning(x: bv16, y: bv16)
    ensures Xor(x, y) == x ^ y
  {
  }

  lemma XorShifts(x: bv16, y: bv16)
    ensures Xor(x, y) >> 1 == Xor(x >> 1, y >> 1)
  {
    hide Xor;
    ShiftRightDistributes(x, y);
    XorMeaning(x, y);
    XorMeaning(x >> 1, y >> 1);
  }

  lemma XorPairs(p: bv16, a: bv16, q: bv16, b: bv16)
    ensures Xor(Xor(p, a), Xor(q, b)) == Xor(Xor(p, q), Xor(a, b))
  {
    hide Xor;
    XorAssociates(p, a, Xor(q, b));
    XorAssociates(a, q, b);
    XorCommutes(a, q);
    XorAssociates(q, a, b);
    XorAssociates(p, q, Xor(a, b));
  }

  lemma XorShared(p: bv16, a: bv16, b: bv16)
    ensures Xor(Xor(p, a), Xor(p, b)) == Xor(a, b)
  {
    hide Xor;
    XorPairs(p, a, p, b);
    XorUnits(p);
    XorUnits(Xor(a, b));
  }

  lemma XorMoves(p: bv16, a: bv16, q: bv16, b: bv16)
    requires Xor(p, a) == Xor(q, b)
    ensures Xor(p, q) == Xor(a, b)
  {
    hide Xor;
    XorPairs(p, a, q, b);
    XorUnits(Xor(p, a));
    XorZero(Xor(p, q), Xor(a, b));
  }

  lemma BitStepIsLinear(x: bv16, y: bv16)
    ensures BitStep(Xor(x, y)) == Xor(BitStep(x), BitStep(y))
  {
    hide Xor;
    var poly: bv16 := 0x8408;
    var x1, y1 := x >> 1, y >> 1;
    XorLowBit(x, y);
    XorShifts(x, y);
    XorPairs(x1, poly, y1, poly);
    XorUnits(poly);
    XorUnits(Xor(x1, y1));
    XorAssociates(x1, y1, poly);
    XorAssociates(x1, poly, y1);
    XorCommutes(poly, y1);
  }

  lemma ByteStepIsLinear(x: bv16, y: bv16)
    ensures ByteStep(Xor(x, y)) == Xor(ByteStep(x), ByteStep(y))
  {
    hide BitStep;
    hide Xor;
    var x1, y1 := BitStep(x), BitStep(y);
    var x2, y2 := BitStep(x1), BitStep(y1);
    var x3, y3 := BitStep(x2), BitStep(y2);
    var x4, y4 := BitStep(x3), BitStep(y3);
    var x5, y5 := BitStep(x4), BitStep(y4);
    var x6, y6 := BitStep(x5), BitStep(y5);
    var x7, y7 := BitStep(x6), BitStep(y6);
    BitStepIsLinear(x, y);
    BitStepIsLinear(x1, y1);
    BitStepIsLinear(x2, y2);
    BitStepIsLinear(x3, y3);
    BitStepIsLinear(x4, y4);
    BitStepIsLinear(x5, y5);
    BitStepIsLinear(x6, y6);
    BitStepIsLinear(x7, y7);
  }

  lemma BitStepIsInjective(x: bv16, y: bv16)
    requires BitStep(x) == BitStep(y)
    ensures x == y
  {
  }

  lemma ByteStepIsInjective(x: bv16, y: bv16)
    requires ByteStep(x) == ByteStep(y)
    ensures x == y
  {
    hide BitStep;
    var x1, y1 := BitStep(x), BitStep(y);
    var x2, y2 := BitStep(x1), BitStep(y1);
    var x3, y3 := BitStep(x2), BitStep(y2);
    var x4, y4 := BitStep(x3), BitStep(y3);
    var x5, y5 := BitStep(x4), BitStep(y4);
    var x6, y6 := BitStep(x5), BitStep(y5);
    var x7, y7 := BitStep(x6), BitStep(y6);
    BitStepIsInjective(x7, y7);
    BitStepIsInjective(x6, y6);
    BitStepIsInjective(x5, y5);
    BitStepIsInjective(x4, y4);
    BitStepIsInjective(x3, y3);
    BitStepIsInjective(x2, y2);
    BitStepIsInjective(x1, y1);
    BitStepIsInjective(x, y);
  }

  lemma {:induction false} CrcFromIsInjective(x: bv16, y: bv16, s: seq<byte>)
    requires CrcFrom(x, s) == CrcFrom(y, s)
    ensures x == y
    decreases |s|
  {
    hide Xor;
    hide ByteStep;
    hide Word;
    if s != [] {
      var w := Word(s[0]);
      CrcFromIsInjective(ByteStep(Xor(x, w)), ByteStep(Xor(y, w)), s[1..]);
      ByteStepIsInjective(Xor(x, w), Xor(y, w));
      XorCancels(x, y, w);
    }
  }

  lemma XorCancels(x: bv16, y: bv16, w: bv16)
    requires Xor(x, w) == Xor(y, w)
    ensures x == y
  {
    hide Xor;
    XorMoves(x, w, y, w);
    XorUnits(w);
    XorZero(x, y);
  }

  // ---- Burst detection ----

  /** The low `s` bits of a byte. */
  function Mask(s: nat): bv16
    requires s <= 8
  {
    match s
    case 0 => 0x00
    case 1 => 0x01
    case 2 => 0x03
    case 3 => 0x07
    case 4 => 0x0f
    case 5 => 0x1f
    case 6 => 0x3f
    case 7 => 0x7f
    case 8 => 0xff
  }

  /** Differences confined to the sixteen bits from bit `s` of the first of three bytes on. */
  predicate InWindow(d0: bv16, d1: bv16, d2: bv16, s: nat)
    requires s <= 8
  {
    && d0 < 256 && d1 < 256 && d2 <= Mask(s)
    && d0 & Mask(s) == 0
  }

  /** No burst confined to such a window cancels itself in the register. */
  lemma BurstLeavesTrace(d0: bv16, d1: bv16, d2: bv16, s: nat)
    requires s <= 8 && InWindow(d0, d1, d2, s)
    requires ByteStep(Xor(ByteStep(d0), d1)) == d2
    ensures d0 == 0 && d1 == 0 && d2 == 0
  {
    hide ByteStep;
    hide Xor;
    match s {
      case 0 => Burst0(d0, d1, d2);
      case 1 => Burst1(d0, d1, d2);
      case 2 => Burst2(d0, d1, d2);
      case 3 => Burst3(d0, d1, d2);
      case 4 => Burst4(d0, d1, d2);
      case 5 => Burst5(d0, d1, d2);
      case 6 => Burst6(d0, d1, d2);
      case 7 => Burst7(d0, d1, d2);
      case 8 => Burst8(d0, d1, d2);
    }
  }

  lemma Burst0(d0: bv16, d1: bv16, d2: bv16)
    requires d0 < 256 && d1 < 256 && d0 & 0x0 == 0 && d2 <= 0x0
    requires ByteStep(Xor(ByteStep(d0), d1)) == d2
    ensures d0 == 0 && d1 == 0 && d2 == 0
  {
  }

  lemma Burst1(d0: bv16, d1: bv16, d2: bv16)
    requires d0 < 256 && d1 < 256 && d0 & 0x1 == 0 && d2 <= 0x1
    requires ByteStep(Xor(ByteStep(d0), d1)) == d2
    ensures d0 == 0 && d1 == 0 && d2 == 0
  {
  }

  lemma Burst2(d0: bv16, d1: bv16, d2: bv16)
    requires d0 < 256 && d1 < 256 && d0 & 0x3 == 0 && d2 <= 0x3
    requires ByteStep(Xor(ByteStep(d0), d1)) == d2
    ensures d0 == 0 && d1 == 0 && d2 == 0
  {
  }

  lemma Burst3(d0: bv16, d1: bv16, d2: bv16)
    requires d0 < 256 && d1 < 256 && d0 & 0x7 == 0 && d2 <= 0x7
    requires ByteStep(Xor(ByteStep(d0), d1)) == d2
    ensures d0 == 0 && d1 == 0 && d2 == 0
  {
  }

  lemma Burst4(d0: bv16, d1: bv16, d2: bv16)
    requires d0 < 256 && d1 < 256 && d0 & 0xf == 0 && d2 <= 0xf
    requires ByteStep(Xor(ByteStep(d0), d1)) == d2
    ensures d0 == 0 && d1 == 0 && d2 == 0
  {
  }

  lemma Burst5(d0: bv16, d1: bv16, d2: bv16)
    requires d0 < 256 && d1 < 256 && d0 & 0x1f == 0 && d2 <= 0x1f
    requires ByteStep(Xor(ByteStep(d0), d1)) == d2
    ensures d0 == 0 && d1 == 0 && d2 == 0
  {
  }

  lemma Burst6(d0: bv16, d1: bv16, d2: bv16)
    requires d0 < 256 && d1 < 256 && d0 & 0x3f == 0 && d2 <= 0x3f
    requires ByteStep(Xor(ByteStep(d0), d1)) == d2
    ensures d0 == 0 && d1 == 0 && d2 == 0
  {
  }

  lemma Burst7(d0: bv16, d1: bv16, d2: bv16)
    requires d0 < 256 && d1 < 256 && d0 & 0x7f == 0 && d2 <= 0x7f
    requires ByteStep(Xor(ByteStep(d0), d1)) == d2
    ensures d0 == 0 && d1 == 0 && d2 == 0
  {
  }

  lemma Burst8(d0: bv16, d1: bv16, d2: bv16)
    requires d0 < 256 && d1 < 256 && d0 & 0xff == 0 && d2 <= 0xff
    requires ByteStep(Xor(ByteStep(d0), d1)) == d2
    ensures d0 == 0 && d1 == 0 && d2 == 0
  {
  }

  /** Two strings that differ inside three adjacent bytes only. */
  predicate DifferWithin(s: seq<byte>, t: seq<byte>, at: nat) {
    && |s| == |t| && at + 3 <= |s|
    && s[..at] == t[..at] && s[at + 3..] == t[at + 3..]
  }

  /** The differences all lie in one window of sixteen consecutive transmitted bits. */
  predicate Burst(s: seq<byte>, t: seq<byte>, at: nat, start: nat)
    requires start <= 8
  {
    && DifferWithin(s, t, at)
    && InWindow(Xor(Word(s[at]), Word(t[at])), Xor(Word(s[at + 1]), Word(t[at + 1])),
                Xor(Word(s[at + 2]), Word(t[at + 2])), start)
  }

  /** Three bytes from one register value. */
  function Three(c: bv16, a0: bv16, a1: bv16, a2: bv16): bv16 {
    ByteStep(Xor(ByteStep(Xor(ByteStep(Xor(c, a0)), a1)), a2))
  }

  /** If two triples of bytes lead to the same value, so does their difference from zero. */
  lemma ThreeSteps(c: bv16, a0: bv16, a1: bv16, a2: bv16, b0: bv16, b1: bv16, b2: bv16)
    requires Three(c, a0, a1, a2) == Three(c, b0, b1, b2)
    ensures ByteStep(Xor(ByteStep(Xor(a0, b0)), Xor(a1, b1))) == Xor(a2, b2)
  {
    hide ByteStep;
    hide Xor;
    var p0, q0 := ByteStep(Xor(c, a0)), ByteStep(Xor(c, b0));
    var p1, q1 := ByteStep(Xor(p0, a1)), ByteStep(Xor(q0, b1));
    ByteStepIsInjective(Xor(p1, a2), Xor(q1, b2));
    XorMoves(p1, a2, q1, b2);
    ByteStepIsLinear(Xor(p0, a1), Xor(q0, b1));
    XorPairs(p0, a1, q0, b1);
    ByteStepIsLinear(Xor(c, a0), Xor(c, b0));
    XorShared(c, a0, b0);
  }

  /**
   The type-3 check notices every error burst of at most sixteen bits, wherever
   it falls; in particular any change confined to two adjacent bytes.
   */
  lemma BurstIsDetected(s: seq<byte>, t: seq<byte>, at: nat, start: nat)
    requires start <= 8 && Burst(s, t, at, start) && s != t
    ensures Crc(s) != Crc(t)
  {
    hide Xor;
    hide Word;
    hide CrcFrom;
    hide InWindow;
    if Crc(s) == Crc(t) {
      var c := CrcFrom(0, s[..at]);
      var u, v, tail := s[at..at + 3], t[at..at + 3], s[at + 3..];
      CrcSplit(s, at);
      CrcSplit(t, at);
      CrcFromIsInjective(CrcFrom(c, u), CrcFrom(c, v), tail);
      assert s == s[..at] + u + tail && t == t[..at] + v + tail;
      TripleIsDetected(c, u, v, start);
    }
  }

  /** From one register value, different triples inside the window lead to different values. */
  lemma TripleIsDetected(c: bv16, u: seq<byte>, v: seq<byte>, start: nat)
    requires |u| == |v| == 3 && start <= 8
    requires InWindow(Xor(Word(u[0]), Word(v[0])), Xor(Word(u[1]), Word(v[1])), Xor(Word(u[2]), Word(v[2])), start)
    requires CrcFrom(c, u) == CrcFrom(c, v)
    ensures u == v
  {
    hide Xor;
    hide ByteStep;
    hide Word;
    hide Three;
    hide InWindow;
    hide CrcFrom;
    CrcOfThree(c, u);
    CrcOfThree(c, v);
    ThreeSteps(c, Word(u[0]), Word(u[1]), Word(u[2]), Word(v[0]), Word(v[1]), Word(v[2]));
    BurstLeavesTrace(Xor(Word(u[0]), Word(v[0])), Xor(Word(u[1]), Word(v[1])), Xor(Word(u[2]), Word(v[2])), start);
    SameWord(u[0], v[0]);
    SameWord(u[1], v[1]);
    SameWord(u[2], v[2]);
  }

  lemma SameWord(a: byte, b: byte)
    requires Xor(Word(a), Word(b)) == 0
    ensures a == b
  {
    hide Xor;
    hide Word;
    XorZero(Word(a), Word(b));
    WordIsInjective(a, b);
  }

  lemma CrcSplit(s: seq<byte>, at: nat)
    requires at + 3 <= |s|
    ensures Crc(s) == CrcFrom(CrcFrom(CrcFrom(0, s[..at]), s[at..at + 3]), s[at + 3..])
  {
    hide Xor;
    hide ByteStep;
    hide Word;
    assert s == s[..at] + s[at..at + 3] + s[at + 3..];
    CrcFromAppend(0, s[..at] + s[at..at + 3], s[at + 3..]);
    CrcFromAppend(0, s[..at], s[at..at + 3]);
  }

  lemma CrcOfThree(c: bv16, u: seq<byte>)
    requires |u| == 3
    ensures CrcFrom(c, u) == Three(c, Word(u[0]), Word(u[1]), Word(u[2]))
  {
    hide ByteStep;
    hide Word;
    hide Xor;
    var c1 := ByteStep(Xor(c, Word(u[0])));
    var c2 := ByteStep(Xor(c1, Word(u[1])));
    assert u[1..][1..] == u[2..] && u[2..][1..] == [];
    assert CrcFrom(c2, u[2..]) == ByteStep(Xor(c2, Word(u[2])));
    assert CrcFrom(c1, u[1..]) == CrcFrom(c2, u[2..]);
  }

  // ---- The tables ----

  /** The two tables K_INIT fills in, in octal digits in the source. */
  const TABLE_A: seq<bv16> :=
    [0x0000, 0x1081, 0x2102, 0x3183, 0x4204, 0x5285, 0x6306, 0x7387,
     0x8408, 0x9489, 0xa50a, 0xb58b, 0xc60c, 0xd68d, 0xe70e, 0xf78f]

  const TABLE_B: seq<bv16> :=
    [0x0000, 0x1189, 0x2312, 0x329b, 0x4624, 0x57ad, 0x6536, 0x74bf,
     0x8c48, 0x9dc1, 0xaf5a, 0xbed3, 0xca6c, 0xdbe5, 0xe97e, 0xf8f7]

  lemma TableA(i: bv16)
    requires i < 16
    ensures ByteStep(i << 4) == TABLE_A[i as int]
  {
  }

  lemma TableB(i: bv16)
    requires i < 16
    ensures ByteStep(i) == TABLE_B[i as int]
  {
    if i < 8 {
      LowerTableB(i);
    } else {
      UpperTableB(i);
    }
  }

  lemma LowerTableB(i: bv16)
    requires i < 8
    ensures ByteStep(i) == TABLE_B[i as int]
  {
  }

  lemma UpperTableB(i: bv16)
    requires 8 <= i < 16
    ensures ByteStep(i) == TABLE_B[i as int]
  {
  }

  lemma HighByteShifts(c: bv16)
    ensures ByteStep(c & 0xff00) == c >> 8
  {
  }

  lemma Nibbles(c: bv16)
    ensures (c & 0xf0) >> 4 < 16 && c & 0x0f < 16
    ensures Xor(c & 0xff00, Xor(((c & 0xf0) >> 4) << 4, c & 0x0f)) == c
  {
  }

  /** What the source does to the register for one byte. */
  function TableStep(c: bv16): bv16 {
    Nibbles(c);
    Xor(c >> 8, Xor(TABLE_A[((c & 0xf0) >> 4) as int], TABLE_B[(c & 0x0f) as int]))
  }

  /** Looking up the two halves of the low byte does the work of eight bit steps. */
  lemma TableStepIsByteStep(c: bv16)
    ensures TableStep(c) == ByteStep(c)
  {
    hide ByteStep;
    hide Xor;
    var top, high, low := c & 0xff00, (c & 0xf0) >> 4, c & 0x0f;
    Nibbles(c);
    TableA(high);
    TableB(low);
    HighByteShifts(c);
    ByteStepIsLinear(high << 4, low);
    ByteStepIsLinear(top, Xor(high << 4, low));
  }

  lemma CrcOfOneMore(pkt: seq<byte>, i: nat)
    requires i < |pkt|
    ensures Crc(pkt[..i + 1]) == ByteStep(Xor(Crc(pkt[..i]), Word(pkt[i])))
  {
    hide ByteStep;
    hide Xor;
    hide Word;
    assert pkt[..i + 1] == pkt[..i] + [pkt[i]];
    CrcFromAppend(0, pkt[..i], [pkt[i]]);
  }

  lemma LowByteShiftsOut(crc: bv16, b: byte)
    ensures Xor(crc, Word(b)) >> 8 == crc >> 8
  {
    hide Word;
    WordIsSmall(b);
  }

  // ---- The block-check routines ----

  class Checker {
    const crcta: array<bv16>
    const crctb: array<bv16>

    ghost predicate Valid()
      reads crcta, crctb
    {
      crcta[..] == TABLE_A && crctb[..] == TABLE_B
    }

    /** The part of K_INIT that sets up the tables. */
    constructor ()
      ensures Valid() && fresh(crcta) && fresh(crctb)
    {
      crcta := new bv16[16] [0x0000, 0x1081, 0x2102, 0x3183, 0x4204, 0x5285, 0x6306, 0x7387,
                             0x8408, 0x9489, 0xa50a, 0xb58b, 0xc60c, 0xd68d, 0xe70e, 0xf78f];
      crctb := new bv16[16] [0x0000, 0x1189, 0x2312, 0x329b, 0x4624, 0x57ad, 0x6536, 0x74bf,
                             0x8c48, 0x9dc1, 0xaf5a, 0xbed3, 0xca6c, 0xdbe5, 0xe97e, 0xf8f7];
    }

    /** Sums the bytes of a NUL-terminated string. */
    method SumOf(pkt: seq<byte>) returns (chk: int)
      requires 0 in pkt
      ensures chk == Chk2(CString(pkt))
    {
      chk := 0;
      var i := 0;
      while pkt[i] != 0
        invariant 0 <= i < |pkt| && 0 !in pkt[..i] && chk == Chk2(pkt[..i])
        decreases |pkt| - i
      {
        assert pkt[..i + 1][..i] == pkt[..i];
        chk := (chk + pkt[i]) % 65536;
        i := i + 1;
      }
      CStringEndsAt(pkt, i);
    }

    /** The six-bit check. */
    method FoldedSumOf(pkt: seq<byte>) returns (chk: int)
      requires 0 in pkt
      ensures chk == Chk1(CString(pkt))
    {
      chk := SumOf(pkt);
      chk := ((chk / 64) % 4 + chk) % 64;
    }

    /** One turn of the loop: the register without its low byte, and two table entries. */
    method StepOf(crc: bv16, c: bv16) returns (next: bv16)
      requires Valid() && crc >> 8 == c >> 8
      ensures next == ByteStep(c)
    {
      Nibbles(c);
      TableStepIsByteStep(c);
      var high, low := (c & 0xf0) >> 4, c & 0x0f;
      next := Xor(crc >> 8, Xor(crcta[high as int], crctb[low as int]));
    }

    /** The table-driven CRC of a NUL-terminated string is the bitwise one. */
    method CrcOf(pkt: seq<byte>) returns (crc: bv16)
      requires 0 in pkt && Valid()
      ensures crc == Crc(CString(pkt))
    {
      hide ByteStep;
      hide Xor;
      hide Word;
      crc := 0;
      var i := 0;
      while pkt[i] != 0
        invariant 0 <= i < |pkt| && 0 !in pkt[..i] && crc == Crc(pkt[..i])
        decreases |pkt| - i
      {
        var c := Xor(crc, Word(pkt[i]));
        LowByteShiftsOut(crc, pkt[i]);
        crc := StepOf(crc, c);
        CrcOfOneMore(pkt, i);
        i := i + 1;
      }
      CStringEndsAt(pkt, i);
    }
  }
}
