/**
 The checksum of the Murata modem firmware, which is the POSIX cksum algorithm
 (IEEE Std 1003.1-2017, Shell and Utilities, cksum): the remainder of the message
 followed by its length, divided by the polynomial 0x04C11DB7, complemented.
 */
module MurataCrc {
  import opened Bytes
  import opened BlockCheck

  const UA_HEADER_SIZE: nat := 256

  // ---- Polynomial division, the definition ----

  function Xor32(x: bv32, y: bv32): bv32 {
    x ^ y
  }

  /** Multiplies the remainder by x. */
  function Shift(r: bv32): bv32 {
    if r & 0x80000000 != 0 then Xor32(r << 1, 0x04c11db7) else r << 1
  }

  /** Brings down the next bit of the dividend. */
  function BringDown(r: bv32, bit: bool): bv32 {
    Xor32(Shift(r), if bit then 1 else 0)
  }

  /** The remainder of a bit string, highest power first, entered with the remainder `r`. */
  function Remainder(r: bv32, bits: seq<bool>): bv32
    decreases |bits|
  {
    if bits == [] then r else Remainder(BringDown(r, bits[0]), bits[1..])
  }

  /** The bits of a byte, most significant first. */
  function ByteBits(b: byte): seq<bool> {
    var w := Word(b);
    [w & 0x80 != 0, w & 0x40 != 0, w & 0x20 != 0, w & 0x10 != 0,
     w & 0x08 != 0, w & 0x04 != 0, w & 0x02 != 0, w & 0x01 != 0]
  }

  function MessageBits(s: seq<byte>): seq<bool> {
    if s == [] then [] else ByteBits(s[0]) + MessageBits(s[1..])
  }

  /** The length in bytes, least significant byte first, without leading zeros. */
  function LengthBytes(n: nat): seq<byte> {
    if n == 0 then [] else [n % 256] + LengthBytes(n / 256)
  }

  /** cksum: 32 zero bits follow the message and its length. */
  function Cksum(s: seq<byte>): bv32 {
    Xor32(Remainder(0, MessageBits(s + LengthBytes(|s|)) + seq(32, _ => false)), 0xffffffff)
  }

  // ---- The byte-wise form ----

  function ByteStep(r: bv32): bv32 {
    Shift(Shift(Shift(Shift(Shift(Shift(Shift(Shift(r))))))))
  }

  function Top(b: byte): bv32 {
    (Word(b) as bv32) << 24
  }

  /** The running value after a byte string: what murata_1sc_crc32_update computes. */
  function Update(crc: bv32, s: seq<byte>): bv32
    decreases |s|
  {
    if s == [] then crc else Update(ByteStep(Xor32(crc, Top(s[0]))), s[1..])
  }

  function Finish(crc: bv32, len: nat): bv32 {
    Xor32(Update(crc, LengthBytes(len)), 0xffffffff)
  }

  /** Updating with pieces is updating with the whole. */
  lemma {:induction false} UpdateComposes(crc: bv32, s: seq<byte>, t: seq<byte>)
    ensures Update(crc, s + t) == Update(Update(crc, s), t)
    decreases |s|
  {
    hide ByteStep;
    hide Xor32;
    hide Top;
    if s == [] {
      assert s + t == t;
    } else {
      assert (s + t)[1..] == s[1..] + t;
      UpdateComposes(ByteStep(Xor32(crc, Top(s[0]))), s[1..], t);
    }
  }

  // ---- Exclusive or, and the linearity of a shift ----

  lemma XorLaws(x: bv32, y: bv32, z: bv32)
    ensures Xor32(Xor32(x, y), z) == Xor32(x, Xor32(y, z))
  {
  }

  lemma XorSwaps(x: bv32, y: bv32)
    ensures Xor32(x, y) == Xor32(y, x)
  {
  }

  lemma XorSame(x: bv32)
    ensures Xor32(x, x) == 0 && Xor32(x, 0) == x && Xor32(0, x) == x
  {
  }

  lemma XorTopBit(x: bv32, y: bv32)
    ensures (Xor32(x, y) & 0x80000000 != 0) == ((x & 0x80000000 != 0) != (y & 0x80000000 != 0))
  {
  }

  lemma ShiftLeftDistributes(x: bv32, y: bv32)
    ensures (x ^ y) << 1 == (x << 1) ^ (y << 1)
  {
  }

  lemma XorShifts32(x: bv32, y: bv32)
    ensures Xor32(x, y) << 1 == Xor32(x << 1, y << 1)
  {
    hide Xor32;
    ShiftLeftDistributes(x, y);
    XorMeaning(x, y);
    XorMeaning(x << 1, y << 1);
  }

  lemma XorMeaning(x: bv32, y: bv32)
    ensures Xor32(x, y) == x ^ y
  {
  }

  lemma XorPairs32(p: bv32, a: bv32, q: bv32, b: bv32)
    ensures Xor32(Xor32(p, a), Xor32(q, b)) == Xor32(Xor32(p, q), Xor32(a, b))
  {
    hide Xor32;
    XorLaws(p, a, Xor32(q, b));
    XorLaws(a, q, b);
    XorSwaps(a, q);
    XorLaws(q, a, b);
    XorLaws(p, q, Xor32(a, b));
  }

  lemma ShiftIsLinear(x: bv32, y: bv32)
    ensures Shift(Xor32(x, y)) == Xor32(Shift(x), Shift(y))
  {
    hide Xor32;
    var poly: bv32 := 0x04c11db7;
    var x1, y1 := x << 1, y << 1;
    XorTopBit(x, y);
    XorShifts32(x, y);
    XorPairs32(x1, poly, y1, poly);
    XorSame(poly);
    XorSame(Xor32(x1, y1));
    XorLaws(x1, y1, poly);
    XorLaws(x1, poly, y1);
    XorSwaps(poly, y1);
  }

  /** `n` shifts: multiplication by the n-th power of x. */
  function Shifts(r: bv32, n: nat): bv32 {
    if n == 0 then r else Shift(Shifts(r, n - 1))
  }

  lemma {:induction false} ShiftsAreLinear(x: bv32, y: bv32, n: nat)
    ensures Shifts(Xor32(x, y), n) == Xor32(Shifts(x, n), Shifts(y, n))
  {
    hide Xor32;
    hide Shift;
    if n > 0 {
      ShiftsAreLinear(x, y, n - 1);
      ShiftIsLinear(Shifts(x, n - 1), Shifts(y, n - 1));
    }
  }

  lemma {:induction false} ShiftFirst(r: bv32, n: nat)
    ensures Shifts(Shift(r), n) == Shift(Shifts(r, n))
  {
    hide Shift;
    if n > 0 {
      ShiftFirst(r, n - 1);
    }
  }

  lemma {:induction false} ShiftsOfZero(n: nat)
    ensures Shifts(0, n) == 0
  {
    if n > 0 {
      ShiftsOfZero(n - 1);
    }
  }

  lemma ShiftsOfOne()
    ensures Shifts(1, 32) == 0x04c11db7
  {
    hide Shift;
    PowersBelow32(31);
    Overflow();
    assert Shifts(1, 32) == Shift(Shifts(1, 31));
  }

  lemma Overflow()
    ensures Shift((1 as bv32) << 31) == 0x04c11db7
  {
  }

  lemma {:induction false} PowersBelow32(n: nat)
    requires n < 32
    ensures Shifts(1, n) == (1 as bv32) << n
  {
    if n > 0 {
      PowersBelow32(n - 1);
      OnePlace(n);
    }
  }

  lemma OnePlace(n: nat)
    requires 0 < n < 32
    ensures Shift((1 as bv32) << (n - 1)) == (1 as bv32) << n
  {
  }

  // ---- The register runs 32 places ahead of the division ----

  /** One bit of the usual register form, in which the message is added at the top. */
  function RegisterBit(c: bv32, bit: bool): bv32 {
    Xor32(Shift(c), if bit then 0x04c11db7 else 0)
  }

  function Register(c: bv32, bits: seq<bool>): bv32
    decreases |bits|
  {
    if bits == [] then c else Register(RegisterBit(c, bits[0]), bits[1..])
  }

  lemma RegisterLeads(r: bv32, bit: bool)
    ensures RegisterBit(Shifts(r, 32), bit) == Shifts(BringDown(r, bit), 32)
  {
    hide Shift;
    hide Xor32;
    ShiftsAreLinear(Shift(r), if bit then 1 else 0, 32);
    ShiftFirst(r, 32);
    ShiftsOfOne();
    ShiftsOfZero(32);
  }

  lemma {:induction false} RegisterIsRemainder(r: bv32, bits: seq<bool>)
    ensures Register(Shifts(r, 32), bits) == Shifts(Remainder(r, bits), 32)
    decreases |bits|
  {
    hide RegisterBit;
    hide BringDown;
    hide Shift;
    if bits != [] {
      RegisterLeads(r, bits[0]);
      RegisterIsRemainder(BringDown(r, bits[0]), bits[1..]);
    }
  }

  lemma {:induction false} ZerosShift(r: bv32, n: nat)
    ensures Remainder(r, seq(n, _ => false)) == Shifts(r, n)
    decreases n
  {
    hide Shift;
    if n > 0 {
      var zeros := seq(n, _ => false);
      assert zeros[1..] == seq(n - 1, _ => false);
      BringDownZero(r);
      ZerosShift(Shift(r), n - 1);
      ShiftFirst(r, n - 1);
    }
  }

  lemma BringDownZero(r: bv32)
    ensures BringDown(r, false) == Shift(r)
  {
    XorSame(Shift(r));
  }

  lemma {:induction false} RemainderAppend(r: bv32, s: seq<bool>, t: seq<bool>)
    ensures Remainder(r, s + t) == Remainder(Remainder(r, s), t)
    decreases |s|
  {
    hide BringDown;
    if s == [] {
      assert s + t == t;
    } else {
      assert (s + t)[1..] == s[1..] + t;
      RemainderAppend(BringDown(r, s[0]), s[1..], t);
    }
  }

  lemma {:induction false} RegisterAppend(c: bv32, s: seq<bool>, t: seq<bool>)
    ensures Register(c, s + t) == Register(Register(c, s), t)
    decreases |s|
  {
    hide RegisterBit;
    if s == [] {
      assert s + t == t;
    } else {
      assert (s + t)[1..] == s[1..] + t;
      RegisterAppend(RegisterBit(c, s[0]), s[1..], t);
    }
  }

  // ---- Eight register bits are one byte step ----

  /** The top bit of `w` is the next message bit; the others move up. */
  lemma AbsorbBit(c: bv32, w: bv32)
    ensures Shift(Xor32(c, w)) == Xor32(RegisterBit(c, w & 0x80000000 != 0), w << 1)
  {
    hide Xor32;
    ShiftIsLinear(c, w);
    XorLaws(Shift(c), 0x04c11db7, w << 1);
    XorSwaps(0x04c11db7, w << 1);
    XorSame(Shift(c));
  }

  lemma TopBits(b: byte)
    ensures var w := Top(b);
            && ByteBits(b) == [w & 0x80000000 != 0, (w << 1) & 0x80000000 != 0, (w << 2) & 0x80000000 != 0,
                               (w << 3) & 0x80000000 != 0, (w << 4) & 0x80000000 != 0, (w << 5) & 0x80000000 != 0,
                               (w << 6) & 0x80000000 != 0, (w << 7) & 0x80000000 != 0]
            && w << 8 == 0
  {
    hide Word;
    var x := Word(b);
    WordIsSmall(b);
    TopBitsOfWord(x);
  }

  lemma TopBitsOfWord(x: bv16)
    requires x < 256
    ensures var w := (x as bv32) << 24;
            && (x & 0x80 != 0) == (w & 0x80000000 != 0) && (x & 0x40 != 0) == ((w << 1) & 0x80000000 != 0)
            && (x & 0x20 != 0) == ((w << 2) & 0x80000000 != 0) && (x & 0x10 != 0) == ((w << 3) & 0x80000000 != 0)
            && (x & 0x08 != 0) == ((w << 4) & 0x80000000 != 0) && (x & 0x04 != 0) == ((w << 5) & 0x80000000 != 0)
            && (x & 0x02 != 0) == ((w << 6) & 0x80000000 != 0) && (x & 0x01 != 0) == ((w << 7) & 0x80000000 != 0)
            && w << 8 == 0
  {
  }

  lemma PlacesAdd(w: bv32)
    ensures (w << 1) << 1 == w << 2 && (w << 2) << 1 == w << 3 && (w << 3) << 1 == w << 4
    ensures (w << 4) << 1 == w << 5 && (w << 5) << 1 == w << 6 && (w << 6) << 1 == w << 7 && (w << 7) << 1 == w << 8
  {
  }

  lemma ByteIsEightBits(c: bv32, b: byte)
    ensures ByteStep(Xor32(c, Top(b))) == Register(c, ByteBits(b))
  {
    hide Shift;
    hide Xor32;
    hide RegisterBit;
    hide Top;
    hide ByteBits;
    var w := Top(b);
    TopBits(b);
    PlacesAdd(w);
    var c1 := RegisterBit(c, w & 0x80000000 != 0);
    var c2 := RegisterBit(c1, (w << 1) & 0x80000000 != 0);
    var c3 := RegisterBit(c2, (w << 2) & 0x80000000 != 0);
    var c4 := RegisterBit(c3, (w << 3) & 0x80000000 != 0);
    var c5 := RegisterBit(c4, (w << 4) & 0x80000000 != 0);
    var c6 := RegisterBit(c5, (w << 5) & 0x80000000 != 0);
    var c7 := RegisterBit(c6, (w << 6) & 0x80000000 != 0);
    var c8 := RegisterBit(c7, (w << 7) & 0x80000000 != 0);
    AbsorbBit(c, w);
    AbsorbBit(c1, w << 1);
    AbsorbBit(c2, w << 2);
    AbsorbBit(c3, w << 3);
    AbsorbBit(c4, w << 4);
    AbsorbBit(c5, w << 5);
    AbsorbBit(c6, w << 6);
    AbsorbBit(c7, w << 7);
    XorSame(c8);
    EightBits(c, ByteBits(b));
  }

  lemma EightBits(c: bv32, t: seq<bool>)
    requires |t| == 8
    ensures Register(c, t) ==
            RegisterBit(RegisterBit(RegisterBit(RegisterBit(RegisterBit(RegisterBit(RegisterBit(RegisterBit(
              c, t[0]), t[1]), t[2]), t[3]), t[4]), t[5]), t[6]), t[7])
  {
    hide RegisterBit;
    var c1 := RegisterBit(c, t[0]);
    var c2 := RegisterBit(c1, t[1]);
    var c3 := RegisterBit(c2, t[2]);
    var c4 := RegisterBit(c3, t[3]);
    var c5 := RegisterBit(c4, t[4]);
    var c6 := RegisterBit(c5, t[5]);
    var c7 := RegisterBit(c6, t[6]);
    assert t[0..] == t;
    OneBit(c, t, 0);
    OneBit(c1, t, 1);
    OneBit(c2, t, 2);
    OneBit(c3, t, 3);
    OneBit(c4, t, 4);
    OneBit(c5, t, 5);
    OneBit(c6, t, 6);
    OneBit(c7, t, 7);
    OneBit(RegisterBit(c7, t[7]), t, 8);
    hide Register;
  }

  lemma {:induction false} OneBit(c: bv32, t: seq<bool>, i: nat)
    requires |t| == 8 && i <= 8
    ensures i == 8 ==> Register(c, t[i..]) == c
    ensures i < 8 ==> Register(c, t[i..]) == Register(RegisterBit(c, t[i]), t[i + 1..])
    decreases 8 - i
  {
    if i < 8 {
      assert t[i..][1..] == t[i + 1..];
    }
  }

  lemma {:induction false} UpdateIsRegister(c: bv32, s: seq<byte>)
    ensures Update(c, s) == Register(c, MessageBits(s))
    decreases |s|
  {
    hide ByteStep;
    hide Xor32;
    hide Top;
    hide ByteBits;
    hide RegisterBit;
    if s != [] {
      ByteIsEightBits(c, s[0]);
      RegisterAppend(c, ByteBits(s[0]), MessageBits(s[1..]));
      UpdateIsRegister(Register(c, ByteBits(s[0])), s[1..]);
    }
  }

  /** Update followed by finish is the POSIX checksum. */
  lemma FinishIsCksum(s: seq<byte>)
    ensures Finish(Update(0, s), |s|) == Cksum(s)
  {
    hide Xor32;
    hide Update;
    hide Register;
    hide MessageBits;
    var bits := MessageBits(s + LengthBytes(|s|));
    UpdateComposes(0, s, LengthBytes(|s|));
    UpdateIsRegister(0, s + LengthBytes(|s|));
    ShiftsOfZero(32);
    RegisterIsRemainder(0, bits);
    RemainderAppend(0, bits, seq(32, _ => false));
    ZerosShift(Remainder(0, bits), 32);
  }

  // ---- The table ----

  const ROW_0: seq<bv32> :=
    [0x00000000, 0x04c11db7, 0x09823b6e, 0x0d4326d9, 0x130476dc, 0x17c56b6b, 0x1a864db2, 0x1e475005,
     0x2608edb8, 0x22c9f00f, 0x2f8ad6d6, 0x2b4bcb61, 0x350c9b64, 0x31cd86d3, 0x3c8ea00a, 0x384fbdbd]

  const ROW_1: seq<bv32> :=
    [0x4c11db70, 0x48d0c6c7, 0x4593e01e, 0x4152fda9, 0x5f15adac, 0x5bd4b01b, 0x569796c2, 0x52568b75,
     0x6a1936c8, 0x6ed82b7f, 0x639b0da6, 0x675a1011, 0x791d4014, 0x7ddc5da3, 0x709f7b7a, 0x745e66cd]

  const ROW_2: seq<bv32> :=
    [0x9823b6e0, 0x9ce2ab57, 0x91a18d8e, 0x95609039, 0x8b27c03c, 0x8fe6dd8b, 0x82a5fb52, 0x8664e6e5,
     0xbe2b5b58, 0xbaea46ef, 0xb7a96036, 0xb3687d81, 0xad2f2d84, 0xa9ee3033, 0xa4ad16ea, 0xa06c0b5d]

  const ROW_3: seq<bv32> :=
    [0xd4326d90, 0xd0f37027, 0xddb056fe, 0xd9714b49, 0xc7361b4c, 0xc3f706fb, 0xceb42022, 0xca753d95,
     0xf23a8028, 0xf6fb9d9f, 0xfbb8bb46, 0xff79a6f1, 0xe13ef6f4, 0xe5ffeb43, 0xe8bccd9a, 0xec7dd02d]

  const ROW_4: seq<bv32> :=
    [0x34867077, 0x30476dc0, 0x3d044b19, 0x39c556ae, 0x278206ab, 0x23431b1c, 0x2e003dc5, 0x2ac12072,
     0x128e9dcf, 0x164f8078, 0x1b0ca6a1, 0x1fcdbb16, 0x018aeb13, 0x054bf6a4, 0x0808d07d, 0x0cc9cdca]

  const ROW_5: seq<bv32> :=
    [0x7897ab07, 0x7c56b6b0, 0x71159069, 0x75d48dde, 0x6b93dddb, 0x6f52c06c, 0x6211e6b5, 0x66d0fb02,
     0x5e9f46bf, 0x5a5e5b08, 0x571d7dd1, 0x53dc6066, 0x4d9b3063, 0x495a2dd4, 0x44190b0d, 0x40d816ba]

  const ROW_6: seq<bv32> :=
    [0xaca5c697, 0xa864db20, 0xa527fdf9, 0xa1e6e04e, 0xbfa1b04b, 0xbb60adfc, 0xb6238b25, 0xb2e29692,
     0x8aad2b2f, 0x8e6c3698, 0x832f1041, 0x87ee0df6, 0x99a95df3, 0x9d684044, 0x902b669d, 0x94ea7b2a]

  const ROW_7: seq<bv32> :=
    [0xe0b41de7, 0xe4750050, 0xe9362689, 0xedf73b3e, 0xf3b06b3b, 0xf771768c, 0xfa325055, 0xfef34de2,
     0xc6bcf05f, 0xc27dede8, 0xcf3ecb31, 0xcbffd686, 0xd5b88683, 0xd1799b34, 0xdc3abded, 0xd8fba05a]

  const ROW_8: seq<bv32> :=
    [0x690ce0ee, 0x6dcdfd59, 0x608edb80, 0x644fc637, 0x7a089632, 0x7ec98b85, 0x738aad5c, 0x774bb0eb,
     0x4f040d56, 0x4bc510e1, 0x46863638, 0x42472b8f, 0x5c007b8a, 0x58c1663d, 0x558240e4, 0x51435d53]

  const ROW_9: seq<bv32> :=
    [0x251d3b9e, 0x21dc2629, 0x2c9f00f0, 0x285e1d47, 0x36194d42, 0x32d850f5, 0x3f9b762c, 0x3b5a6b9b,
     0x0315d626, 0x07d4cb91, 0x0a97ed48, 0x0e56f0ff, 0x1011a0fa, 0x14d0bd4d, 0x19939b94, 0x1d528623]

  const ROW_A: seq<bv32> :=
    [0xf12f560e, 0xf5ee4bb9, 0xf8ad6d60, 0xfc6c70d7, 0xe22b20d2, 0xe6ea3d65, 0xeba91bbc, 0xef68060b,
     0xd727bbb6, 0xd3e6a601, 0xdea580d8, 0xda649d6f, 0xc423cd6a, 0xc0e2d0dd, 0xcda1f604, 0xc960ebb3]

  const ROW_B: seq<bv32> :=
    [0xbd3e8d7e, 0xb9ff90c9, 0xb4bcb610, 0xb07daba7, 0xae3afba2, 0xaafbe615, 0xa7b8c0cc, 0xa379dd7b,
     0x9b3660c6, 0x9ff77d71, 0x92b45ba8, 0x9675461f, 0x8832161a, 0x8cf30bad, 0x81b02d74, 0x857130c3]

  const ROW_C: seq<bv32> :=
    [0x5d8a9099, 0x594b8d2e, 0x5408abf7, 0x50c9b640, 0x4e8ee645, 0x4a4ffbf2, 0x470cdd2b, 0x43cdc09c,
     0x7b827d21, 0x7f436096, 0x7200464f, 0x76c15bf8, 0x68860bfd, 0x6c47164a, 0x61043093, 0x65c52d24]

  const ROW_D: seq<bv32> :=
    [0x119b4be9, 0x155a565e, 0x18197087, 0x1cd86d30, 0x029f3d35, 0x065e2082, 0x0b1d065b, 0x0fdc1bec,
     0x3793a651, 0x3352bbe6, 0x3e119d3f, 0x3ad08088, 0x2497d08d, 0x2056cd3a, 0x2d15ebe3, 0x29d4f654]

  const ROW_E: seq<bv32> :=
    [0xc5a92679, 0xc1683bce, 0xcc2b1d17, 0xc8ea00a0, 0xd6ad50a5, 0xd26c4d12, 0xdf2f6bcb, 0xdbee767c,
     0xe3a1cbc1, 0xe760d676, 0xea23f0af, 0xeee2ed18, 0xf0a5bd1d, 0xf464a0aa, 0xf9278673, 0xfde69bc4]

  const ROW_F: seq<bv32> :=
    [0x89b8fd09, 0x8d79e0be, 0x803ac667, 0x84fbdbd0, 0x9abc8bd5, 0x9e7d9662, 0x933eb0bb, 0x97ffad0c,
     0xafb010b1, 0xab710d06, 0xa6322bdf, 0xa2f33668, 0xbcb4666d, 0xb8757bda, 0xb5365d03, 0xb1f740b4]

  /** crctab: row by row, as the high four bits of the index select. */
  function Crctab(index: bv32): bv32
    requires index < 256
  {
    var high, low := index & 0xf0, (index & 0x0f) as int;
    if high == 0x00 then ROW_0[low]
    else if high == 0x10 then ROW_1[low]
    else if high == 0x20 then ROW_2[low]
    else if high == 0x30 then ROW_3[low]
    else if high == 0x40 then ROW_4[low]
    else if high == 0x50 then ROW_5[low]
    else if high == 0x60 then ROW_6[low]
    else if high == 0x70 then ROW_7[low]
    else if high == 0x80 then ROW_8[low]
    else if high == 0x90 then ROW_9[low]
    else if high == 0xa0 then ROW_A[low]
    else if high == 0xb0 then ROW_B[low]
    else if high == 0xc0 then ROW_C[low]
    else if high == 0xd0 then ROW_D[low]
    else if high == 0xe0 then ROW_E[low]
    else ROW_F[low]
  }

  lemma Row0(i: bv32)
    requires i < 16
    ensures ByteStep((0x00 | i) << 24) == ROW_0[i as int]
  {
  }

  lemma Row1(i: bv32)
    requires i < 16
    ensures ByteStep((0x10 | i) << 24) == ROW_1[i as int]
  {
  }

  lemma Row2(i: bv32)
    requires i < 16
    ensures ByteStep((0x20 | i) << 24) == ROW_2[i as int]
  {
  }

  lemma Row3(i: bv32)
    requires i < 16
    ensures ByteStep((0x30 | i) << 24) == ROW_3[i as int]
  {
  }

  lemma Row4(i: bv32)
    requires i < 16
    ensures ByteStep((0x40 | i) << 24) == ROW_4[i as int]
  {
  }

  lemma Row5(i: bv32)
    requires i < 16
    ensures ByteStep((0x50 | i) << 24) == ROW_5[i as int]
  {
  }

  lemma Row6(i: bv32)
    requires i < 16
    ensures ByteStep((0x60 | i) << 24) == ROW_6[i as int]
  {
  }

  lemma Row7(i: bv32)
    requires i < 16
    ensures ByteStep((0x70 | i) << 24) == ROW_7[i as int]
  {
  }

  lemma Row8(i: bv32)
    requires i < 16
    ensures ByteStep((0x80 | i) << 24) == ROW_8[i as int]
  {
  }

  lemma Row9(i: bv32)
    requires i < 16
    ensures ByteStep((0x90 | i) << 24) == ROW_9[i as int]
  {
  }

  lemma RowA(i: bv32)
    requires i < 16
    ensures ByteStep((0xa0 | i) << 24) == ROW_A[i as int]
  {
  }

  lemma RowB(i: bv32)
    requires i < 16
    ensures ByteStep((0xb0 | i) << 24) == ROW_B[i as int]
  {
  }

  lemma RowC(i: bv32)
    requires i < 16
    ensures ByteStep((0xc0 | i) << 24) == ROW_C[i as int]
  {
  }

  lemma RowD(i: bv32)
    requires i < 16
    ensures ByteStep((0xd0 | i) << 24) == ROW_D[i as int]
  {
  }

  lemma RowE(i: bv32)
    requires i < 16
    ensures ByteStep((0xe0 | i) << 24) == ROW_E[i as int]
  {
  }

  lemma RowF(i: bv32)
    requires i < 16
    ensures ByteStep((0xf0 | i) << 24) == ROW_F[i as int]
  {
  }

  lemma SplitIndex(index: bv32)
    requires index < 256
    ensures index & 0x0f < 16 && (index & 0xf0) | (index & 0x0f) == index
    ensures var h := index & 0xf0;
            h == 0x00 || h == 0x10 || h == 0x20 || h == 0x30 || h == 0x40 || h == 0x50 || h == 0x60 || h == 0x70 ||
            h == 0x80 || h == 0x90 || h == 0xa0 || h == 0xb0 || h == 0xc0 || h == 0xd0 || h == 0xe0 || h == 0xf0
  {
  }

  /** All 256 entries are what eight shifts of the index in the top byte give. */
  lemma TableIsByteStep(index: bv32)
    requires index < 256
    ensures Crctab(index) == ByteStep(index << 24)
  {
    hide ByteStep;
    SplitIndex(index);
    var high, low := index & 0xf0, index & 0x0f;
    if high == 0x00 {
      Row0(low);
    } else if high == 0x10 {
      Row1(low);
    } else if high == 0x20 {
      Row2(low);
    } else if high == 0x30 {
      Row3(low);
    } else if high == 0x40 {
      Row4(low);
    } else if high == 0x50 {
      Row5(low);
    } else if high == 0x60 {
      Row6(low);
    } else if high == 0x70 {
      Row7(low);
    } else if high == 0x80 {
      Row8(low);
    } else if high == 0x90 {
      Row9(low);
    } else if high == 0xa0 {
      RowA(low);
    } else if high == 0xb0 {
      RowB(low);
    } else if high == 0xc0 {
      RowC(low);
    } else if high == 0xd0 {
      RowD(low);
    } else if high == 0xe0 {
      RowE(low);
    } else {
      RowF(low);
    }
  }

  lemma LowBytesShift(crc: bv32)
    ensures ByteStep(crc & 0x00ffffff) == crc << 8
  {
  }

  /** The register as its top byte with `ch` added, and the rest. */
  lemma TopByte(crc: bv32, x: bv16)
    requires x < 256
    ensures Xor32(crc >> 24, x as bv32) < 256
    ensures Xor32(crc, (x as bv32) << 24) == Xor32(Xor32(crc >> 24, x as bv32) << 24, crc & 0x00ffffff)
  {
  }

  lemma ByteStepIsLinear32(x: bv32, y: bv32)
    ensures ByteStep(Xor32(x, y)) == Xor32(ByteStep(x), ByteStep(y))
  {
    hide Shift;
    hide Xor32;
    EightShifts(Xor32(x, y));
    EightShifts(x);
    EightShifts(y);
    ShiftsAreLinear(x, y, 8);
  }

  lemma EightShifts(r: bv32)
    ensures ByteStep(r) == Shifts(r, 8)
  {
    hide Shift;
    var r2, r4, r6 := Shifts(r, 2), Shifts(r, 4), Shifts(r, 6);
    assert r2 == Shift(Shifts(r, 1)) && Shifts(r, 1) == Shift(Shifts(r, 0));
    assert r4 == Shift(Shifts(r, 3)) && Shifts(r, 3) == Shift(r2);
    assert r6 == Shift(Shifts(r, 5)) && Shifts(r, 5) == Shift(r4);
    assert Shifts(r, 8) == Shift(Shifts(r, 7)) && Shifts(r, 7) == Shift(r6);
  }

  /** One turn of the loops that use the table. */
  method TableStep(crc32: bv32, ch: byte) returns (next: bv32)
    ensures next == ByteStep(Xor32(crc32, Top(ch)))
  {
    hide ByteStep;
    hide Xor32;
    hide Word;
    hide Crctab;
    WordIsSmall(ch);
    TopByte(crc32, Word(ch));
    var tabidx := Xor32(crc32 >> 24, Word(ch) as bv32);
    TableIsByteStep(tabidx);
    LowBytesShift(crc32);
    ByteStepIsLinear32(tabidx << 24, crc32 & 0x00ffffff);
    XorSwaps(crc32 << 8, Crctab(tabidx));
    next := Xor32(crc32 << 8, Crctab(tabidx));
  }

  // ---- The routines and their two drivers ----

  method Crc32Update(crc32: bv32, data: seq<byte>) returns (crc: bv32)
    ensures crc == Update(crc32, data)
  {
    hide ByteStep;
    hide Xor32;
    hide Top;
    crc := crc32;
    var i := 0;
    assert data[0..] == data;
    while i < |data|
      invariant 0 <= i <= |data| && Update(crc32, data) == Update(crc, data[i..])
    {
      crc := TableStep(crc, data[i]);
      assert data[i..][1..] == data[i + 1..];
      i := i + 1;
    }
  }

  method Crc32Finish(crc32: bv32, len: nat) returns (crc: bv32)
    ensures crc == Finish(crc32, len)
  {
    hide ByteStep;
    hide Xor32;
    hide Top;
    crc := crc32;
    var n := len;
    while n != 0
      invariant Update(crc32, LengthBytes(len)) == Update(crc, LengthBytes(n))
    {
      var c := n % 256;
      assert LengthBytes(n)[1..] == LengthBytes(n / 256);
      n := n / 256;
      crc := TableStep(crc, c);
    }
    crc := Xor32(crc, 0xffffffff);
  }

  /** fs_read: some non-empty part of the file, nothing at its end. */
  method FsRead(file: seq<byte>, pos: nat, n: nat) returns (data: seq<byte>)
    requires pos <= |file| && n > 0
    ensures |data| <= n && pos + |data| <= |file| && data == file[pos..pos + |data|]
    ensures data == [] <==> pos == |file|
  {
    if pos == |file| {
      return [];
    }
    var k :| 1 <= k <= n && k <= |file| - pos;
    return file[pos..pos + k];
  }

  /**
   The pre-check of dfu_modem_write_image: a header, of which `header` bytes could
   be read, and then blocks of at most 1024 bytes.
   */
  method PreCheck(file: seq<byte>, header: nat) returns (ok: bool, crc32: bv32, fw_image_size: nat)
    requires header <= UA_HEADER_SIZE && header <= |file| && file != []
    ensures ok <==> header == UA_HEADER_SIZE
    ensures ok ==> fw_image_size == |file| - UA_HEADER_SIZE && crc32 == Cksum(file[UA_HEADER_SIZE..])
  {
    hide Finish;
    hide Cksum;
    hide ByteStep;
    hide Xor32;
    crc32, fw_image_size := 0, 0;
    if header != UA_HEADER_SIZE {
      return false, 0, 0;
    }
    ok := true;
    var pos := header;
    ghost var body := file[UA_HEADER_SIZE..];
    var notdone := true;
    while notdone
      invariant header <= pos <= |file| && fw_image_size == pos - header
      invariant notdone ==> crc32 == Update(0, body[..fw_image_size])
      invariant !notdone ==> pos == |file| && crc32 == Finish(Update(0, body), |body|)
      decreases notdone, |file| - pos
    {
      var block := FsRead(file, pos, 1024);
      if block != [] {
        fw_image_size := fw_image_size + |block|;
        UpdateComposes(0, body[..pos - header], block);
        assert body[..fw_image_size] == body[..pos - header] + block;
        crc32 := Crc32Update(crc32, block);
        pos := pos + |block|;
      } else {
        assert body[..fw_image_size] == body;
        crc32 := Crc32Finish(crc32, fw_image_size);
        notdone := false;
      }
    }
    FinishIsCksum(body);
  }

  /** cmd_sha1: blocks of at most 256 bytes, of which the first, `header` bytes long, must be whole. */
  method Sha1Command(file: seq<byte>, header: nat) returns (ok: bool, mcrc32: bv32, totalreadbytes: nat)
    requires header <= UA_HEADER_SIZE && header <= |file|
    ensures ok <==> header == UA_HEADER_SIZE
    ensures ok ==> totalreadbytes == |file| && mcrc32 == Cksum(file[UA_HEADER_SIZE..])
  {
    hide Finish;
    hide Cksum;
    hide ByteStep;
    hide Xor32;
    totalreadbytes, mcrc32 := 0, 0;
    ok := true;
    ghost var body := if header == UA_HEADER_SIZE then file[UA_HEADER_SIZE..] else [];
    var notdone := true;
    while notdone
      invariant totalreadbytes <= |file|
      invariant totalreadbytes > 0 ==> header == UA_HEADER_SIZE && totalreadbytes >= UA_HEADER_SIZE
      invariant mcrc32 == Update(0, if totalreadbytes == 0 then [] else body[..totalreadbytes - UA_HEADER_SIZE])
      invariant !notdone ==> totalreadbytes == |file| && totalreadbytes > 0
      decreases notdone, |file| - totalreadbytes
    {
      var block;
      if totalreadbytes == 0 {
        block := file[..header];
      } else {
        block := FsRead(file, totalreadbytes, UA_HEADER_SIZE);
      }
      if totalreadbytes == 0 && |block| != UA_HEADER_SIZE {
        return false, 0, 0;
      }
      totalreadbytes := totalreadbytes + |block|;
      if block == [] {
        notdone := false;
      } else if totalreadbytes > UA_HEADER_SIZE {
        UpdateComposes(0, body[..totalreadbytes - |block| - UA_HEADER_SIZE], block);
        assert body[..totalreadbytes - UA_HEADER_SIZE] == body[..totalreadbytes - |block| - UA_HEADER_SIZE] + block;
        mcrc32 := Crc32Update(mcrc32, block);
      }
    }
    assert body[..totalreadbytes - UA_HEADER_SIZE] == body;
    mcrc32 := Crc32Finish(mcrc32, totalreadbytes - UA_HEADER_SIZE);
    FinishIsCksum(body);
  }
}
