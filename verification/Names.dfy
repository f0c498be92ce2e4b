/**
 What becomes of file names. The receiver puts the name it has read, as it is, into
 the acknowledgement of the F packet, where nothing prefixes its eighth bits. A sender
 whose line strips them computes the block check over something else.
 */
module Names {
  import opened Bytes
  import opened Codec
  import opened SendCodec
  import opened Negotiation
  import opened Engine
  import opened Slots
  import opened Transfer
  import opened Wire
  import opened Impasse
  import opened Completion
  import opened Recovery
  import opened BlockCheck
  import Print = Packet

  /** The most bytes of a name that are sure to be sent in one field. */
  const WHOLE: nat := 664

  // ---- Ways to cut exist ----

  /** Cutting names into one field and files byte by byte. */
  function Simple(c: Setup): Cutter {
    Cutter((n: nat) => if n < |c.files| then Spelled(Code(c), Shortened(c.files[n].name)) else [],
           (n: nat, pending: seq<byte>) => Nibble(Code(c), pending))
  }

  lemma SimpleIsLegal(c: Setup)
    requires GoodSetup(c)
    ensures Legal(c, Simple(c))
  {
    hide Decode;
    hide Spelled;
    hide Nibble;
    hide NameField;
    hide DataField;
    hide Sound;
    hide SenderPar;
    hide Code;
    Negotiated(c);
    ConfigCode(c);
    var g := Simple(c);
    forall n | 0 <= n < |c.files|
      ensures NameField(Config(SenderPar(c)), c.files[n].name, g.name(n))
    {
      ShortenedIsNameField(Config(SenderPar(c)), c.files[n].name);
    }
    forall n, pending
      ensures DataField(Code(c), pending, g.data(n, pending))
    {
      NibbleIsDataField(Code(c), pending);
    }
  }

  // ---- Every name has to come back ----

  /** The packet with the name of file `n`. */
  predicate NamesFile(g: Cutter, n: nat, p: Packet) {
    0 <= p.sq < 64 && p.typ == F && p.data == g.name(n)
  }

  /** The packets still to be issued are the next one and those after it. */
  lemma RestGoesOn(c: Setup, g: Cutter, sq: int, st: State, next: nat, pending: seq<byte>)
    requires Legal(c, g) && next <= |c.files|
    requires ((st == S_INIT || st == S_EOF) && next < |c.files|) || (next > 0 && st in {S_FILE, S_ATTR, S_DATA})
    ensures var ps, sq' := Rest(c, g, sq, st, next, pending), Succ(sq);
            && ps != []
            && ps[1..] ==
               if st == S_INIT || st == S_EOF then Rest(c, g, sq', S_FILE, next + 1, c.files[next].content)
               else if st == S_FILE && Attributed(c) then Rest(c, g, sq', S_ATTR, next, pending)
               else
                 var fill := NextCut(c, g, next - 1, pending);
                 if fill.field == [] then Rest(c, g, sq', S_EOF, next, pending)
                 else Rest(c, g, sq', S_DATA, next, fill.rest)
    ensures st == S_INIT || st == S_EOF ==> NamesFile(g, next, Rest(c, g, sq, st, next, pending)[0])
  {
    hide Legal;
    hide AttrField;
  }

  /** Among the packets still to be issued is the one with the name of each file to come. */
  lemma {:induction false} NameIsToCome(c: Setup, g: Cutter, sq: int, st: State, next: nat, pending: seq<byte>,
                                        n: nat) returns (i: nat)
    requires Legal(c, g) && next <= n < |c.files|
    requires st == S_INIT || st == S_EOF || (next > 0 && st in {S_FILE, S_ATTR, S_DATA})
    ensures var ps := Rest(c, g, sq, st, next, pending); i < |ps| && NamesFile(g, n, ps[i])
    decreases |c.files| - next, Rank(st), |pending|
  {
    hide Legal;
    hide Rest;
    hide NamesFile;
    hide Succ;
    RestGoesOn(c, g, sq, st, next, pending);
    if (st == S_INIT || st == S_EOF) && next == n {
      i := 0;
    } else {
      if st == S_INIT || st == S_EOF {
        i := NameIsToCome(c, g, Succ(sq), S_FILE, next + 1, c.files[next].content, n);
      } else if st == S_FILE && Attributed(c) {
        i := NameIsToCome(c, g, Succ(sq), S_ATTR, next, pending, n);
      } else {
        var fill := NextCut(c, g, next - 1, pending);
        if fill.field == [] {
          i := NameIsToCome(c, g, Succ(sq), S_EOF, next, pending, n);
        } else {
          i := NameIsToCome(c, g, Succ(sq), S_DATA, next, fill.rest, n);
        }
      }
      i := i + 1;
    }
  }

  /** A name of moderate length arrives whole, whatever field getpkt makes of it. */
  lemma WholeName(c: Setup, n: nat, name: seq<byte>)
    requires GoodSetup(c) && n < |c.files| && |c.files[n].name| <= WHOLE && NameArrived(c, c.files[n], name)
    ensures name == c.files[n].name
  {
    hide Adopt;
    hide Announce;
    NegotiationAgrees(c.ps, c.bs, c.sa, c.pr, c.br, c.ra);
  }

  lemma NameIsEchoed(c: Setup, g: Cutter, n: nat, sq: int)
    requires GoodSetup(c) && Legal(c, g) && n < |c.files| && |c.files[n].name| <= WHOLE
    ensures Echo(c, Packet(sq, F, g.name(n))) == c.files[n].name
  {
    assert NameField(Config(SenderPar(c)), c.files[n].name, g.name(n));
    hide Legal;
    hide Decode;
    hide Code;
    hide SenderPar;
    hide Sendable;
    ConfigCode(c);
    WholeName(c, n, Decode(Code(c), g.name(n)).value);
  }

  lemma StartOfIssue(c: Setup, g: Cutter)
    requires Legal(c, g)
    ensures var y := Start(c);
            && y.s.next == 0 && !y.sOut.Done? && y.s.state == S_INIT && y.cur == Opening(c)
            && ToIssue(c, g, y) == Rest(c, g, 0, S_INIT, 0, [])
  {
    hide Legal;
    hide Announce;
    hide Offer;
    hide Rest;
  }

  /** If the acknowledgement that repeats one of the names cannot be accepted, the list can never be sent. */
  lemma NameMustComeBack(c: Setup, g: Cutter, n: nat)
    requires GoodSetup(c) && Legal(c, g) && n < |c.files| && |c.files[n].name| <= WHOLE
    requires forall sq: int | 0 <= sq < 64 :: !CheckFits(c.bs, Stripped(c), Packet(sq, Y, c.files[n].name))
    ensures !CanFinish(c, g, Start(c))
  {
    hide Legal;
    hide CanFinish;
    hide ToIssue;
    hide CheckFits;
    hide Blocked;
    hide Start;
    hide Rest;
    hide Echo;
    StartIsGood(c);
    StartOfIssue(c, g);
    var i := NameIsToCome(c, g, 0, S_INIT, 0, [], n);
    var p := ToIssue(c, g, Start(c))[i];
    NameIsEchoed(c, g, n, p.sq);
    assert p == Packet(p.sq, F, g.name(n));
    assert !AckFits(c, p, Packet(p.sq, Y, Echo(c, p)));
    assert !Exchangeable(c, p);
    LostForGood(c, g, Start(c));
  }

  // ---- Eighth bits and the folded sum ----

  /** How many characters have an eighth bit. */
  function EighthBits(s: seq<byte>): nat {
    if s == [] then 0 else EighthBits(s[..|s| - 1]) + if s[|s| - 1] >= 128 then 1 else 0
  }

  lemma OneMoreStripped(s: seq<byte>, a: byte)
    ensures Strip7(s + [a]) == Strip7(s) + [a % 128]
    ensures EighthBits(s + [a]) == EighthBits(s) + if a >= 128 then 1 else 0
  {
    assert (s + [a])[..|s|] == s;
  }

  lemma SumOfOneStripped(h: seq<byte>, s: seq<byte>, a: byte)
    requires Chk2(h + s) == Wrap(Chk2(h + Strip7(s)) + 128 * EighthBits(s))
    ensures Chk2(h + (s + [a])) == Wrap(Chk2(h + Strip7(s + [a])) + 128 * EighthBits(s + [a]))
  {
    hide Chk2;
    hide Strip7;
    hide EighthBits;
    hide Wrap;
    OneMoreStripped(s, a);
    SumOfLast(h, s, a);
    SumOfLast(h, Strip7(s), a % 128);
    LastOfSum(Chk2(h + Strip7(s)), EighthBits(s), a);
  }

  lemma {:induction false} SumWithoutEighthBits(h: seq<byte>, s: seq<byte>)
    ensures Chk2(h + s) == Wrap(Chk2(h + Strip7(s)) + 128 * EighthBits(s))
    decreases |s|
  {
    hide Chk2;
    if s == [] {
      assert h + s == h && h + Strip7(s) == h;
    } else {
      hide Strip7;
      hide Wrap;
      var s', a := s[..|s| - 1], s[|s| - 1];
      SumWithoutEighthBits(h, s');
      SumOfOneStripped(h, s', a);
      assert s == s' + [a];
    }
  }

  lemma AddWrapped(u: nat, a: nat)
    ensures Wrap(Wrap(u) + a) == Wrap(u + a)
  {
  }

  lemma LastOfSum(sum: nat, k: nat, a: byte)
    ensures Wrap(Wrap(sum + 128 * k) + a) == Wrap(Wrap(sum + a % 128) + 128 * (k + if a >= 128 then 1 else 0))
  {
    hide Wrap;
    var k' := k + if a >= 128 then 1 else 0;
    AddWrapped(sum + 128 * k, a);
    AddWrapped(sum + a % 128, 128 * k');
    assert sum + 128 * k + a == sum + a % 128 + 128 * k';
  }

  /** The folded sum keeps bit 7 of the sum, and nothing above it. */
  lemma FoldedSums(a: nat, b: nat, k: nat)
    requires a == (b + 128 * k) % 65536
    ensures ((a / 64) % 4 + a) % 64 == ((b / 64) % 4 + b) % 64 <==> k % 2 == 0
  {
    var m := (b + 128 * k) / 65536;
    assert a == b + 128 * k - 65536 * m;
    var x, r := b / 64, b % 64;
    assert b == 64 * x + r;
    assert a == 64 * (x + 2 * k - 1024 * m) + r;
    var y := x + 2 * k - 1024 * m;
    assert a / 64 == y && a % 64 == r;
    FoldedDigits(a, y, r);
    FoldedDigits(b, x, r);
    Quarters(x, y, k, m);
  }

  lemma FoldedDigits(a: nat, x: nat, r: nat)
    requires a == 64 * x + r && r < 64
    ensures a / 64 == x && ((a / 64) % 4 + a) % 64 == (x % 4 + r) % 64
  {
    assert a / 64 == x;
    assert (x % 4 + a) == 64 * x + (x % 4 + r);
  }

  lemma Quarters(x: nat, y: nat, k: nat, m: nat)
    requires y == x + 2 * k - 1024 * m
    ensures k % 2 == 0 ==> y % 4 == x % 4
    ensures k % 2 == 1 ==> y % 4 == (x + 2) % 4
  {
    var j := k / 2;
    if k % 2 == 0 {
      assert y == x + 4 * (j - 256 * m);
    } else {
      assert y == x + 2 + 4 * (j - 256 * m);
    }
  }

  lemma CleanWhenStripped(s: seq<byte>)
    requires 0 !in s && 128 !in s
    ensures Seen(true, s) == Strip7(s)
  {
    CStringOfClean(Strip7(s));
  }

  /** Check type 1 passes over stripped data if and only if an even number of eighth bits is missing. */
  lemma FoldedSumMissesPairs(p: Packet)
    requires 0 !in p.data && 128 !in p.data
    ensures CheckFits(1, true, p) <==> EighthBits(p.data) % 2 == 0
  {
    hide Chk2;
    hide Print.Header;
    hide Print.CheckField;
    hide Print.CheckValue;
    hide EighthBits;
    hide Strip7;
    var h := Print.Header(1, p.sq, p.typ, |p.data|);
    CleanWhenStripped(p.data);
    Print.CheckReadBack(1, h + p.data);
    SumWithoutEighthBits(h, p.data);
    FoldedSums(Chk2(h + p.data), Chk2(h + Strip7(p.data)), EighthBits(p.data));
  }

  /** Names short enough to be sent whole, none with a character that becomes a NUL. */
  predicate ModerateNames(c: Setup) {
    forall n :: 0 <= n < |c.files| ==> |c.files[n].name| <= WHOLE && 128 !in c.files[n].name
  }

  lemma EvenNamesComeBack(c: Setup)
    requires GoodSetup(c) && c.bs == 1 && Stripped(c) && ModerateNames(c)
    requires forall n :: 0 <= n < |c.files| ==> EighthBits(c.files[n].name) % 2 == 0
    ensures NamesComeBack(c)
  {
    hide CheckFits;
    hide EighthBits;
    hide NameArrived;
    forall n, sq, name | 0 <= n < |c.files| && 0 <= sq < 64 && NameArrived(c, c.files[n], name)
      ensures CheckFits(c.bs, Stripped(c), Packet(sq, Y, name))
    {
      WholeName(c, n, name);
      FoldedSumMissesPairs(Packet(sq, Y, name));
    }
  }

  lemma StartIsOpen(c: Setup)
    requires GoodSetup(c) && c.bs != 2
    ensures !Blocked(c, Start(c))
  {
    hide Announce;
    hide Offer;
    hide Exchangeable;
    hide WouldRepeat;
    StartsTheTurn(c);
    OpeningCrosses(c);
    OtherChecksFit(c, Opening(c));
  }

  /**
   With parity at either end and check type 1, a list of files whose names are at most
   664 bytes long, and have no byte 128, can be sent if and only if each of the names
   has an even number of characters with an eighth bit: for every way in which getpkt
   may cut them, and whatever the lines do. The sum does not notice a pair of missing
   eighth bits, and the sender does not look at the name that comes back.
   */
  lemma EvenNamesCanBeSent(c: Setup, g: Cutter)
    requires GoodSetup(c) && Legal(c, g) && c.bs == 1 && Stripped(c) && ModerateNames(c)
    ensures CanFinish(c, g, Start(c)) <==>
              forall n :: 0 <= n < |c.files| ==> EighthBits(c.files[n].name) % 2 == 0
  {
    hide Legal;
    hide CanFinish;
    hide Blocked;
    hide Start;
    hide Rest;
    hide EighthBits;
    hide CheckFits;
    hide NamesComeBack;
    hide AllExchangeable;
    if forall n :: 0 <= n < |c.files| ==> EighthBits(c.files[n].name) % 2 == 0 {
      StartIsGood(c);
      StartIsOpen(c);
      StartOfIssue(c, g);
      EvenNamesComeBack(c);
      RestIsExchangeable(c, g, 0, S_INIT, 0, []);
      hide Inv;
      RecoverableCanFinish(c, g, Start(c));
    } else {
      var n: nat :| n < |c.files| && EighthBits(c.files[n].name) % 2 != 0;
      forall sq: int | 0 <= sq < 64
        ensures !CheckFits(c.bs, Stripped(c), Packet(sq, Y, c.files[n].name))
      {
        FoldedSumMissesPairs(Packet(sq, Y, c.files[n].name));
      }
      NameMustComeBack(c, g, n);
    }
  }

  // ---- Eighth bits and the CRC ----

  /** All eighth bits, and at least one, are in the characters `i` and `i + 1`. */
  predicate OnePair(s: seq<byte>, i: nat) {
    && (exists k :: 0 <= k < |s| && s[k] >= 128)
    && (forall k :: 0 <= k < |s| && s[k] >= 128 ==> k == i || k == i + 1)
  }

  lemma SameByteNoDifference(a: byte)
    ensures Xor(Word(a), Word(a)) == 0
  {
    hide Word;
    XorUnits(Word(a));
  }

  lemma ByteDifferenceIsSmall(a: byte, b: byte)
    ensures Xor(Word(a), Word(b)) < 256
  {
    hide Word;
    WordIsSmall(a);
    WordIsSmall(b);
    SmallXor(Word(a), Word(b));
  }

  lemma SmallXor(x: bv16, y: bv16)
    requires x < 256 && y < 256
    ensures Xor(x, y) < 256
  {
  }

  lemma WindowOfTwo(d0: bv16, d1: bv16, d2: bv16)
    requires d1 < 256 && d2 < 256 && d0 == 0
    ensures InWindow(d0, d1, d2, 8)
  {
  }

  /** Bytes that differ in two neighbours only differ in a burst of sixteen bits. */
  lemma PairIsBurst(s: seq<byte>, t: seq<byte>, at: nat)
    requires DifferWithin(s, t, at) && s[at] == t[at]
    ensures Burst(s, t, at, 8)
  {
    hide Word;
    hide Xor;
    hide InWindow;
    SameByteNoDifference(s[at]);
    ByteDifferenceIsSmall(s[at + 1], t[at + 1]);
    ByteDifferenceIsSmall(s[at + 2], t[at + 2]);
    WindowOfTwo(Xor(Word(s[at]), Word(t[at])), Xor(Word(s[at + 1]), Word(t[at + 1])),
                Xor(Word(s[at + 2]), Word(t[at + 2])));
  }

  /** Behind a header, text with one such pair of characters has another CRC when it is stripped. */
  lemma StrippedPairIsNoticed(h: seq<byte>, s: seq<byte>, i: nat)
    requires |h| >= 2 && OnePair(s, i)
    ensures Crc(h + s) != Crc(h + Strip7(s))
  {
    hide Burst;
    var t := Strip7(s);
    var at := if i + 1 < |s| then |h| + i - 1 else |h| + i - 2;
    var k :| 0 <= k < |s| && s[k] >= 128;
    var u, v := h + s, h + t;
    assert u[|h| + k] != v[|h| + k];
    assert forall j :: 0 <= j < |u| && j != |h| + i && j != |h| + i + 1 ==> u[j] == v[j];
    assert u[..at] == v[..at] && u[at + 3..] == v[at + 3..];
    PairIsBurst(u, v, at);
    BurstIsDetected(u, v, at, 8);
  }

  lemma CrcNoticesPair(p: Packet, i: nat)
    requires 0 !in p.data && 128 !in p.data && OnePair(p.data, i)
    ensures !CheckFits(3, true, p)
  {
    hide Crc;
    hide Print.CheckField;
    hide Print.CheckValue;
    hide Strip7;
    hide OnePair;
    hide Print.Header;
    var h := Print.Header(3, p.sq, p.typ, |p.data|);
    CleanWhenStripped(p.data);
    Print.CheckReadBack(3, h + p.data);
    StrippedPairIsNoticed(h, p.data, i);
    CrcAsValue(h + p.data, h + Strip7(p.data));
  }

  lemma CrcAsValue(s: seq<byte>, t: seq<byte>)
    requires Crc(s) != Crc(t)
    ensures Chk3(s) != Chk3(t)
  {
    hide Crc;
    hide AsWord;
    WordOfValue(Crc(s));
    WordOfValue(Crc(t));
  }

  function AsWord(value: int): bv16
    requires 0 <= value < 65536
  {
    value as bv16
  }

  lemma WordOfValue(x: bv16)
    ensures 0 <= x as int < 65536 && AsWord(x as int) == x
  {
  }

  /**
   With parity at either end and check type 3, a list with a name of at most 664 bytes
   whose eighth bits, one or two, are in neighbouring characters can never be sent: the
   CRC notices every burst of sixteen bits.
   */
  lemma PairedNameCannotBeSent(c: Setup, g: Cutter, n: nat, i: nat)
    requires GoodSetup(c) && Legal(c, g) && c.bs == 3 && Stripped(c) && n < |c.files|
    requires |c.files[n].name| <= WHOLE && 128 !in c.files[n].name && OnePair(c.files[n].name, i)
    ensures !CanFinish(c, g, Start(c))
  {
    hide Legal;
    hide CanFinish;
    hide Start;
    hide CheckFits;
    hide OnePair;
    forall sq: int | 0 <= sq < 64
      ensures !CheckFits(c.bs, Stripped(c), Packet(sq, Y, c.files[n].name))
    {
      CrcNoticesPair(Packet(sq, Y, c.files[n].name), i);
    }
    NameMustComeBack(c, g, n);
  }
}
