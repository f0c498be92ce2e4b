/**
 What check type 2 does to transfers. A receiver takes a packet only if the sum of
 its bytes is below 4096, so it takes every packet with little data and none with
 128 to 250 characters of data, and some lists of files it makes impossible.
 */
module TypeTwo {
  import opened Bytes
  import opened Engine
  import opened Transfer
  import opened Wire
  import opened Recovery
  import opened Names
  import opened BlockCheck
  import Print = Packet

  // ---- Which packets fit ----

  /** What spkt may be given. */
  predicate Proper(p: Packet) {
    0 <= p.sq < 64 && Graphic(p.typ) && p.typ < 128
  }

  lemma HeaderSum(p: Packet)
    requires Proper(p) && |p.data| <= 250
    ensures Chk2(Print.Header(2, p.sq, p.typ, |p.data|)) <= 127 * (if |p.data| > 90 then 6 else 3)
  {
    Print.HeaderIsGraphic(2, p.sq, p.typ, |p.data|);
    hide Chk1;
    hide Chk2;
    SumIsWithin(Print.Header(2, p.sq, p.typ, |p.data|), 0, 127);
  }

  /** The sum of a packet lies between these multiples of its length. */
  lemma PacketSum(p: Packet, lo: nat, hi: nat)
    requires Proper(p) && |p.data| <= 250 && hi <= 255
    requires forall i :: 0 <= i < |p.data| ==> lo <= p.data[i] <= hi
    ensures var sum := Chk2(Print.Header(2, p.sq, p.typ, |p.data|) + p.data);
            lo * |p.data| <= sum <= hi * |p.data| + 127 * (if |p.data| > 90 then 6 else 3)
  {
    hide Print.Header;
    hide Chk2;
    HeaderSum(p);
    assert hi * |p.data| <= 255 * |p.data|;
    SumIsWithin(p.data, lo, hi);
    SumOfParts(Print.Header(2, p.sq, p.typ, |p.data|), p.data);
  }

  /** Of data the line does not alter, fourteen characters always fit; from 128 to 250 printable ones never do. */
  lemma FitsByLength(parity: bool, p: Packet)
    requires Proper(p) && Crosses(parity, p.data)
    ensures |p.data| <= 14 ==> CheckFits(2, parity, p)
    ensures 128 <= |p.data| <= 250 && AllGraphic(p.data) ==> !CheckFits(2, parity, p)
  {
    hide Print.Header;
    hide Chk2;
    hide CheckFits;
    UnalteredFits(2, parity, p);
    if |p.data| <= 14 {
      PacketSum(p, 0, 255);
    } else if |p.data| <= 250 && AllGraphic(p.data) {
      PacketSum(p, 32, 255);
    }
  }

  // ---- A transfer that cannot be completed ----

  /** Lower-case letters. */
  predicate Letters(s: seq<byte>) {
    forall i :: 0 <= i < |s| ==> 97 <= s[i] <= 122
  }

  lemma LettersDoNotFit(parity: bool, p: Packet)
    requires Proper(p) && Letters(p.data) && 43 <= |p.data| <= 250
    ensures !CheckFits(2, parity, p)
  {
    hide Print.Header;
    hide Chk2;
    hide CheckFits;
    assert 97 * |p.data| >= 4096;
    assert Crosses(parity, p.data);
    UnalteredFits(2, parity, p);
    PacketSum(p, 97, 122);
  }

  /**
   With check type 2 a list with a name of 43 to 250 letters can never be sent, whatever
   the lines do and however getpkt writes the name: it arrives whole, so that its
   acknowledgement repeats it letter by letter, and that packet has too large a sum.
   */
  lemma LongNameCannotBeSent(c: Setup, g: Cutter, n: nat)
    requires GoodSetup(c) && Legal(c, g) && c.bs == 2 && n < |c.files|
    requires Letters(c.files[n].name) && 43 <= |c.files[n].name| <= 250
    ensures !CanFinish(c, g, Start(c))
  {
    hide Legal;
    hide CanFinish;
    hide CheckFits;
    hide Start;
    forall sq: int | 0 <= sq < 64
      ensures !CheckFits(c.bs, Stripped(c), Packet(sq, Y, c.files[n].name))
    {
      LettersDoNotFit(Stripped(c), Packet(sq, Y, c.files[n].name));
    }
    NameMustComeBack(c, g, n);
  }
}
