/**
 Well-known forms of the protocol, byte by byte, as any other Kermit writes and reads
 them. The laws of the other modules would also hold of two ends that agree on a
 private variant of the protocol; these do not.
 */
module KnownForms {
  import opened Bytes
  import opened BlockCheck
  import opened Codec
  import opened Negotiation
  import opened Attributes
  import Print = Packet

  /** The prefixes Kermit programs use unless told otherwise: #, & and ~. */
  const STANDARD: Quoting := Quoting(35, true, 38, true, 126)

  /** A control character, the same with its eighth bit, a prefix itself, two spaces and five NULs. */
  lemma EncodedForms()
    ensures EncodeRun(STANDARD, 1, 1) == [35, 65]                      // #A
    ensures EncodeRun(STANDARD, 129, 1) == [38, 35, 65]                // &#A
    ensures EncodeRun(STANDARD, 127, 1) == [35, 63]                    // #?
    ensures EncodeRun(STANDARD, 38, 1) == [35, 38]                     // #&
    ensures EncodeRun(STANDARD, 193, 1) == [38, 65]                    // &A
    ensures EncodeRun(STANDARD, 32, 2) == [32, 32]
    ensures EncodeRun(STANDARD, 0, 5) == [126, 37, 35, 64]             // ~%#@
    ensures EncodeRun(STANDARD, 141, 94) == [126, 126, 38, 35, 77]     // ~~&#M
  {
  }

  /** And back, also where a prefix was not needed. */
  lemma DecodedForms()
    ensures DecodeGroup(STANDARD, [126, 37, 35, 64]) == Some(Group(0, 5, []))
    ensures DecodeGroup(STANDARD, [38, 35, 65, 66]) == Some(Group(129, 1, [66]))
    ensures DecodeGroup(STANDARD, [35, 53]) == Some(Group(53, 1, []))
    ensures DecodeGroup(STANDARD, [126, 32, 120]) == Some(Group(120, 1, []))
  {
    assert [126, 37, 35, 64][2..] == [35, 64];
    assert [38, 35, 65, 66][2..] == [65, 66];
    assert [126, 32, 120][2..] == [120];
  }

  const DIGITS: seq<byte> := [49, 50, 51, 52, 53, 54, 55, 56, 57]

  lemma SumOfDigits()
    ensures Chk2(DIGITS) == 477
  {
    assert DIGITS[..1] == [49];
    assert DIGITS[..2][..1] == DIGITS[..1] && DIGITS[..3][..2] == DIGITS[..2] && DIGITS[..4][..3] == DIGITS[..3];
    assert DIGITS[..5][..4] == DIGITS[..4] && DIGITS[..6][..5] == DIGITS[..5] && DIGITS[..7][..6] == DIGITS[..6];
    assert DIGITS[..8][..7] == DIGITS[..7];
    assert Chk2(DIGITS[..1]) == 49 && Chk2(DIGITS[..2]) == 99 && Chk2(DIGITS[..3]) == 150;
    assert Chk2(DIGITS[..4]) == 202 && Chk2(DIGITS[..5]) == 255 && Chk2(DIGITS[..6]) == 309;
    assert Chk2(DIGITS[..7]) == 364 && Chk2(DIGITS[..8]) == 420;
  }

  /** The checks of the digits 1 to 9. */
  lemma KnownSums()
    ensures Chk2(DIGITS) == 477 && Chk1(DIGITS) == 32
  {
    SumOfDigits();
    hide Chk2;
  }

  lemma SumOfThree(a: byte, b: byte, c: byte)
    ensures Chk2([a, b, c]) == a + b + c
  {
    assert [a, b, c][..2] == [a, b] && [a, b][..1] == [a] && [a][..0] == [];
    assert Chk2([a]) == a && Chk2([a, b]) == a + b;
  }

  /** The acknowledgement of packet 1, as it goes over the line: a mark, #!Y? and a carriage return. */
  lemma KnownAcknowledgement()
    ensures Print.Frame(SOH, CR, 1, 1, 89, []) == [1, 35, 33, 89, 63, 13]
  {
    SumOfThree(35, 33, 89);
    var covered: seq<byte> := [35, 33, 89];
    assert Print.Header(1, 1, 89, 0) == covered && covered + [] == covered;
    assert Chk1(covered) == 31 by {
      hide Chk2;
    }
    hide Chk1;
    assert Print.CheckField(1, covered) == [63];
    hide Print.Header;
    hide Print.CheckField;
    assert Print.Body(1, 1, 89, []) == covered + [63];
  }

  lemma SumOfFive(a: byte, b: byte, c: byte, d: byte, e: byte)
    ensures Chk2([a, b, c, d, e]) == a + b + c + d + e
  {
    hide Chk2;
    SumOfThree(a, b, c);
    SumOfOneMore([a, b, c], d);
    SumOfOneMore([a, b, c, d], e);
    assert [a, b, c, d, e][..4] == [a, b, c, d] && [a, b, c, d][..3] == [a, b, c];
    assert [a, b, c] + [d] == [a, b, c, d] && [a, b, c, d] + [e] == [a, b, c, d, e];
  }

  /** The extended header of a data packet number 2 with 95 characters and a check of type 1. */
  lemma KnownLongHeader()
    ensures Print.Header(1, 2, 68, 95) == [32, 34, 68, 33, 33, 43]
  {
    HeaderCheck();
    hide Chk1;
  }

  lemma HeaderCheck()
    ensures Chk1([32, 34, 68, 33, 33]) == 11
  {
    SumOfFive(32, 34, 68, 33, 33);
    hide Chk2;
  }

  /** The announcement of this program with check type 3. */
  lemma KnownAnnouncement()
    ensures Announce(Initial(0, 3)) == [126, 72, 32, 64, 45, 35, 89, 51, 126, 46, 36, 53, 37]
  {
  }

  /** The attributes of a binary file of 5 bytes. */
  lemma KnownAttributes()
    ensures AttrString(true, 5, []) == [34, 34, 66, 56, 49, 33, 53, 64, 32]
  {
    assert Pow10(14) > 5 by {
      assert Pow10(1) == 10;
      Pow10Grows(1, 14);
    }
    assert Decimal(5) == [53];
    hide Pow10;
  }

  lemma {:induction false} Pow10Grows(a: nat, b: nat)
    requires a <= b
    ensures Pow10(a) <= Pow10(b)
    decreases b
  {
    if a < b {
      Pow10Grows(a, b - 1);
    }
  }
}
