/**
 Packets on the wire: `spkt` prints them, `readpkt` frames the incoming bytes
 and the K_RUN parser takes the frame apart again. Section 9.1 of the Kermit
 Protocol Manual describes the layout.
 */
module Packet {
  import opened Bytes
  import opened BlockCheck

  const BUFSIZE: nat := 2008  // P_PKTLEN + 8

  // ---- The layout, as mathematics ----

  /** The characters of a block check of type `bct` over `s`. */
  function CheckField(bct: int, s: seq<byte>): (r: seq<byte>)
    requires 1 <= bct <= 3
    ensures |r| == bct
  {
    if bct == 1 then [ToChar(Chk1(s))]
    else if bct == 2 then [ToChar((Chk2(s) / 64) % 64), ToChar(Chk2(s) % 64)]
    else [ToChar(Chk3(s) / 4096), ToChar((Chk3(s) / 64) % 64), ToChar(Chk3(s) % 64)]
  }

  predicate Long(bct: int, len: nat) {
    len + bct + 2 > 94
  }

  /** Everything before the data: LEN, SEQ, TYPE and, for long packets, the extended length and its check. */
  function Header(bct: int, sq: int, typ: byte, len: nat): (h: seq<byte>)
    ensures |h| == if Long(bct, len) then 6 else 3
  {
    var j := len + bct;
    if Long(bct, len) then
      var h := [ToChar(0), ToChar(sq), typ, ToChar(j / 95), ToChar(j % 95)];
      h + [ToChar(Chk1(h))]
    else [ToChar(j + 2), ToChar(sq), typ]
  }

  /** The packet without its mark and terminator. */
  function Body(bct: int, sq: int, typ: byte, data: seq<byte>): seq<byte>
    requires 1 <= bct <= 3
  {
    var covered := Header(bct, sq, typ, |data|) + data;
    covered + CheckField(bct, covered)
  }

  function Frame(soh: byte, eom: byte, bct: int, sq: int, typ: byte, data: seq<byte>): seq<byte>
    requires 1 <= bct <= 3
  {
    [soh] + Body(bct, sq, typ, data) + [eom]
  }

  // ---- What the receiving side makes of a buffer ----

  datatype Verdict =
    | BadHeader(typ: byte)                               // extended header check failed
    | BadCheck(typ: byte)                                // block check failed
    | Accepted(sq: byte, typ: byte, data: seq<byte>)
    | Wild                                               // lengths point outside the buffer or before the data

  /** The value of a block check field. */
  function CheckValue(f: seq<byte>): int
    requires 1 <= |f| <= 3
  {
    if |f| == 1 then UnChar(f[0])
    else if |f| == 2 then Or(UnChar(f[0]), UnChar(f[1]))
    else Or(Or(UnChar(f[0]), UnChar(f[1])), UnChar(f[2]))
  }

  /** Bitwise or of two numbers below four. */
  function Or2(x: nat, y: nat): nat {
    (if x >= 2 || y >= 2 then 2 else 0) + (if x % 2 == 1 || y % 2 == 1 then 1 else 0)
  }

  /** `hi << 6 | lo` for `lo` below 256: the upper two bits of `lo` overlap `hi`. */
  function Or(hi: nat, lo: byte): nat {
    (hi - hi % 4 + Or2(hi % 4, lo / 64)) * 64 + lo % 64
  }

  /** The check of type `bct` over a string, compared as the source compares it. */
  function CheckOf(bct: int, s: seq<byte>): int {
    if bct == 1 then Chk1(s) else if bct == 2 then Chk2(s) else Chk3(s)
  }

  /**
   The K_RUN parser on the buffer a packet was read into, with block check type
   `bct` in force. S packets, and everything read in state S_INIT, always use
   type 1. An E packet may carry a type-1 check under any setting.
   */
  function Parse(buf: seq<byte>, bct: int, init: bool): Verdict
    requires |buf| >= 6 && 1 <= bct <= 3
  {
    var typ := buf[2];
    var long := UnChar(buf[0]) == 0;
    if long && UnChar(buf[5]) != Chk1(CString(buf[..5])) then BadHeader(typ)
    else
      var start := if long then 6 else 3;
      var first := typ == 83 || init;  // 'S'
      var chklen := if first then 1 else bct;
      var datalen := if first then UnChar(buf[0]) - 3
                     else if long then UnChar(buf[3]) * 95 + UnChar(buf[4]) - bct
                     else UnChar(buf[0]) - bct - 2;
      var end := start + datalen;
      if datalen < 0 || end + chklen > |buf| then Wild
      else if CheckValue(buf[end..end + chklen]) == CheckOf(chklen, CString(buf[..end])) then
        Accepted(UnChar(buf[1]), typ, CString(buf[start..end]))
      else if typ == 69 && chklen > 1  // 'E'
              && UnChar(buf[end + chklen - 1]) == Chk1(CString(buf[..end + chklen - 1])) then
        Accepted(UnChar(buf[1]), typ, CString(buf[start..end + chklen - 1]))
      else BadCheck(typ)
  }

  // ---- Printing and parsing are inverse ----

  lemma ToCharExact(n: nat)
    requires n <= 94
    ensures UnChar(ToChar(n)) == n && Graphic(ToChar(n)) && ToChar(n) < 128 && ToChar(n) == n + 32
  {
    assert n % 256 == n && (n + 32) % 256 == n + 32 && (n + 32 + 224) % 256 == n;
  }

  lemma CheckFieldIsGraphic(bct: int, s: seq<byte>)
    requires 1 <= bct <= 3
    ensures AllGraphic(CheckField(bct, s))
    ensures forall i :: 0 <= i < bct ==> CheckField(bct, s)[i] < 128
  {
    hide Chk1;
    hide Chk2;
    hide Chk3;
    ToCharExact(Chk1(s));
    ToCharExact((Chk2(s) / 64) % 64);
    ToCharExact(Chk2(s) % 64);
    ToCharExact(Chk3(s) / 4096);
    ToCharExact((Chk3(s) / 64) % 64);
    ToCharExact(Chk3(s) % 64);
    hide ToChar;
    hide Graphic;
  }

  lemma HeaderIsGraphic(bct: int, sq: int, typ: byte, len: nat)
    requires 1 <= bct <= 3 && 0 <= sq < 64 && Graphic(typ) && typ < 128 && len + bct < 9025
    ensures AllGraphic(Header(bct, sq, typ, len))
    ensures var h := Header(bct, sq, typ, len); forall i :: 0 <= i < |h| ==> h[i] < 128
  {
    var j := len + bct;
    hide Chk1;
    ToCharExact(0);
    ToCharExact(sq);
    if Long(bct, len) {
      var h := [ToChar(0), ToChar(sq), typ, ToChar(j / 95), ToChar(j % 95)];
      ToCharExact(j / 95);
      ToCharExact(j % 95);
      ToCharExact(Chk1(h));
      hide ToChar;
      hide Graphic;
      assert AllGraphic(h);
    } else {
      ToCharExact(j + 2);
      hide ToChar;
      hide Graphic;
    }
  }

  lemma TwoDigits(v: int)
    requires 0 <= v < 65536
    ensures CheckValue([ToChar((v / 64) % 64), ToChar(v % 64)]) == v % 4096
  {
    ToCharExact((v / 64) % 64);
    ToCharExact(v % 64);
    hide ToChar;
    hide UnChar;
    hide Or;
    OrExact((v / 64) % 64, v % 64);
    Digits64(v);
  }

  lemma ThreeDigits(v: int)
    requires 0 <= v < 65536
    ensures CheckValue([ToChar(v / 4096), ToChar((v / 64) % 64), ToChar(v % 64)]) == v
  {
    ToCharExact(v / 4096);
    ToCharExact((v / 64) % 64);
    ToCharExact(v % 64);
    hide ToChar;
    hide UnChar;
    hide Or;
    OrExact(v / 4096, (v / 64) % 64);
    OrExact(v / 4096 * 64 + (v / 64) % 64, v % 64);
    Digits64(v);
  }

  /** A type-2 check is read back without its upper four bits, the other two exactly. */
  lemma CheckReadBack(bct: int, s: seq<byte>)
    requires 1 <= bct <= 3
    ensures CheckValue(CheckField(bct, s)) == if bct == 2 then Chk2(s) % 4096 else CheckOf(bct, s)
  {
    hide Chk1;
    hide Chk2;
    hide Chk3;
    hide ToChar;
    hide UnChar;
    if bct == 1 {
      ToCharExact(Chk1(s));
    } else {
      hide CheckValue;
      TwoDigits(Chk2(s));
      ThreeDigits(Chk3(s));
    }
  }

  lemma OrExact(hi: nat, lo: nat)
    requires lo < 64
    ensures Or(hi, lo) == hi * 64 + lo
  {
    assert lo / 64 == 0;
    assert Or2(hi % 4, 0) == hi % 4;
  }

  lemma Digits64(v: int)
    requires 0 <= v < 65536
    ensures ((v / 64) % 64) * 64 + v % 64 == v % 4096
    ensures (v / 4096 * 64 + (v / 64) % 64) * 64 + v % 64 == v
  {
    assert v / 64 / 64 == v / 4096;
  }

  /** The check type a packet carries and is read with. */
  function Effective(bct: int, typ: byte, init: bool): int {
    if typ == 83 || init then 1 else bct
  }

  /** What spkt can print and K_RUN can parse. */
  predicate Printable(bct: int, sq: int, typ: byte, data: seq<byte>) {
    1 <= bct <= 3 && 0 <= sq < 64 && Graphic(typ) && typ < 128 && 0 !in data && |data| + bct < 9025
  }

  /** The check printed over `data` is accepted over what is seen of it. */
  predicate CheckPasses(check: int, sq: int, typ: byte, data: seq<byte>, seen: seq<byte>)
    requires 1 <= check <= 3
  {
    var h := Header(check, sq, typ, |data|);
    CheckValue(CheckField(check, h + data)) == CheckOf(check, h + seen)
  }

  /** Unaltered data pass with check types 1 and 3, and with type 2 if and only if the sum fits in twelve bits. */
  lemma UnalteredPasses(check: int, sq: int, typ: byte, data: seq<byte>)
    requires 1 <= check <= 3
    ensures CheckPasses(check, sq, typ, data, data) <==>
              check != 2 || Chk2(Header(check, sq, typ, |data|) + data) < 4096
  {
    hide Header;
    hide CheckField;
    hide CheckValue;
    hide Chk1;
    hide Chk2;
    hide Chk3;
    CheckReadBack(check, Header(check, sq, typ, |data|) + data);
  }

  /**
   The parser on a printed packet whose data have become `got` on the way: it is
   taken for a packet with these data, up to a NUL, if and only if the check passes.
   */
  lemma ParseReceived(bct: int, sq: int, typ: byte, data: seq<byte>, got: seq<byte>, init: bool, rest: seq<byte>)
    requires var eff := Effective(bct, typ, init);
             1 <= bct <= 3 && Printable(eff, sq, typ, data) && (typ == 83 || init ==> !Long(1, |data|))
    requires typ != 69 && |got| == |data| && |Body(Effective(bct, typ, init), sq, typ, data)| + |rest| >= 6
    ensures var eff := Effective(bct, typ, init);
            var h := Header(eff, sq, typ, |data|);
            Parse(h + got + CheckField(eff, h + data) + rest, bct, init) ==
            if CheckPasses(eff, sq, typ, data, CString(got)) then Accepted(sq, typ, CString(got)) else BadCheck(typ)
  {
    var eff := Effective(bct, typ, init);
    var h := Header(eff, sq, typ, |data|);
    var check := CheckField(eff, h + data);
    HeaderIsGraphic(eff, sq, typ, |data|);
    GraphicIsClean(h);
    CStringAfter(h, got);
    hide Body;
    hide Header;
    hide CheckField;
    hide Parse;
    hide CheckValue;
    hide CString;
    hide Chk1;
    hide Chk2;
    hide Chk3;
    BodyParts(eff, sq, typ, data, rest);
    assert h + got + check + rest == h + got + (check + rest);
    HeaderReadBack(eff, sq, typ, got, check + rest);
    ParseByParts(h + got + check + rest, bct, init, h, got, check, rest);
  }

  /**
   The parser recovers exactly the packet that was printed, whatever else is in
   the buffer: always with check types 1 and 3, and with type 2 if and only if
   the sum of the covered bytes fits in twelve bits.
   */
  lemma ParseInvertsPrint(bct: int, sq: int, typ: byte, data: seq<byte>, init: bool, rest: seq<byte>)
    requires var eff := Effective(bct, typ, init);
             1 <= bct <= 3 && Printable(eff, sq, typ, data) && (typ == 83 || init ==> !Long(1, |data|))
    requires typ != 69 && |Body(Effective(bct, typ, init), sq, typ, data)| + |rest| >= 6
    ensures var eff := Effective(bct, typ, init);
            Parse(Body(eff, sq, typ, data) + rest, bct, init) == Accepted(sq, typ, data) <==>
              eff != 2 || Chk2(Header(eff, sq, typ, |data|) + data) < 4096
  {
    hide Body;
    hide Header;
    hide CheckField;
    hide CheckPasses;
    hide Parse;
    hide CString;
    hide Chk2;
    var eff := Effective(bct, typ, init);
    BodyParts(eff, sq, typ, data, rest);
    CStringOfClean(data);
    ParseReceived(bct, sq, typ, data, data, init, rest);
    UnalteredPasses(eff, sq, typ, data);
  }

  lemma BodyParts(bct: int, sq: int, typ: byte, data: seq<byte>, rest: seq<byte>)
    requires Printable(bct, sq, typ, data)
    ensures var h := Header(bct, sq, typ, |data|);
            var check := CheckField(bct, h + data);
            && Body(bct, sq, typ, data) + rest == h + data + check + rest == h + data + (check + rest)
            && |Body(bct, sq, typ, data)| == |h| + |data| + bct
            && CString(data) == data && CString(h + data) == h + data
            && |h| == if Long(bct, |data|) then 6 else 3
  {
    hide CheckField;
    hide CString;
    hide Chk1;
    var h := Header(bct, sq, typ, |data|);
    HeaderIsGraphic(bct, sq, typ, |data|);
    GraphicIsClean(h);
    CStringOfClean(data);
    CStringOfClean(h + data);
  }

  /** The parser, told by where the data start and end. */
  lemma ParseBySlices(buf: seq<byte>, bct: int, init: bool, start: nat, end: nat)
    requires |buf| >= 6 && 1 <= bct <= 3 && buf[2] != 69
    requires start <= end && end + Effective(bct, buf[2], init) <= |buf|
    requires if UnChar(buf[0]) == 0 then
               && start == 6 && UnChar(buf[5]) == Chk1(CString(buf[..5])) && buf[2] != 83 && !init
               && UnChar(buf[3]) * 95 + UnChar(buf[4]) == end - start + bct
             else start == 3 && UnChar(buf[0]) == end - start + Effective(bct, buf[2], init) + 2
    ensures var chklen := Effective(bct, buf[2], init);
            Parse(buf, bct, init) ==
            if CheckValue(buf[end..end + chklen]) == CheckOf(chklen, CString(buf[..end])) then
              Accepted(UnChar(buf[1]), buf[2], CString(buf[start..end]))
            else BadCheck(buf[2])
  {
    hide Chk1;
    hide CString;
    hide CheckValue;
    hide CheckOf;
    hide UnChar;
  }

  /** The parser on a buffer whose length fields agree with its layout. */
  lemma ParseByParts(buf: seq<byte>, bct: int, init: bool, h: seq<byte>, data: seq<byte>, check: seq<byte>,
                     rest: seq<byte>)
    requires buf == h + data + check + rest && |buf| >= 6 && 1 <= bct <= 3 && buf[2] != 69
    requires |check| == Effective(bct, buf[2], init)
    requires CString(h + data) == h + CString(data)
    requires if UnChar(buf[0]) == 0 then
               && |h| == 6 && UnChar(buf[5]) == Chk1(CString(buf[..5])) && buf[2] != 83 && !init
               && UnChar(buf[3]) * 95 + UnChar(buf[4]) == |data| + |check|
             else |h| == 3 && UnChar(buf[0]) == |data| + |check| + 2
    ensures Parse(buf, bct, init) ==
            if CheckValue(check) == CheckOf(|check|, h + CString(data)) then
              Accepted(UnChar(buf[1]), buf[2], CString(data))
            else BadCheck(buf[2])
  {
    hide Chk1;
    hide Chk2;
    hide Chk3;
    hide CString;
    hide CheckValue;
    hide CheckOf;
    hide UnChar;
    hide Parse;
    Pieces(h, data, check, rest);
    ParseBySlices(buf, bct, init, |h|, |h| + |data|);
  }

  lemma Pieces(h: seq<byte>, data: seq<byte>, check: seq<byte>, rest: seq<byte>)
    ensures var buf := h + data + check + rest;
            var end := |h| + |data|;
            && buf[..end] == h + data
            && buf[|h|..end] == data
            && buf[end..end + |check|] == check
  {
    var buf := h + data + check + rest;
    var end := |h| + |data|;
    assert buf[..end] == h + data;
    assert buf[|h|..end] == buf[..end][|h|..];
  }

  /** The header fields of a printed packet, read back from the buffer. */
  lemma HeaderReadBack(bct: int, sq: int, typ: byte, data: seq<byte>, rest: seq<byte>)
    requires 1 <= bct <= 3 && 0 <= sq < 64 && Graphic(typ) && typ < 128 && |data| + bct < 9025
    requires |Header(bct, sq, typ, |data|) + data + rest| >= 6
    ensures var buf := Header(bct, sq, typ, |data|) + data + rest;
            && UnChar(buf[1]) == sq && buf[2] == typ
            && (if Long(bct, |data|) then
                  && UnChar(buf[0]) == 0
                  && UnChar(buf[5]) == Chk1(CString(buf[..5]))
                  && UnChar(buf[3]) * 95 + UnChar(buf[4]) == |data| + bct
                else UnChar(buf[0]) == |data| + bct + 2)
  {
    var j := |data| + bct;
    var h := Header(bct, sq, typ, |data|);
    var buf := h + data + rest;
    hide Chk1;
    ToCharExact(0);
    ToCharExact(sq);
    HeaderIsGraphic(bct, sq, typ, |data|);
    if Long(bct, |data|) {
      ToCharExact(j / 95);
      ToCharExact(j % 95);
      ToCharExact(Chk1(h[..5]));
      assert buf[..5] == h[..5];
      GraphicIsClean(h);
      CStringOfClean(h[..5]);
    } else {
      ToCharExact(j + 2);
    }
  }

  lemma UnCharIsInjective(a: byte, b: byte)
    requires UnChar(a) == UnChar(b)
    ensures a == b
  {
  }

  lemma LongHeaderChecks(bct: int, sq: int, typ: byte, len: nat)
    requires 1 <= bct <= 3 && 0 <= sq < 64 && Graphic(typ) && typ < 128 && len + bct < 9025 && Long(bct, len)
    ensures var h := Header(bct, sq, typ, len);
            |h| == 6 && UnChar(h[0]) == 0 && UnChar(h[5]) == Chk1(h[..5]) && CString(h[..5]) == h[..5]
  {
    var h := Header(bct, sq, typ, len);
    hide Chk1;
    HeaderIsGraphic(bct, sq, typ, len);
    GraphicIsClean(h);
    CStringOfClean(h[..5]);
    ToCharExact(0);
    ToCharExact(Chk1(h[..5]));
  }

  /**
   Damage to the extended header of a printed long packet: one character of it after LEN
   replaced by another is reported as a damaged header if and only if it is the check
   itself or the check over the others comes out differently.
   */
  lemma DamagedHeaderIsReported(bct: int, init: bool, sq: int, typ: byte, len: nat, i: nat, x: byte, rest: seq<byte>)
    requires 1 <= bct <= 3 && 0 <= sq < 64 && Graphic(typ) && typ < 128 && len + bct < 9025 && Long(bct, len)
    requires var h := Header(bct, sq, typ, len); 1 <= i <= 5 && x != h[i]
    ensures var h := Header(bct, sq, typ, len);
            (Parse(h[i := x] + rest, bct, init).BadHeader? <==>
               i == 5 || Chk1(CString(h[..5][i := x])) != Chk1(h[..5]))
  {
    hide Chk1;
    hide CString;
    hide Parse;
    hide Header;
    hide UnChar;
    var h := Header(bct, sq, typ, len);
    var buf := h[i := x] + rest;
    LongHeaderChecks(bct, sq, typ, len);
    assert buf[0] == h[0];
    BadHeaderOnly(buf, bct, init);
    if i == 5 {
      assert buf[..5] == h[..5] && buf[5] == x;
      if UnChar(x) == UnChar(h[5]) {
        UnCharIsInjective(x, h[5]);
      }
    } else {
      assert buf[..5] == h[..5][i := x] && buf[5] == h[5];
    }
  }

  lemma BadHeaderOnly(buf: seq<byte>, bct: int, init: bool)
    requires |buf| >= 6 && 1 <= bct <= 3 && UnChar(buf[0]) == 0
    ensures Parse(buf, bct, init).BadHeader? <==> UnChar(buf[5]) != Chk1(CString(buf[..5]))
  {
    hide Chk1;
    hide CString;
    hide CheckValue;
    hide CheckOf;
    hide UnChar;
  }

  /**
   An E packet of any length, always sent with a type-1 check, is recognised whatever
   check is in force, if and only if its message is not shorter than the check expected
   is longer.
   */
  lemma ErrorPacketIsRecognised(bct: int, msg: seq<byte>, rest: seq<byte>)
    requires 1 <= bct <= 3 && 0 !in msg && |msg| + 1 < 9025 && |rest| >= 6
    ensures var v := Parse(Body(1, 0, 69, msg) + rest, bct, false);
            (v.Accepted? <==> |msg| >= bct - 1) && (v.Accepted? ==> v.sq == 0 && v.typ == 69)
  {
    hide Chk1;
    hide Chk2;
    hide Chk3;
    hide CString;
    hide CheckValue;
    hide Header;
    hide CheckField;
    hide Body;
    hide Parse;
    hide ToChar;
    hide UnChar;
    var h := Header(1, 0, 69, |msg|);
    var check := CheckField(1, h + msg);
    BodyParts(1, 0, 69, msg, rest);
    HeaderReadBack(1, 0, 69, msg, check + rest);
    assert h + msg + check + rest == h + msg + (check + rest);
    OneCheckCharacter(h + msg);
    ErrorByParts(h + msg + check + rest, bct, h, msg, check, rest);
  }

  lemma OneCheckCharacter(s: seq<byte>)
    ensures UnChar(CheckField(1, s)[0]) == Chk1(s)
  {
    hide Chk1;
    ToCharExact(Chk1(s));
  }

  lemma ErrorByParts(buf: seq<byte>, bct: int, h: seq<byte>, msg: seq<byte>, check: seq<byte>, rest: seq<byte>)
    requires buf == h + msg + check + rest && 1 <= bct <= 3 && |check| == 1 && |rest| >= 6 && |h| >= 3
    requires buf[2] == 69 && UnChar(buf[1]) == 0
    requires CString(h + msg) == h + msg && UnChar(check[0]) == Chk1(h + msg)
    requires if UnChar(buf[0]) == 0 then
               && |h| == 6 && UnChar(buf[5]) == Chk1(CString(buf[..5]))
               && UnChar(buf[3]) * 95 + UnChar(buf[4]) == |msg| + 1
             else |h| == 3 && UnChar(buf[0]) == |msg| + 3
    ensures var v := Parse(buf, bct, false);
            (v.Accepted? <==> |msg| >= bct - 1) && (v.Accepted? ==> v.sq == 0 && v.typ == 69)
  {
    hide Chk1;
    hide Chk2;
    hide Chk3;
    hide CString;
    hide CheckOf;
    hide UnChar;
    var end := |h| + |msg|;
    Pieces(h, msg, check, rest);
    assert buf[end] == check[0];
    if bct == 1 {
      assert buf[end..end + 1] == check;
      SingleCheck(check, h + msg);
    } else {
      hide CheckValue;
    }
  }

  lemma SingleCheck(check: seq<byte>, s: seq<byte>)
    requires |check| == 1 && UnChar(check[0]) == Chk1(s)
    ensures CheckValue(check) == CheckOf(1, s)
  {
    hide Chk1;
  }

  /** Everything getpkt can produce fits the packet buffer, to the last byte. */
  lemma DataPacketFits(s_maxlen: int, bct: int, sq: int, typ: byte, data: seq<byte>)
    requires 1 <= bct <= 3 && s_maxlen <= 2000 && |data| <= s_maxlen - 4
    ensures |Body(bct, sq, typ, data)| + 2 < BUFSIZE
  {
  }

  // ---- spkt ----

  class Writer {
    const opktbuf: array<byte>  // outbound packet, kept for retransmission
    const checker: Checker
    var opktlen: nat
    var s_seq: int

    ghost predicate Valid()
      reads this, checker.crcta, checker.crctb
    {
      && opktbuf.Length == BUFSIZE && opktlen < BUFSIZE
      && checker.Valid()
    }

    constructor ()
      ensures Valid() && opktlen == 0
      ensures fresh(opktbuf) && fresh(checker) && fresh(checker.crcta) && fresh(checker.crctb)
    {
      checker := new Checker();
      opktbuf := new byte[BUFSIZE];
      opktlen, s_seq := 0, 0;
    }

    /** Copies `s` into the buffer from position `i` on and terminates it. */
    method Copy(i: nat, s: seq<byte>) returns (next: nat)
      requires i + |s| < opktbuf.Length
      modifies opktbuf
      ensures next == i + |s|
      ensures opktbuf[..next] == old(opktbuf[..i]) + s && opktbuf[next] == 0
    {
      var n := 0;
      while n < |s|
        invariant n <= |s| && opktbuf[..i + n] == old(opktbuf[..i]) + s[..n]
      {
        opktbuf[i + n] := s[n];
        n := n + 1;
      }
      next := i + |s|;
      opktbuf[next] := 0;
      assert opktbuf[..next] == old(opktbuf[..i]) + s[..n];
    }

    /** The part of the buffer a check is computed over: from LEN to the terminator. */
    lemma Covered(i: nat)
      requires 1 <= i < opktbuf.Length && opktbuf[i] == 0 && 0 !in opktbuf[1..i]
      ensures 0 in opktbuf[1..] && CString(opktbuf[1..]) == opktbuf[1..i]
    {
      assert opktbuf[1..][i - 1] == 0 && opktbuf[1..][..i - 1] == opktbuf[1..i];
      CStringEndsAt(opktbuf[1..], i - 1);
    }

    /** Mark, length, sequence number and type, and the extended header of a long packet. */
    method PutHeader(soh: byte, bct: int, typ: byte, sq: int, len: nat) returns (i: nat)
      requires Valid() && 1 <= bct <= 3 && 0 <= sq < 64 && Graphic(typ) && typ < 128 && len + bct < 9025
      modifies opktbuf
      ensures i == if Long(bct, len) then 7 else 4
      ensures opktbuf[..i] == [soh] + Header(bct, sq, typ, len)
    {
      var j := len + bct;
      HeaderIsGraphic(bct, sq, typ, len);
      if len + bct + 2 > 94 {
        i := Copy(0, [soh, ToChar(0), ToChar(sq), typ, ToChar(j / 95), ToChar(j % 95)]);
        ghost var h := Header(bct, sq, typ, len)[..5];
        assert opktbuf[1..i] == h;
        GraphicIsClean(h);
        Covered(i);
        var chk := checker.FoldedSumOf(opktbuf[1..]);
        i := Copy(i, [ToChar(chk)]);
        assert Header(bct, sq, typ, len) == h + [ToChar(chk)];
      } else {
        i := Copy(0, [soh, ToChar(j + 2), ToChar(sq), typ]);
      }
    }

    /** The block check over everything written since the mark. */
    method PutCheck(i: nat, bct: int) returns (next: nat)
      requires Valid() && 1 <= bct <= 3 && 1 <= i && i + bct < opktbuf.Length
      requires opktbuf[i] == 0 && 0 !in opktbuf[1..i]
      modifies opktbuf
      ensures next == i + bct
      ensures opktbuf[..next] == old(opktbuf[..i]) + CheckField(bct, old(opktbuf[1..i]))
    {
      Covered(i);
      if bct == 1 {
        var chk := checker.FoldedSumOf(opktbuf[1..]);
        next := Copy(i, [ToChar(chk)]);
      } else if bct == 2 {
        var j := checker.SumOf(opktbuf[1..]);
        next := Copy(i, [ToChar((j / 64) % 64), ToChar(j % 64)]);
      } else {
        var word := checker.CrcOf(opktbuf[1..]);
        var crc := word as int;
        next := Copy(i, [ToChar(crc / 4096), ToChar((crc / 64) % 64), ToChar(crc % 64)]);
      }
    }

    /** Builds a packet; the result is what is handed to the line and kept for retransmission. */
    method Spkt(soh: byte, eom: byte, bct: int, typ: byte, sq: int, data: seq<byte>) returns (sent: seq<byte>)
      requires Valid() && Printable(bct, sq, typ, data)
      requires |Body(bct, sq, typ, data)| + 2 < BUFSIZE
      modifies this, opktbuf
      ensures Valid() && s_seq == sq
      ensures sent == opktbuf[..opktlen] == Frame(soh, eom, bct, sq, typ, data)
    {
      hide Header;
      hide CheckField;
      ghost var h := Header(bct, sq, typ, |data|);
      HeaderIsGraphic(bct, sq, typ, |data|);
      GraphicIsClean(h);
      var i := PutHeader(soh, bct, typ, sq, |data|);
      i := Copy(i, data);
      assert opktbuf[1..i] == opktbuf[..i][1..] == h + data;
      i := PutCheck(i, bct);
      assert opktbuf[..i] == [soh] + Body(bct, sq, typ, data);
      i := Copy(i, [eom]);
      s_seq := sq;
      opktlen := i;
      sent := opktbuf[..opktlen];
    }
  }
}
