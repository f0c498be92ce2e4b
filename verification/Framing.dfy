/**
 Finding packets in the incoming bytes: `readpkt`. It looks for the mark, trusts
 the length field to read the rest in pieces of whatever size the line has
 ready, and stops at the terminator.
 */
module Framing {
  import opened Bytes
  import opened BlockCheck
  import opened Packet

  /** The fields of the control structure readpkt consults. The mark is SOH, the terminator CR. */
  datatype Line = Line(parity: bool, remote: bool, r_maxlen: int)

  datatype Read =
    | Frame(body: seq<byte>, rest: seq<byte>)  // the packet, and what has not been read yet
    | TooLong                                  // return 0
    | Interrupted                              // three control-Cs in remote mode: return -1
    | Blocked                                  // the line has nothing more to offer

  /** The local variables of readpkt; `out` is what has been stored in the buffer. */
  datatype Scan = Scan(flag: bool, n: nat, plen: int, s: int, lp: bool, ccn: nat, out: seq<byte>)

  const START: Scan := Scan(false, 0, 0, 0, false, 0, [])

  function Strip(k: Line, x: byte): byte {
    if k.parity then x % 128 else x
  }

  /** The rest of the packet may be read in bulk. */
  predicate Bulk(st: Scan) {
    st.flag && !(st.n == 0) && st.plen > 0 && !(st.lp && st.n < 6)
  }

  /** The length fields: LEN itself, and the extended length of a long packet. */
  function Measure(k: Line, st: Scan, x: byte): Scan {
    var st := if st.flag && st.n == 0 then st.(plen := UnChar(x % 128), lp := st.lp || UnChar(x % 128) == 0) else st;
    if !st.lp then st
    else
      var s: int := if st.n < 5 then st.s + Strip(k, x) else st.s;
      var plen: int := if st.n == 3 then 95 * UnChar(x)
                  else if st.n == 4 then st.plen + UnChar(x)
                  else if st.n == 5 && ToChar((s + (s / 64) % 4) % 64) != x then 0
                  else st.plen;
      st.(s := s, plen := plen)
  }

  datatype Effect = Continue(st: Scan) | Complete | Overlong | Cancelled

  /** What a byte read on its own does. */
  function OneByte(k: Line, st: Scan, x: byte): Effect {
    var c := Strip(k, x);
    var m := Measure(k, st, x);
    var m := m.(ccn := if k.remote && c == 3 then m.ccn + 1 else 0);
    if m.ccn > 2 then Cancelled
    else if !m.flag && c != SOH then Continue(m)
    else if c == SOH then Continue(m.(flag := true))
    else if c == CR || c == LF then Complete
    else if m.n > k.r_maxlen then Overlong
    else Continue(m.(n := m.n + 1, out := m.out + [x]))
  }

  /** What readpkt returns, one byte at a time: the meaning of its loop. */
  function ScanFrom(k: Line, st: Scan, input: seq<byte>): Read
    decreases |input|
  {
    if input == [] then Blocked
    else if Bulk(st) then
      ScanFrom(k, st.(n := st.n + 1, plen := st.plen - 1, out := st.out + [Strip(k, input[0])]), input[1..])
    else
      match OneByte(k, st, input[0])
      case Continue(next) => ScanFrom(k, next, input[1..])
      case Complete => Frame(st.out, input[1..])
      case Overlong => TooLong
      case Cancelled => Interrupted
  }

  /** Reading a piece in bulk is reading its bytes one after the other. */
  lemma {:induction false} BulkStep(k: Line, st: Scan, input: seq<byte>, m: nat, piece: seq<byte>)
    requires m <= |input| && (m > 0 ==> Bulk(st)) && m <= st.plen
    requires |piece| == m && forall i :: 0 <= i < m ==> piece[i] == Strip(k, input[i])
    ensures ScanFrom(k, st, input) ==
            ScanFrom(k, st.(n := st.n + m, plen := st.plen - m, out := st.out + piece), input[m..])
    decreases m
  {
    if m == 0 {
      assert st.out + piece == st.out && input[0..] == input;
    } else {
      var st' := st.(n := st.n + 1, plen := st.plen - 1, out := st.out + [piece[0]]);
      BulkStep(k, st', input[1..], m - 1, piece[1..]);
      assert st'.out + piece[1..] == st.out + piece;
      assert input[1..][m - 1..] == input[m..];
    }
  }

  lemma ScanStep(k: Line, st: Scan, input: seq<byte>, pos: nat)
    requires pos <= |input|
    ensures input[0..] == input
    ensures pos == |input| ==> ScanFrom(k, st, input[pos..]) == Blocked
    ensures pos < |input| && !Bulk(st) ==>
              ScanFrom(k, st, input[pos..]) ==
              match OneByte(k, st, input[pos])
              case Continue(next) => ScanFrom(k, next, input[pos + 1..])
              case Complete => Frame(st.out, input[pos + 1..])
              case Overlong => TooLong
              case Cancelled => Interrupted
  {
    if pos < |input| {
      assert input[pos..][1..] == input[pos + 1..];
    }
  }

  /** Reads one packet from the line; `input` is what the line will deliver. */
  method ReadPkt(k: Line, input: seq<byte>) returns (r: Read)
    ensures r == ScanFrom(k, START, input)
  {
    hide UnChar;
    hide ToChar;
    hide Strip;
    hide ScanFrom;
    var flag, lp := false, false;
    var n: nat, plen: int, s: int, ccn: nat := 0, 0, 0, 0;
    var p: seq<byte> := [];
    var pos := 0;
    while pos < |input|
      invariant 0 <= pos <= |input|
      invariant ScanFrom(k, START, input) == ScanFrom(k, Scan(flag, n, plen, s, lp, ccn, p), input[pos..])
      decreases |input| - pos
    {
      ghost var st := Scan(flag, n, plen, s, lp, ccn, p);
      ScanStep(k, st, input, pos);
      var x: byte;
      if flag && n == 0 {
        x := input[pos];
        plen := UnChar(x % 128);
        if plen == 0 {
          lp := true;
        }
      } else if flag && plen > 0 && n != 0 && !(lp && n < 6) {
        // The line hands over any non-empty part of what is asked for.
        var read :| 1 <= read <= plen && read <= |input| - pos;
        var piece := seq<byte>(read, i requires 0 <= i < read => Strip(k, input[pos + i]));
        BulkStep(k, st, input[pos..], read, piece);
        assert input[pos..][read..] == input[pos + read..];
        p := p + piece;
        plen := plen - read;
        n := n + read;
        pos := pos + read;
        continue;
      } else {
        x := input[pos];
      }
      pos := pos + 1;
      var c := Strip(k, x);
      if lp {
        if n < 5 {
          s := s + c;
        }
        if n == 3 {
          plen := 95 * UnChar(x);
        }
        if n == 4 {
          plen := plen + UnChar(x);
        }
        if n == 5 {
          if ToChar((s + (s / 64) % 4) % 64) != x {
            plen := 0;
          }
        }
      }
      if k.remote && c == 3 {
        ccn := ccn + 1;
        if ccn > 2 {
          return Interrupted;
        }
      } else {
        ccn := 0;
      }
      if !flag && c != SOH {
        assert OneByte(k, st, x) == Continue(Scan(flag, n, plen, s, lp, ccn, p));
        continue;
      }
      if c == SOH {
        flag := true;
        assert OneByte(k, st, x) == Continue(Scan(flag, n, plen, s, lp, ccn, p));
        continue;
      } else if c == CR || c == LF {
        return Frame(p, input[pos..]);
      } else {
        if n > k.r_maxlen {
          return TooLong;
        }
        n := n + 1;
        p := p + [x];
        assert OneByte(k, st, x) == Continue(Scan(flag, n, plen, s, lp, ccn, p));
      }
    }
    ScanStep(k, Scan(flag, n, plen, s, lp, ccn, p), input, pos);
    return Blocked;
  }

  // ---- Framing undoes printing ----

  /** Three control-Cs in a row, which stop a program in remote mode. */
  predicate ThreeInARow(k: Line, s: seq<byte>) {
    exists i :: 0 <= i < |s| - 2 && Strip(k, s[i]) == Strip(k, s[i + 1]) == Strip(k, s[i + 2]) == 3
  }

  predicate NoMark(k: Line, s: seq<byte>) {
    forall i :: 0 <= i < |s| ==> Strip(k, s[i]) != SOH
  }

  /** Bytes between packets that can neither start one nor stop the program. */
  predicate Noise(k: Line, noise: seq<byte>) {
    NoMark(k, noise) && (k.remote ==> !ThreeInARow(k, noise))
  }

  /** What reaches the buffer: with parity in use, bytes without their eighth bits. */
  function StripAll(k: Line, s: seq<byte>): (r: seq<byte>)
    ensures |r| == |s| && forall i :: 0 <= i < |s| ==> r[i] == Strip(k, s[i])
  {
    if k.parity then Strip7(s) else s
  }

  /** How many control-Cs come first. */
  function Leading(k: Line, s: seq<byte>): (n: nat)
    ensures n <= |s|
  {
    if s == [] || Strip(k, s[0]) != 3 then 0 else 1 + Leading(k, s[1..])
  }

  lemma LeadingThree(k: Line, s: seq<byte>)
    ensures Leading(k, s) >= 3 <==> |s| >= 3 && Strip(k, s[0]) == Strip(k, s[1]) == Strip(k, s[2]) == 3
  {
    hide Strip;
    if |s| >= 3 {
      assert s[1..][0] == s[1] && s[1..][1..] == s[2..] && s[2..][0] == s[2];
    }
  }

  lemma ThreeBehind(k: Line, x: byte, s: seq<byte>)
    requires ThreeInARow(k, s)
    ensures ThreeInARow(k, [x] + s)
  {
    hide Strip;
    var i :| 0 <= i < |s| - 2 && Strip(k, s[i]) == Strip(k, s[i + 1]) == Strip(k, s[i + 2]) == 3;
    var t := [x] + s;
    assert t[i + 1] == s[i] && t[i + 2] == s[i + 1] && t[i + 3] == s[i + 2];
  }

  lemma ThreeBefore(k: Line, x: byte, s: seq<byte>)
    requires ThreeInARow(k, [x] + s)
    ensures ThreeInARow(k, s) || (|s| >= 2 && Strip(k, x) == Strip(k, s[0]) == Strip(k, s[1]) == 3)
  {
    hide Strip;
    var t := [x] + s;
    var i :| 0 <= i < |t| - 2 && Strip(k, t[i]) == Strip(k, t[i + 1]) == Strip(k, t[i + 2]) == 3;
    if i > 0 {
      assert s[i - 1] == t[i] && s[i] == t[i + 1] && s[i + 1] == t[i + 2];
    }
  }

  lemma ThreeLater(k: Line, s: seq<byte>)
    requires s != []
    ensures ThreeInARow(k, s) <==> ThreeInARow(k, s[1..]) || Leading(k, s) >= 3
  {
    hide Strip;
    LeadingThree(k, s);
    assert s == [s[0]] + s[1..];
    if Leading(k, s) >= 3 {
      assert Strip(k, s[0]) == Strip(k, s[0 + 1]) == Strip(k, s[0 + 2]) == 3;
    }
    if ThreeInARow(k, s) {
      ThreeBefore(k, s[0], s[1..]);
    }
    if ThreeInARow(k, s[1..]) {
      ThreeBehind(k, s[0], s[1..]);
    }
  }

  /** One byte before the mark. */
  lemma ByteBeforeMark(k: Line, ccn: nat, s: seq<byte>)
    requires s != [] && Strip(k, s[0]) != SOH
    ensures var pressed := if k.remote && Strip(k, s[0]) == 3 then ccn + 1 else 0;
            ScanFrom(k, START.(ccn := ccn), s) ==
            if pressed > 2 then Interrupted else ScanFrom(k, START.(ccn := pressed), s[1..])
  {
    hide Strip;
    hide UnChar;
    hide ToChar;
  }

  /**
   Before a mark the program is stopped by three control-Cs in a row in remote mode, and
   by nothing else; until then the bytes have no effect.
   */
  lemma {:induction false} BeforeTheMark(k: Line, ccn: nat, bytes: seq<byte>, input: seq<byte>)
    requires NoMark(k, bytes) && ccn <= 2
    ensures k.remote && (ThreeInARow(k, bytes) || ccn + Leading(k, bytes) > 2) ==>
              ScanFrom(k, START.(ccn := ccn), bytes + [SOH] + input) == Interrupted
    ensures !(k.remote && (ThreeInARow(k, bytes) || ccn + Leading(k, bytes) > 2)) ==>
              ScanFrom(k, START.(ccn := ccn), bytes + [SOH] + input) == ScanFrom(k, START.(flag := true), input)
    decreases |bytes|
  {
    if bytes == [] {
      assert bytes + [SOH] + input == [SOH] + input && ([SOH] + input)[1..] == input;
      MarkIsTaken(k, ccn, input);
    } else {
      hide Strip;
      hide ScanFrom;
      var rest := bytes[1..];
      var all := bytes + [SOH] + input;
      assert all[0] == bytes[0] && all[1..] == rest + [SOH] + input;
      ByteBeforeMark(k, ccn, all);
      ThreeLater(k, bytes);
      LeadingThree(k, rest);
      var pressed := if k.remote && Strip(k, bytes[0]) == 3 then ccn + 1 else 0;
      if pressed <= 2 {
        BeforeTheMark(k, pressed, rest, input);
      }
    }
  }

  /** Three control-Cs in a row in remote mode, and nothing else before a mark, stop the program. */
  lemma OnlyThreeInterrupt(k: Line, bytes: seq<byte>, input: seq<byte>)
    requires NoMark(k, bytes)
    ensures ScanFrom(k, START, bytes + [SOH] + input) ==
            if k.remote && ThreeInARow(k, bytes) then Interrupted else ScanFrom(k, START.(flag := true), input)
  {
    hide ScanFrom;
    LeadingThree(k, bytes);
    BeforeTheMark(k, 0, bytes, input);
  }

  /** Before the length a further mark changes nothing. */
  lemma MarkRepeated(k: Line, input: seq<byte>)
    ensures ScanFrom(k, START.(flag := true), [SOH] + input) == ScanFrom(k, START.(flag := true), input)
  {
    var st := START.(flag := true);
    assert ([SOH] + input)[1..] == input;
    assert OneByte(k, st, SOH) == Continue(st.(plen := UnChar(SOH)));
    if input != [] {
      assert Measure(k, st.(plen := UnChar(SOH)), input[0]) == Measure(k, st, input[0]);
    }
  }

  lemma NoiseIsSkipped(k: Line, noise: seq<byte>, input: seq<byte>)
    requires Noise(k, noise)
    ensures ScanFrom(k, START, noise + [SOH] + input) == ScanFrom(k, START.(flag := true), input)
  {
    OnlyThreeInterrupt(k, noise, input);
  }

  /** One ordinary packet character outside the bulk part. */
  lemma SingleStep(k: Line, st: Scan, x: byte, input: seq<byte>)
    requires st.flag && !Bulk(st) && Graphic(x) && (k.parity ==> x < 128) && st.n <= k.r_maxlen
    ensures var m := Measure(k, st, x);
            ScanFrom(k, st, [x] + input) == ScanFrom(k, m.(ccn := 0, n := m.n + 1, out := m.out + [x]), input)
  {
    assert ([x] + input)[1..] == input;
  }

  /** Once the length is known, the rest of the packet and its terminator follow. */
  lemma BulkToEnd(k: Line, st: Scan, rest: seq<byte>, tail: seq<byte>)
    requires rest != [] && Bulk(st) && st.plen == |rest|
    ensures ScanFrom(k, st, rest + [CR] + tail) == Frame(st.out + StripAll(k, rest), tail)
  {
    var input := rest + [CR] + tail;
    BulkStep(k, st, input, |rest|, StripAll(k, rest));
    assert input[|rest|..] == [CR] + tail && ([CR] + tail)[1..] == tail;
    var done := st.(n := st.n + |rest|, plen := 0, out := st.out + StripAll(k, rest));
    assert !Bulk(done);
  }

  lemma ShortFrame(k: Line, body: seq<byte>, tail: seq<byte>)
    requires |body| >= 2 && Graphic(body[0]) && body[0] < 128 && UnChar(body[0]) == |body| - 1 && k.r_maxlen >= 6
    ensures ScanFrom(k, START.(flag := true), body + [CR] + tail) == Frame(StripAll(k, body), tail)
  {
    var st := START.(flag := true);
    var rest := body[1..];
    assert body[0] % 128 == body[0] && st.out + [body[0]] == [body[0]];
    assert body + [CR] + tail == [body[0]] + (rest + [CR] + tail);
    SingleStep(k, st, body[0], rest + [CR] + tail);
    BulkToEnd(k, st.(n := 1, plen := |rest|, out := [body[0]]), rest, tail);
    assert [body[0]] + StripAll(k, rest) == StripAll(k, body);
  }

  /** The state of the scan after `i` characters of an extended header. */
  function HeaderState(h: seq<byte>, i: nat): Scan
    requires |h| == 6 && i <= 6
  {
    var plen := if i <= 3 || (i == 6 && !Trusted(h)) then 0
                else if i == 4 then 95 * UnChar(h[3])
                else 95 * UnChar(h[3]) + UnChar(h[4]);
    Scan(true, i, plen, HeaderSum(h, if i < 5 then i else 5), i > 0, 0, h[..i])
  }

  function HeaderSum(h: seq<byte>, i: nat): int
    requires i <= |h|
  {
    if i == 0 then 0 else HeaderSum(h, i - 1) + h[i - 1]
  }

  /** Six characters that look like an extended header. */
  predicate HeaderCharacters(h: seq<byte>) {
    && |h| == 6
    && (forall i :: 0 <= i < 6 ==> Graphic(h[i]) && h[i] < 128)
    && UnChar(h[0]) == 0
  }

  /** Its check is good, so its length is trusted. */
  predicate Trusted(h: seq<byte>)
    requires |h| == 6
  {
    h[5] == ToChar((HeaderSum(h, 5) + (HeaderSum(h, 5) / 64) % 4) % 64)
  }

  predicate ExtendedHeader(h: seq<byte>) {
    HeaderCharacters(h) && Trusted(h)
  }

  lemma HeaderMeasure(k: Line, h: seq<byte>, i: nat)
    requires HeaderCharacters(h) && i < 6
    ensures var m := Measure(k, HeaderState(h, i), h[i]);
            && m.s == HeaderState(h, i + 1).s && m.plen == HeaderState(h, i + 1).plen
            && m.flag && m.lp && m.n == i && m.out == h[..i]
  {
    hide UnChar;
    hide ToChar;
    assert h[i] % 128 == h[i] && Strip(k, h[i]) == h[i];
  }

  lemma HeaderStep(k: Line, h: seq<byte>, i: nat, input: seq<byte>)
    requires HeaderCharacters(h) && i < 6 && k.r_maxlen >= 6
    ensures ScanFrom(k, HeaderState(h, i), h[i..] + input) == ScanFrom(k, HeaderState(h, i + 1), h[i + 1..] + input)
  {
    hide ScanFrom;
    hide Measure;
    hide HeaderSum;
    hide UnChar;
    hide ToChar;
    var st := HeaderState(h, i);
    HeaderMeasure(k, h, i);
    assert h[i..] == [h[i]] + h[i + 1..];
    assert h[i..] + input == [h[i]] + (h[i + 1..] + input);
    SingleStep(k, st, h[i], h[i + 1..] + input);
    assert st.out + [h[i]] == h[..i + 1];
  }

  /** The extended header, character by character. */
  lemma HeaderScanned(k: Line, h: seq<byte>, input: seq<byte>)
    requires HeaderCharacters(h) && k.r_maxlen >= 6
    ensures ScanFrom(k, START.(flag := true), h + input) == ScanFrom(k, HeaderState(h, 6), input)
  {
    hide ScanFrom;
    assert h[0..] + input == h + input;
    assert HeaderState(h, 0) == START.(flag := true);
    HeaderStep(k, h, 0, input);
    HeaderStep(k, h, 1, input);
    HeaderStep(k, h, 2, input);
    HeaderStep(k, h, 3, input);
    HeaderStep(k, h, 4, input);
    HeaderStep(k, h, 5, input);
    assert h[6..] + input == input;
  }

  /** Characters that are neither a mark nor a terminator nor a control-C. */
  predicate Ordinary(k: Line, s: seq<byte>) {
    forall i :: 0 <= i < |s| ==> var c := Strip(k, s[i]); c != SOH && c != CR && c != LF && c != 3
  }

  /** Read one by one, such characters are stored as far as the limit allows, and then the terminator counts. */
  lemma {:induction false} OneByOne(k: Line, st: Scan, s: seq<byte>, eom: byte, tail: seq<byte>)
    requires Strip(k, eom) == CR || Strip(k, eom) == LF
    requires Ordinary(k, s) && st.flag && st.lp && st.n >= 6 && st.plen == 0 && 0 <= st.n <= k.r_maxlen + 1
    ensures ScanFrom(k, st, s + [eom] + tail) ==
            if st.n + |s| <= k.r_maxlen + 1 then Frame(st.out + s, tail) else TooLong
    decreases |s|
  {
    hide UnChar;
    hide ToChar;
    if s == [] {
      assert s + [eom] + tail == [eom] + tail && ([eom] + tail)[1..] == tail;
      assert st.out + s == st.out;
    } else {
      assert (s + [eom] + tail)[1..] == s[1..] + [eom] + tail;
      if st.n <= k.r_maxlen {
        OneByOne(k, st.(ccn := 0, n := st.n + 1, out := st.out + [s[0]]), s[1..], eom, tail);
        assert st.out + [s[0]] + s[1..] == st.out + s;
      }
    }
  }

  /**
   A long packet whose header check is wrong: its length is not trusted. What follows is
   read up to the next carriage return or line feed and no further, so that the packet
   after it is not lost.
   */
  lemma DamagedLengthIsDropped(k: Line, h: seq<byte>, rest: seq<byte>, eom: byte, tail: seq<byte>)
    requires Strip(k, eom) == CR || Strip(k, eom) == LF
    requires HeaderCharacters(h) && !Trusted(h) && Ordinary(k, rest) && k.r_maxlen >= 6
    ensures ScanFrom(k, START.(flag := true), h + rest + [eom] + tail) ==
            if 6 + |rest| <= k.r_maxlen + 1 then Frame(h + rest, tail) else TooLong
  {
    hide ScanFrom;
    hide Trusted;
    hide Ordinary;
    assert h + (rest + [eom] + tail) == h + rest + [eom] + tail;
    HeaderScanned(k, h, rest + [eom] + tail);
    assert h[..6] == h;
    OneByOne(k, HeaderState(h, 6), rest, eom, tail);
  }

  /** The extended header and then the rest. */
  lemma LongFrame(k: Line, h: seq<byte>, rest: seq<byte>, tail: seq<byte>)
    requires ExtendedHeader(h) && rest != [] && k.r_maxlen >= 6
    requires UnChar(h[3]) * 95 + UnChar(h[4]) == |rest|
    ensures ScanFrom(k, START.(flag := true), h + rest + [CR] + tail) == Frame(h + StripAll(k, rest), tail)
  {
    hide ScanFrom;
    assert h + (rest + [CR] + tail) == h + rest + [CR] + tail;
    HeaderScanned(k, h, rest + [CR] + tail);
    assert h[..6] == h;
    BulkToEnd(k, HeaderState(h, 6), rest, tail);
  }

  /**
   Whatever noise comes before a printed packet, readpkt returns the bytes between
   its mark and its terminator, the data without their eighth bits where parity is
   in use, and leaves the line behind it.
   */
  lemma FramingInvertsPrinting(k: Line, noise: seq<byte>, bct: int, sq: int, typ: byte, data: seq<byte>,
                               tail: seq<byte>)
    requires Noise(k, noise) && Printable(bct, sq, typ, data) && k.r_maxlen >= 6
    ensures var h := Header(bct, sq, typ, |data|);
            var r := ScanFrom(k, START, noise + Packet.Frame(SOH, CR, bct, sq, typ, data) + tail);
            && r == Frame(h + StripAll(k, data) + CheckField(bct, h + data), tail)
            && |r.body| == |Body(bct, sq, typ, data)|
            && (Crosses(k.parity, data) ==> r.body == Body(bct, sq, typ, data))
  {
    hide Body;
    hide Header;
    hide CheckField;
    hide ScanFrom;
    hide ExtendedHeader;
    var body := Body(bct, sq, typ, data);
    var h := Header(bct, sq, typ, |data|);
    var check := CheckField(bct, h + data);
    StrippedBody(k, bct, sq, typ, data);
    Regrouped(noise, body, tail);
    NoiseIsSkipped(k, noise, body + [CR] + tail);
    if Long(bct, |data|) {
      LongHeaderScans(bct, sq, typ, |data|);
      assert body == h + (data + check);
      LongFrame(k, h, data + check, tail);
      assert h + StripAll(k, data + check) == h + StripAll(k, data) + check;
    } else {
      ToCharExact(|data| + bct + 2);
      ShortFrame(k, body, tail);
    }
  }

  /**
   The whole way over the wire: a packet printed by spkt is found by readpkt
   behind any noise, whatever the slot buffer held before, and if its check passes
   over what is seen of its data, K_RUN takes it apart into the same sequence number
   and type, and these data. Data that cross the line unaltered always pass with
   check types 1 and 3, and with type 2 if and only if the byte sum fits in twelve bits.
   */
  lemma WireRoundTrip(k: Line, noise: seq<byte>, bct: int, init: bool, sq: int, typ: byte, data: seq<byte>,
                      tail: seq<byte>, stale: seq<byte>)
    requires var eff := Effective(bct, typ, init);
             && 1 <= bct <= 3 && Printable(eff, sq, typ, data)
             && (typ == 83 || init ==> !Long(1, |data|))
    requires typ != 69 && |stale| >= 6
    requires Noise(k, noise) && k.r_maxlen >= 6
    ensures var eff := Effective(bct, typ, init);
            var seen := Seen(k.parity, data);
            var r := ScanFrom(k, START, noise + Packet.Frame(SOH, CR, eff, sq, typ, data) + tail);
            && r.Frame? && r.rest == tail && |r.body + stale| >= 6
            && Parse(r.body + stale, bct, init) ==
               (if CheckPasses(eff, sq, typ, data, seen) then Accepted(sq, typ, seen) else BadCheck(typ))
            && (Crosses(k.parity, data) ==>
                  && seen == data
                  && (CheckPasses(eff, sq, typ, data, seen) <==>
                        eff != 2 || Chk2(Header(eff, sq, typ, |data|) + data) < 4096))
  {
    hide Body;
    hide Header;
    hide CheckField;
    hide CheckPasses;
    hide ScanFrom;
    hide Parse;
    hide CString;
    hide Chk2;
    var eff := Effective(bct, typ, init);
    FramingInvertsPrinting(k, noise, eff, sq, typ, data, tail);
    ParseReceived(bct, sq, typ, data, StripAll(k, data), init, stale);
    CStringOfClean(data);
    if Crosses(k.parity, data) {
      SeenAsItIs(k.parity, data);
      UnalteredPasses(eff, sq, typ, data);
    }
  }

  lemma Regrouped(noise: seq<byte>, body: seq<byte>, tail: seq<byte>)
    ensures noise + ([SOH] + body + [CR]) + tail == noise + [SOH] + (body + [CR] + tail)
  {
  }

  lemma StrippedParts(k: Line, h: seq<byte>, data: seq<byte>, check: seq<byte>)
    requires forall i :: 0 <= i < |h| ==> h[i] < 128
    requires forall i :: 0 <= i < |check| ==> check[i] < 128
    ensures StripAll(k, data + check) == StripAll(k, data) + check
    ensures StripAll(k, h + data + check) == h + StripAll(k, data) + check
    ensures Crosses(k.parity, data) ==> StripAll(k, data) == data
  {
    hide Strip7;
    assert StripAll(k, data + check) == StripAll(k, data) + check;
  }

  /** Parity strips the data only: all other characters of a packet have seven bits. */
  lemma StrippedBody(k: Line, bct: int, sq: int, typ: byte, data: seq<byte>)
    requires Printable(bct, sq, typ, data)
    ensures var h := Header(bct, sq, typ, |data|);
            var check := CheckField(bct, h + data);
            && Body(bct, sq, typ, data) == h + data + check
            && StripAll(k, data + check) == StripAll(k, data) + check
            && StripAll(k, h + data + check) == h + StripAll(k, data) + check
            && |h| == (if Long(bct, |data|) then 6 else 3) && Graphic(h[0]) && h[0] < 128
            && (!Long(bct, |data|) ==> h[0] == ToChar(|data| + bct + 2))
            && (Crosses(k.parity, data) ==> StripAll(k, data) == data)
  {
    var h := Header(bct, sq, typ, |data|);
    HeaderIsGraphic(bct, sq, typ, |data|);
    CheckFieldIsGraphic(bct, h + data);
    StrippedParts(k, h, data, CheckField(bct, h + data));
    hide Header;
    hide CheckField;
    hide Graphic;
    hide StripAll;
    hide Crosses;
  }

  lemma MarkIsTaken(k: Line, ccn: nat, input: seq<byte>)
    requires ccn <= 2
    ensures ScanFrom(k, START.(ccn := ccn), [SOH] + input) == ScanFrom(k, START.(flag := true), input)
  {
    assert ([SOH] + input)[1..] == input;
  }

  /** The header spkt prints for a long packet is one readpkt trusts. */
  lemma LongHeaderScans(bct: int, sq: int, typ: byte, len: nat)
    requires 1 <= bct <= 3 && 0 <= sq < 64 && Graphic(typ) && typ < 128 && len + bct < 9025 && Long(bct, len)
    ensures var h := Header(bct, sq, typ, len);
            ExtendedHeader(h) && UnChar(h[3]) * 95 + UnChar(h[4]) == len + bct
  {
    var h := Header(bct, sq, typ, len);
    var j := len + bct;
    HeaderIsGraphic(bct, sq, typ, len);
    ToCharExact(0);
    ToCharExact(j / 95);
    ToCharExact(j % 95);
    HeaderSumIsChk(h, 5);
    HeaderSumIsSmall(h, 5);
  }

  lemma {:induction false} HeaderSumIsSmall(h: seq<byte>, i: nat)
    requires i <= |h|
    ensures 0 <= HeaderSum(h, i) <= 255 * i
  {
    if i > 0 {
      HeaderSumIsSmall(h, i - 1);
    }
  }

  lemma {:induction false} HeaderSumIsChk(h: seq<byte>, i: nat)
    requires i <= |h| && i <= 5
    ensures Chk2(h[..i]) == HeaderSum(h, i)
  {
    if i > 0 {
      HeaderSumIsChk(h, i - 1);
      HeaderSumIsSmall(h, i);
      assert h[..i][..i - 1] == h[..i - 1];
    }
  }

  // ---- How much is stored ----

  function Max(a: int, b: int): int {
    if a >= b then a else b
  }

  lemma {:induction false} OutIsKept(k: Line, st: Scan, input: seq<byte>)
    ensures var r := ScanFrom(k, st, input); r.Frame? ==> st.out <= r.body
    decreases |input|
  {
    if input != [] {
      if Bulk(st) {
        OutIsKept(k, st.(n := st.n + 1, plen := st.plen - 1, out := st.out + [Strip(k, input[0])]), input[1..]);
      } else {
        match OneByte(k, st, input[0])
        case Continue(next) => OutIsKept(k, next, input[1..]);
        case _ =>
      }
    }
  }

  /** Behind the length fields: what they still announce is stored unseen, everything else is held to the limit. */
  lemma {:induction false} StoredAfterHeader(k: Line, st: Scan, input: seq<byte>)
    requires |st.out| == st.n >= 1 && st.flag && (!st.lp || st.n >= 6) && k.r_maxlen >= 0
    ensures var r := ScanFrom(k, st, input);
            r.Frame? ==> |r.body| <= Max(Max(st.n, k.r_maxlen + 1), st.n + st.plen)
    decreases |input|
  {
    hide UnChar;
    hide ToChar;
    hide Strip;
    if input != [] {
      if Bulk(st) {
        StoredAfterHeader(k, st.(n := st.n + 1, plen := st.plen - 1, out := st.out + [Strip(k, input[0])]), input[1..]);
      } else {
        match OneByte(k, st, input[0])
        case Continue(next) => StoredAfterHeader(k, next, input[1..]);
        case _ =>
      }
    }
  }

  /** A packet that does not announce itself as long stays within the limit, or within 256 bytes. */
  lemma {:induction false} ShortIsWithin(k: Line, st: Scan, input: seq<byte>)
    requires st.n == 0 && st.out == [] && !st.lp && k.r_maxlen >= 0
    ensures var r := ScanFrom(k, st, input);
            r.Frame? && r.body != [] && UnChar(r.body[0] % 128) != 0 ==> |r.body| <= Max(k.r_maxlen + 1, 256)
    decreases |input|
  {
    if input != [] {
      match OneByte(k, st, input[0])
      case Continue(next) =>
        OutIsKept(k, next, input[1..]);
        if next.n == 0 {
          if !next.lp {
            ShortIsWithin(k, next, input[1..]);
          }
        } else if !next.lp {
          StoredAfterHeader(k, next, input[1..]);
        }
      case _ =>
    }
  }

  /** A long packet stays within the limit or its own announcement, which may be up to 9030 bytes. */
  lemma LongIsWithin(k: Line, noise: seq<byte>, h: seq<byte>, input: seq<byte>)
    requires Noise(k, noise) && ExtendedHeader(h) && k.r_maxlen >= 6
    ensures var r := ScanFrom(k, START, noise + [SOH] + (h + input));
            r.Frame? ==> |r.body| <= Max(k.r_maxlen + 1, 6 + 95 * UnChar(h[3]) + UnChar(h[4]))
  {
    hide ScanFrom;
    hide UnChar;
    NoiseIsSkipped(k, noise, h + input);
    HeaderScanned(k, h, input);
    StoredAfterHeader(k, HeaderState(h, 6), input);
  }

  /** Whether a printed packet fits the slot it is read into is a matter of its length alone: readpkt does not ask. */
  lemma FitsTheSlot(k: Line, noise: seq<byte>, bct: int, sq: int, typ: byte, data: seq<byte>, tail: seq<byte>)
    requires Noise(k, noise) && Printable(bct, sq, typ, data) && k.r_maxlen >= 6
    ensures var r := ScanFrom(k, START, noise + Packet.Frame(SOH, CR, bct, sq, typ, data) + tail);
            r.Frame? && (|r.body| <= BUFSIZE <==> |data| <= BUFSIZE - bct - (if Long(bct, |data|) then 6 else 3))
  {
    FramingInvertsPrinting(k, noise, bct, sq, typ, data, tail);
  }
}
